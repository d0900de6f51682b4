/**
 What each economy command asks and does, told from prices, quantities and rewards: when it goes
 through, what it costs, what it gives, and what it leaves alone, for one command and for every
 execution that a run has logged.
 */
module Commands {
  import opened Common
  import opened Rewards
  import opened Ledger
  import opened EconomyRuns

  // ----- Purchases -----

  lemma {:induction false} CostSign(price: int, quantity: int)
    requires quantity > 0
    ensures price * quantity >= 0 <==> price >= 0
  {
  }

  /** Under an unknown request id a known user's valid command does what its outcome says. */
  lemma {:induction false} NewCommand(c: Catalog, s: State, cmd: Command)
    requires ValidRequest(cmd) && cmd.user in s.accounts && Find(s.log, cmd.request).None?
    ensures match OutcomeOf(c, s.accounts[cmd.user], s.holdings, cmd)
            case Rejected(error) => Step(c, s, cmd) == (s, Failed(error))
            case Accepted(after, holdings, cost, result) =>
              Step(c, s, cmd)
              == (State(s.accounts[cmd.user := after.(version := after.version + 1)], holdings,
                        s.log + [Execution(cmd.request, cmd.user, PayloadOf(cmd), Completed, cost, Some(result))]),
                  Fresh(result))
  {
    StepOf(c, s, cmd);
    hide OutcomeOf, Find, Step;
  }

  /**
   A purchase goes through exactly when the item exists, it is not a wallpaper the user has already,
   its price is not negative and the price times the quantity is no more than the balance. Then the
   balance falls by exactly that, the user has exactly that many more, and the log says so.
   */
  lemma {:induction false} PurchaseExactly(c: Catalog, s: State, user: int, request: int, item: string, quantity: int)
    requires user in s.accounts && quantity > 0 && Find(s.log, request).None?
    ensures var (after, reply) := Step(c, s, Purchase(user, request, item, quantity));
            && (reply.Fresh?
                <==> && item in c.items && c.items[item].price >= 0
                     && !(c.items[item].category == Wallpaper && Quantity(s.holdings, ItemKey(user, item)) > 0)
                     && c.items[item].price * quantity <= s.accounts[user].balance)
            && (reply.Fresh? ==>
                  var a, k, cost := s.accounts[user], ItemKey(user, item), c.items[item].price * quantity;
                  && after.accounts == s.accounts[user := Account(a.balance - cost, a.mileage, a.version + 1)]
                  && after.holdings == s.holdings[k := Quantity(s.holdings, k) + quantity]
                  && reply.result == Purchased(item, quantity, Quantity(after.holdings, k), a.balance - cost)
                  && after.log == s.log + [Execution(request, user, PurchasePayload(item, quantity), Completed, cost,
                                                     Some(reply.result))])
            && (!reply.Fresh? ==> after == s)
  {
    NewCommand(c, s, Purchase(user, request, item, quantity));
    if item in c.items {
      CostSign(c.items[item].price, quantity);
    }
    hide Step, Find;
  }

  /** Why a purchase is refused: the first of the reasons. */
  lemma {:induction false} PurchaseRefusals(c: Catalog, s: State, user: int, request: int, item: string, quantity: int)
    requires user in s.accounts && Find(s.log, request).None?
    ensures var (after, reply) := Step(c, s, Purchase(user, request, item, quantity));
            !reply.Fresh? ==>
              reply == Failed(
                if quantity <= 0 then InvalidQuantity
                else if item !in c.items then ItemNotFound
                else if c.items[item].category == Wallpaper && Quantity(s.holdings, ItemKey(user, item)) > 0
                then AlreadyOwned
                else if s.accounts[user].balance < c.items[item].price * quantity then InsufficientBalance
                else NegativeCost)
  {
    if quantity > 0 {
      NewCommand(c, s, Purchase(user, request, item, quantity));
      hide Step, Find;
    }
  }

  // ----- Consumption -----

  /**
   Consuming goes through exactly when the item is a consumable with an effect, the cat exists and is
   the user's, and the user has one left. Then one of the item is gone, and nothing else changes.
   */
  lemma {:induction false} ConsumeExactly(c: Catalog, s: State, user: int, request: int, item: string, cat: string)
    requires Sound(s) && user in s.accounts && Find(s.log, request).None?
    ensures var (after, reply) := Step(c, s, Consume(user, request, item, cat));
            var k := ItemKey(user, item);
            && (reply.Fresh?
                <==> && item in c.items && c.items[item].category == Consumable && c.items[item].effect.Some?
                     && cat in c.cats && CatKey(user, cat) in s.holdings && Quantity(s.holdings, k) >= 1)
            && (reply.Fresh? ==>
                  && after.accounts == s.accounts[user := s.accounts[user].(version := s.accounts[user].version + 1)]
                  && Quantity(after.holdings, k) == Quantity(s.holdings, k) - 1
                  && (k in after.holdings <==> Quantity(s.holdings, k) >= 2)
                  && (forall other :: other != k ==>
                        (other in after.holdings <==> other in s.holdings)
                        && Quantity(after.holdings, other) == Quantity(s.holdings, other))
                  && reply.result == Consumed(item, cat, c.items[item].effect.value, Quantity(s.holdings, k) - 1)
                  && after.log == s.log + [Execution(request, user, ConsumePayload(item, cat), Completed, 0,
                                                     Some(reply.result))])
            && (!reply.Fresh? ==> after == s)
  {
    NewCommand(c, s, Consume(user, request, item, cat));
    hide Step, Find, AccountsOk, LogOk;
  }

  // ----- The cat draw -----

  /**
   A cat draw of one or eleven goes through exactly when its cost is not negative and no more than the
   balance, and the policy answered with as many known cats, none with a negative mileage. Then the
   balance falls by the cost and the mileage rises by what the repeats brought.
   */
  lemma {:induction false} CatDrawExactly(c: Catalog, s: State, user: int, request: int, count: int, cost: int,
                                          policy: seq<PolicyReward>)
    requires user in s.accounts && (count == 1 || count == 11) && Find(s.log, request).None?
    ensures var (after, reply) := Step(c, s, DrawCats(user, request, count, cost, policy));
            && (reply.Fresh?
                <==> && 0 <= cost <= s.accounts[user].balance && |policy| == count
                     && (forall i :: 0 <= i < |policy| ==> policy[i].duplicateMileage >= 0 && policy[i].cat in c.cats))
            && (reply.Fresh? ==>
                  && reply.result.CatsDrawn? && |reply.result.draws| == count
                  && user in after.accounts
                  && after.accounts[user].balance == s.accounts[user].balance - cost == reply.result.balance
                  && after.accounts[user].mileage == s.accounts[user].mileage + MileageOf(reply.result.draws)
                  && reply.result.bonusDraws == (if count == 1 then 0 else 1) && reply.result.cost == cost
                  && (forall u :: u in s.accounts && u != user ==>
                        u in after.accounts && after.accounts[u] == s.accounts[u])
                  && (forall i :: 0 <= i < count ==> reply.result.draws[i].cat == policy[i].cat)
                  && after.log == s.log + [Execution(request, user, CatDrawPayload(count), Completed, cost,
                                                     Some(reply.result))])
            && (!reply.Fresh? ==> after == s)
  {
    NewCommand(c, s, DrawCats(user, request, count, cost, policy));
    GrantsAreEffects(s.holdings, s.accounts[user].mileage, user, policy);
    GrantedAsAsked(s.holdings, s.accounts[user].mileage, user, policy);
    hide Step, Find, GrantCats, MileageOf, WithCats;
  }

  lemma {:induction false} GrantedAsAsked(h: Holdings, mileage: int, user: int, policy: seq<PolicyReward>)
    ensures var draws := GrantCats(h, mileage, user, policy).2;
            |draws| == |policy| && forall i :: 0 <= i < |policy| ==> draws[i].cat == policy[i].cat
  {
    if policy != [] {
      GrantedAsAsked(h, mileage, user, policy[..|policy| - 1]);
    }
  }

  // ----- The game draw -----

  /** The reward whose share of the chances the value falls in, as it is handed out. */
  ghost predicate DrawnFor(pool: seq<Reward>, value: real, given: GameReward) {
    exists i :: 0 <= i < |pool| && Total(pool[..i]) <= Clamp(value) < Total(pool[..i + 1])
                && (if pool[i].isCat then given.CatReward? && given.cat == pool[i].key
                    else given == FurnitureReward(pool[i].key))
  }

  lemma {:induction false} ChosenReward(c: Catalog, values: seq<real>, i: nat)
    requires AllGroupsFilled(c.furniture)
    ensures exists k :: 0 <= k < |c.Pool()| && c.Pool()[k] == RewardAt(c, values, i)
                        && Total(c.Pool()[..k]) <= Clamp(RandomAt(values, i)) < Total(c.Pool()[..k + 1])
  {
    ChancesAddUp(c.furniture);
    var pool, v := c.Pool(), Clamp(RandomAt(values, i));
    ClampRange(RandomAt(values, i));
    var k := Choice(pool, v);
    ChosenExactly(pool, v, k);
    hide Total, Choice, BuildRewards, Positive, AllGroupsFilled, Clamp;
  }

  lemma {:induction false} ClampRange(value: real)
    ensures 0.0 <= Clamp(value) < 1.0
    ensures 0.0 <= value <= 0.999_999_999 ==> Clamp(value) == value
  {
  }

  lemma {:induction false} OneGiven(c: Catalog, d: Draws, user: int, values: seq<real>, i: nat)
    requires AllGroupsFilled(c.furniture) && d.Drawn?
    ensures var after := DrawOne(c, d, user, RewardAt(c, values, i));
            after.Drawn? ==>
              && |after.rewards| == |d.rewards| + 1 && after.rewards[..|d.rewards|] == d.rewards
              && DrawnFor(c.Pool(), RandomAt(values, i), after.rewards[|d.rewards|])
  {
    ChosenReward(c, values, i);
    hide RewardAt, Total, AllGroupsFilled, Catalog.Pool, Clamp;
  }

  lemma {:induction false} ManyGiven(c: Catalog, balance: int, h: Holdings, user: int, values: seq<real>, n: nat)
    requires AllGroupsFilled(c.furniture)
    ensures var d := DrawMany(c, balance, h, user, values, n);
            d.Drawn? ==>
              |d.rewards| == n && forall i :: 0 <= i < n ==> DrawnFor(c.Pool(), RandomAt(values, i), d.rewards[i])
  {
    hide *;
    if n == 0 {
      NoDraws(c, balance, h, user, values);
    } else {
      DrawManyStep(c, balance, h, user, values, n);
      ManyGiven(c, balance, h, user, values, n - 1);
      var before := DrawMany(c, balance, h, user, values, n - 1);
      if before.Drawn? {
        OneGiven(c, before, user, values, n - 1);
        var after := DrawOne(c, before, user, RewardAt(c, values, n - 1));
        if after.Drawn? {
          forall i | 0 <= i < n
            ensures DrawnFor(c.Pool(), RandomAt(values, i), after.rewards[i])
          {
            if i < n - 1 {
              assert after.rewards[i] == after.rewards[..n - 1][i];
            }
          }
        }
      }
    }
  }

  /** The catalogue has every reward of the pool. */
  ghost predicate PoolInCatalogue(c: Catalog) {
    forall r :: r in c.Pool() ==> if r.isCat then r.key in c.cats else r.key in c.items
  }

  lemma {:induction false} NoDrawFails(c: Catalog, balance: int, h: Holdings, user: int, values: seq<real>, n: nat)
    requires PoolInCatalogue(c)
    ensures DrawMany(c, balance, h, user, values, n).Drawn?
  {
    hide BuildRewards, Choice, Clamp;
    if n > 0 {
      NoDrawFails(c, balance, h, user, values, n - 1);
      assert RewardAt(c, values, n - 1) in c.Pool();
    }
  }

  /**
   With every reward in the catalogue a game draw goes through exactly when the balance covers its cost:
   30 for one, 300 for eleven. Draw i gives the reward in whose share of the chances the i-th random
   value falls; every cat that was owned before, or drawn earlier in the same draw, gives 15 coins back.
   */
  lemma {:induction false} GameDrawExactly(c: Catalog, s: State, user: int, request: int, count: int, values: seq<real>)
    requires Sound(s) && user in s.accounts && (count == 1 || count == 11) && Find(s.log, request).None?
    requires AllGroupsFilled(c.furniture) && PoolInCatalogue(c)
    ensures var (after, reply) := Step(c, s, DrawGame(user, request, count, values));
            var cost := if count == 1 then 30 else 300;
            && (reply.Fresh? <==> s.accounts[user].balance >= cost)
            && (reply.Fresh? ==>
                  && reply.result.GameDrawn? && |reply.result.rewards| == count && user in after.accounts
                  && (forall i :: 0 <= i < count ==>
                        DrawnFor(c.Pool(), RandomAt(values, i), reply.result.rewards[i]))
                  && DrawsExact(s.holdings, user, reply.result.rewards, after.holdings)
                  && after.accounts[user].balance == reply.result.balance
                  && reply.result.balance
                     == s.accounts[user].balance - cost + 15 * Repeats(s.holdings, user, reply.result.rewards, count)
                  && after.log == s.log + [Execution(request, user, GameDrawPayload(count), Completed, cost,
                                                     Some(reply.result))])
            && (!reply.Fresh? ==> after == s)
  {
    NewCommand(c, s, DrawGame(user, request, count, values));
    DrawsSucceed(c, s.accounts[user].balance - GameCost(count), s.holdings, user, values, count);
    hide Step, Find, DrawMany, DrawsExact, Sound, Repeats, RefundOf, DrawnFor, AllGroupsFilled, PoolInCatalogue;
  }

  lemma {:induction false} DrawsSucceed(c: Catalog, balance: int, h: Holdings, user: int, values: seq<real>, n: nat)
    requires AllGroupsFilled(c.furniture) && PoolInCatalogue(c)
    ensures var d := DrawMany(c, balance, h, user, values, n);
            && d.Drawn? && |d.rewards| == n && DrawsExact(h, user, d.rewards, d.holdings)
            && (forall i :: 0 <= i < n ==> DrawnFor(c.Pool(), RandomAt(values, i), d.rewards[i]))
            && d.balance == balance + 15 * Repeats(h, user, d.rewards, n)
  {
    hide *;
    NoDrawFails(c, balance, h, user, values, n);
    ManyGiven(c, balance, h, user, values, n);
    DrawsAddUp(c, balance, h, user, values, n);
  }

  // ----- What a run has logged -----

  /** The cost and the gain of a logged execution are those of its request. */
  ghost predicate Priced(c: Catalog, e: Execution) {
    && e.result.Some?
    && match e.payload
       case PurchasePayload(item, quantity) =>
         && quantity > 0 && item in c.items && e.cost == c.items[item].price * quantity
         && e.result.value.Purchased? && e.result.value.item == item && e.result.value.quantity == quantity
       case CatDrawPayload(count) =>
         && (count == 1 || count == 11) && e.result.value.CatsDrawn? && |e.result.value.draws| == count
         && e.result.value.cost == e.cost
       case GameDrawPayload(count) =>
         && (count == 1 || count == 11) && e.result.value.GameDrawn? && |e.result.value.rewards| == count
         && e.cost == if count == 1 then 30 else 300
       case ConsumePayload(item, cat) =>
         && e.cost == 0 && e.result.value.Consumed? && e.result.value.item == item && e.result.value.cat == cat
  }

  lemma {:induction false} OutcomeIsPriced(c: Catalog, a: Account, h: Holdings, cmd: Command)
    requires ValidRequest(cmd) && OutcomeOf(c, a, h, cmd).Accepted?
    ensures var o := OutcomeOf(c, a, h, cmd);
            Priced(c, Execution(cmd.request, cmd.user, PayloadOf(cmd), Completed, o.cost, Some(o.result)))
  {
    hide GrantCats, DrawMany, AddItem, TakeItem;
    match cmd
    case Purchase(_, _, _, _) =>
    case DrawCats(user, _, _, _, policy) => GrantedAsAsked(h, a.mileage, user, policy);
    case DrawGame(user, _, count, values) => DrawsAreEffects(c, a.balance - GameCost(count), h, user, values, count);
    case Consume(_, _, _, _) =>
  }

  lemma {:induction false} RecordIsPriced(c: Catalog, s: State, cmd: Command)
    requires Step(c, s, cmd).1.Fresh?
    ensures Priced(c, RecordOf(c, s, cmd))
  {
    FreshIsAccepted(c, s, cmd);
    OutcomeIsPriced(c, s.accounts[cmd.user], s.holdings, cmd);
    hide Step, OutcomeOf, Priced, ValidRequest, PayloadOf;
  }

  lemma {:induction false} FreshIsAccepted(c: Catalog, s: State, cmd: Command)
    requires Step(c, s, cmd).1.Fresh?
    ensures ValidRequest(cmd) && cmd.user in s.accounts
    ensures OutcomeOf(c, s.accounts[cmd.user], s.holdings, cmd).Accepted?
  {
    hide OutcomeOf;
  }

  /**
   Every execution that a run has logged is priced as its request says: a purchase costs the price times
   the quantity it brought, a game draw 30 or 300 for one or eleven rewards, consumption nothing.
   */
  lemma {:induction false} LoggedIsPriced(c: Catalog, s: State, events: seq<Event>, k: nat)
    requires k < |Journal(c, s, events)| && Journal(c, s, events)[k].Executed?
    ensures Priced(c, Journal(c, s, events)[k].e)
  {
    var n := |events| - 1;
    var before := Run(c, s, events[..n]);
    if k < |Journal(c, s, events[..n])| {
      LoggedIsPriced(c, s, events[..n], k);
    } else {
      RecordIsPriced(c, before, events[n].cmd);
    }
    hide Step, RecordOf, Priced, Run;
  }
}
