/**
 The economy commands on plain maps: purchase, the two draws and consumption, after
 app/modules/shop/service.py, app/modules/shop/consumables.py, app/modules/gacha/service.py and
 app/modules/game/gacha.py. Each committed transaction is one atomic step; an error changes nothing.
 */
module Ledger {
  import opened Common
  import opened Rewards

  // ----- Data -----

  datatype Category = Wallpaper | Floor | FurnitureItem | Consumable | OtherItem

  datatype ItemInfo = ItemInfo(category: Category, price: int, effect: Option<string>)

  /** The seeded catalogue; public ids, row ids and catalogue keys are one key here. */
  datatype Catalog = Catalog(items: map<string, ItemInfo>, cats: set<string>, furniture: seq<Furniture>) {

    function Pool(): seq<Reward> {
      BuildRewards(furniture)
    }
  }

  datatype Account = Account(balance: int, mileage: int, version: nat)

  /** An asset row is either a cat or an item of one user. */
  datatype Key = CatKey(user: int, cat: string) | ItemKey(owner: int, item: string)

  type Holdings = map<Key, nat>

  /** The request hash covers the operation type and the payload; it is taken to be injective. */
  datatype Payload =
    | PurchasePayload(item: string, quantity: int)
    | CatDrawPayload(drawCount: int)
    | GameDrawPayload(gameDrawCount: int)
    | ConsumePayload(consumed: string, cat: string)

  datatype CatDraw = CatDraw(cat: string, duplicate: bool, mileageAwarded: int)

  datatype GameReward =
    | CatReward(cat: string, duplicate: bool, exchangeCoins: int)
    | FurnitureReward(item: string)

  datatype Result =
    | Purchased(item: string, quantity: int, total: nat, balance: int)
    | CatsDrawn(drawCount: int, bonusDraws: int, cost: int, balance: int, mileage: int, draws: seq<CatDraw>)
    | GameDrawn(rewards: seq<GameReward>, balance: int)
    | Consumed(item: string, cat: string, effect: string, remaining: nat)

  datatype Status = Acquired | Completed

  datatype Execution = Execution(request: int, user: int, payload: Payload, status: Status, cost: int,
                                 result: Option<Result>)

  /** What the tables hold, with assets as a plain map. */
  datatype State = State(accounts: map<int, Account>, holdings: Holdings, log: seq<Execution>)

  datatype Error =
    | InvalidQuantity
    | UserNotFound
    | IdempotencyConflict
    | NoResultData
    | ItemNotFound
    | AlreadyOwned
    | InsufficientBalance
    | NegativeCost
    | PolicyError
    | CatNotFound
    | NotConsumable
    | NotOwned

  datatype Reply = Failed(error: Error) | Replayed(stored: Result) | Fresh(result: Result)

  datatype PolicyReward = PolicyReward(cat: string, duplicateMileage: int)

  datatype Command =
    | Purchase(user: int, request: int, item: string, quantity: int)
    | DrawCats(user: int, request: int, drawCount: int, cost: int, policy: seq<PolicyReward>)
    | DrawGame(user: int, request: int, drawCount: int, values: seq<real>)
    | Consume(user: int, request: int, item: string, cat: string)

  function PayloadOf(c: Command): Payload {
    match c
    case Purchase(_, _, item, quantity) => PurchasePayload(item, quantity)
    case DrawCats(_, _, count, _, _) => CatDrawPayload(count)
    case DrawGame(_, _, count, _) => GameDrawPayload(count)
    case Consume(_, _, item, cat) => ConsumePayload(item, cat)
  }

  // ----- Idempotency -----

  function Find(log: seq<Execution>, request: int): (r: Option<nat>)
    ensures r.Some? ==> r.value < |log| && log[r.value].request == request
    ensures r.None? ==> forall i :: 0 <= i < |log| ==> log[i].request != request
  {
    if log == [] then None
    else if log[|log| - 1].request == request then Some(|log| - 1)
    else Find(log[..|log| - 1], request)
  }

  datatype Claim = NewClaim | Conflict | Stored(result: Option<Result>)

  /** An execution that was never completed may be taken over by the same request. */
  function ClaimOf(log: seq<Execution>, user: int, request: int, payload: Payload): Claim {
    var found := Find(log, request);
    if found.None? then NewClaim
    else
      var e := log[found.value];
      if e.user != user || e.payload != payload then Conflict
      else if e.status == Completed then Stored(e.result)
      else NewClaim
  }

  /** The log with the claimed execution completed. */
  function Settle(log: seq<Execution>, e: Execution): seq<Execution> {
    var found := Find(log, e.request);
    if found.None? then log + [e] else log[found.value := e]
  }

  // ----- Assets -----

  function Quantity(h: Holdings, k: Key): nat {
    if k in h then h[k] else 0
  }

  function AddItem(h: Holdings, k: Key, quantity: nat): Holdings {
    h[k := Quantity(h, k) + quantity]
  }

  function TakeItem(h: Holdings, k: Key): Holdings
    requires k in h && h[k] >= 1
  {
    if h[k] == 1 then h - {k} else h[k := h[k] - 1]
  }

  // ----- Commands -----

  /** The part of a command that spends and gives: the account, the holdings, the cost and the stored result. */
  datatype Outcome = Rejected(error: Error) | Accepted(account: Account, holdings: Holdings, cost: int, result: Result)

  function PurchaseOutcome(c: Catalog, a: Account, h: Holdings, user: int, item: string, quantity: int): Outcome
    requires quantity > 0
  {
    if item !in c.items then Rejected(ItemNotFound)
    else
      var info, k := c.items[item], ItemKey(user, item);
      var cost := info.price * quantity;
      if info.category == Wallpaper && Quantity(h, k) > 0 then Rejected(AlreadyOwned)
      else if a.balance < cost then Rejected(InsufficientBalance)
      else if cost < 0 then Rejected(NegativeCost)
      else
        var after := AddItem(h, k, quantity);
        Accepted(a.(balance := a.balance - cost), after, cost, Purchased(item, quantity, after[k], a.balance - cost))
  }

  /** Draws the policy's cats one after another: new ones are granted, repeats give mileage. */
  function GrantCats(h: Holdings, mileage: int, user: int, policy: seq<PolicyReward>): (Holdings, int, seq<CatDraw>) {
    if policy == [] then (h, mileage, [])
    else
      var (before, earned, draws) := GrantCats(h, mileage, user, policy[..|policy| - 1]);
      var p := policy[|policy| - 1];
      if CatKey(user, p.cat) in before then
        (before, earned + p.duplicateMileage, draws + [CatDraw(p.cat, true, p.duplicateMileage)])
      else
        (before[CatKey(user, p.cat) := 1], earned, draws + [CatDraw(p.cat, false, 0)])
  }

  function DrawCatsOutcome(c: Catalog, a: Account, h: Holdings, user: int, drawCount: int, cost: int,
                           policy: seq<PolicyReward>): Outcome {
    if cost < 0 then Rejected(PolicyError)
    else if a.balance < cost then Rejected(InsufficientBalance)
    else if exists i :: 0 <= i < |policy| && policy[i].duplicateMileage < 0 then Rejected(PolicyError)
    else if |policy| != drawCount then Rejected(PolicyError)
    else if exists i :: 0 <= i < |policy| && policy[i].cat !in c.cats then Rejected(CatNotFound)
    else
      var (after, mileage, draws) := GrantCats(h, a.mileage, user, policy);
      Accepted(a.(balance := a.balance - cost, mileage := mileage), after, cost,
               CatsDrawn(drawCount, if drawCount == 11 then 1 else 0, cost, a.balance - cost, mileage, draws))
  }

  const DUPLICATE_CAT_COINS: int := 15

  function GameCost(drawCount: int): int {
    if drawCount == 1 then 30 else 300
  }

  function RandomAt(values: seq<real>, i: nat): real {
    if i < |values| then values[i] else 0.0
  }

  function RewardAt(c: Catalog, values: seq<real>, i: nat): Reward {
    var pool := c.Pool();
    pool[Choice(pool, Clamp(RandomAt(values, i)))]
  }

  datatype Draws = DrawError(error: Error) | Drawn(balance: int, holdings: Holdings, rewards: seq<GameReward>)

  /** One draw: a new cat is granted, a repeated cat refunds coins, furniture is added. */
  function DrawOne(c: Catalog, d: Draws, user: int, reward: Reward): Draws
    requires d.Drawn?
  {
    if reward.isCat then
      if reward.key !in c.cats then DrawError(CatNotFound)
      else if CatKey(user, reward.key) in d.holdings then
        Drawn(d.balance + DUPLICATE_CAT_COINS, d.holdings, d.rewards
            + [CatReward(reward.key, true, DUPLICATE_CAT_COINS)])
      else
        Drawn(d.balance, d.holdings[CatKey(user, reward.key) := 1], d.rewards + [CatReward(reward.key, false, 0)])
    else if reward.key !in c.items then DrawError(ItemNotFound)
    else Drawn(d.balance, AddItem(d.holdings, ItemKey(user, reward.key), 1), d.rewards + [FurnitureReward(reward.key)])
  }

  function DrawMany(c: Catalog, balance: int, h: Holdings, user: int, values: seq<real>, n: nat): Draws {
    if n == 0 then Drawn(balance, h, [])
    else
      var before := DrawMany(c, balance, h, user, values, n - 1);
      if before.DrawError? then before else DrawOne(c, before, user, RewardAt(c, values, n - 1))
  }

  lemma {:induction false} DrawManyStep(c: Catalog, balance: int, h: Holdings, user: int, values: seq<real>, n: nat)
    requires n > 0
    ensures DrawMany(c, balance, h, user, values, n)
            == var before := DrawMany(c, balance, h, user, values, n - 1);
               if before.DrawError? then before else DrawOne(c, before, user, RewardAt(c, values, n - 1))
  {
  }

  function DrawGameOutcome(c: Catalog, a: Account, h: Holdings, user: int, drawCount: nat, values: seq<real>): Outcome {
    var cost := GameCost(drawCount);
    if a.balance < cost then Rejected(InsufficientBalance)
    else
      var d := DrawMany(c, a.balance - cost, h, user, values, drawCount);
      if d.DrawError? then Rejected(d.error)
      else Accepted(a.(balance := d.balance), d.holdings, cost, GameDrawn(d.rewards, d.balance))
  }

  function ConsumeOutcome(c: Catalog, a: Account, h: Holdings, user: int, item: string, cat: string): Outcome {
    if item !in c.items then Rejected(ItemNotFound)
    else
      var info, k := c.items[item], ItemKey(user, item);
      if info.category != Consumable || info.effect.None? then Rejected(NotConsumable)
      else if cat !in c.cats || CatKey(user, cat) !in h then Rejected(CatNotFound)
      else if k !in h || h[k] == 0 then Rejected(NotOwned)
      else Accepted(a, TakeItem(h, k), 0, Consumed(item, cat, info.effect.value, h[k] - 1))
  }

  /** Quantities are checked before the transaction starts. */
  predicate ValidRequest(cmd: Command) {
    match cmd
    case Purchase(_, _, _, quantity) => quantity > 0
    case DrawCats(_, _, count, _, _) => count == 1 || count == 11
    case DrawGame(_, _, count, _) => count == 1 || count == 11
    case Consume(_, _, _, _) => true
  }

  function OutcomeOf(c: Catalog, a: Account, h: Holdings, cmd: Command): Outcome
    requires ValidRequest(cmd)
  {
    match cmd
    case Purchase(user, _, item, quantity) => PurchaseOutcome(c, a, h, user, item, quantity)
    case DrawCats(user, _, count, cost, policy) => DrawCatsOutcome(c, a, h, user, count, cost, policy)
    case DrawGame(user, _, count, values) => DrawGameOutcome(c, a, h, user, count, values)
    case Consume(user, _, item, cat) => ConsumeOutcome(c, a, h, user, item, cat)
  }

  function Step(c: Catalog, s: State, cmd: Command): (State, Reply) {
    if !ValidRequest(cmd) then (s, Failed(InvalidQuantity))
    else if cmd.user !in s.accounts then (s, Failed(UserNotFound))
    else
      match ClaimOf(s.log, cmd.user, cmd.request, PayloadOf(cmd))
      case Conflict => (s, Failed(IdempotencyConflict))
      case Stored(result) => (s, if result.None? then Failed(NoResultData) else Replayed(result.value))
      case NewClaim =>
        var a := s.accounts[cmd.user];
        match OutcomeOf(c, a, s.holdings, cmd)
        case Rejected(error) => (s, Failed(error))
        case Accepted(after, holdings, cost, result) =>
          var e := Execution(cmd.request, cmd.user, PayloadOf(cmd), Completed, cost, Some(result));
          (State(s.accounts[cmd.user := after.(version := after.version + 1)], holdings, Settle(s.log, e)),
           Fresh(result))
  }

  /** A valid command of a known user under a new claim does what its outcome says. */
  lemma {:induction false} StepOf(c: Catalog, s: State, cmd: Command)
    requires ValidRequest(cmd) && cmd.user in s.accounts
    requires ClaimOf(s.log, cmd.user, cmd.request, PayloadOf(cmd)).NewClaim?
    ensures Step(c, s, cmd)
            == match OutcomeOf(c, s.accounts[cmd.user], s.holdings, cmd)
               case Rejected(error) => (s, Failed(error))
               case Accepted(after, holdings, cost, result) =>
                 (State(s.accounts[cmd.user := after.(version := after.version + 1)], holdings,
                        Settle(s.log, Execution(cmd.request, cmd.user, PayloadOf(cmd), Completed, cost, Some(result)))),
                            Fresh(result))
  {
  }

  /** Any other command changes nothing. */
  lemma {:induction false} StepStops(c: Catalog, s: State, cmd: Command)
    requires !(ValidRequest(cmd) && cmd.user in s.accounts
             && ClaimOf(s.log, cmd.user, cmd.request, PayloadOf(cmd)).NewClaim?)
    ensures Step(c, s, cmd).0 == s && !Step(c, s, cmd).1.Fresh?
    ensures ClaimOf(s.log, cmd.user, cmd.request, PayloadOf(cmd)) != Stored(None) ==>
            Step(c, s, cmd).1 != Failed(NoResultData)
  {
  }
}
