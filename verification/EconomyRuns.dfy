/** Runs of economy commands: the tables are the fold of the completed executions, each executed exactly once. */
module EconomyRuns {
  import opened Common
  import opened Rewards
  import opened Ledger

  // ----- The fold of recorded executions -----

  /** The tables without the log. */
  datatype Tables = Tables(accounts: map<int, Account>, holdings: Holdings)

  function MileageOf(draws: seq<CatDraw>): int {
    if draws == [] then 0 else MileageOf(draws[..|draws| - 1]) + draws[|draws| - 1].mileageAwarded
  }

  function WithCats(h: Holdings, user: int, draws: seq<CatDraw>): Holdings {
    if draws == [] then h
    else
      var before, d := WithCats(h, user, draws[..|draws| - 1]), draws[|draws| - 1];
      if d.duplicate then before else before[CatKey(user, d.cat) := 1]
  }

  function RefundOf(rewards: seq<GameReward>): int {
    if rewards == [] then 0
    else
      var r := rewards[|rewards| - 1];
      RefundOf(rewards[..|rewards| - 1]) + if r.CatReward? then r.exchangeCoins else 0
  }

  function WithRewards(h: Holdings, user: int, rewards: seq<GameReward>): Holdings {
    if rewards == [] then h
    else
      var before := WithRewards(h, user, rewards[..|rewards| - 1]);
      match rewards[|rewards| - 1]
      case CatReward(cat, duplicate, _) => if duplicate then before else before[CatKey(user, cat) := 1]
      case FurnitureReward(item) => AddItem(before, ItemKey(user, item), 1)
  }

  /** Coins back from an execution. */
  function Refund(r: Result): int {
    if r.GameDrawn? then RefundOf(r.rewards) else 0
  }

  function Mileage(r: Result): int {
    if r.CatsDrawn? then MileageOf(r.draws) else 0
  }

  function WithResult(h: Holdings, user: int, r: Result): Holdings {
    match r
    case Purchased(item, quantity, _, _) => if quantity > 0 then AddItem(h, ItemKey(user, item), quantity) else h
    case CatsDrawn(_, _, _, _, _, draws) => WithCats(h, user, draws)
    case GameDrawn(rewards, _) => WithRewards(h, user, rewards)
    case Consumed(item, _, _, _) =>
        if Quantity(h, ItemKey(user, item)) >= 1 then TakeItem(h, ItemKey(user, item)) else h
  }

  /** The effect of one recorded execution, from its stored cost and result alone. */
  function Effect(t: Tables, e: Execution): Tables
    requires e.result.Some?
  {
    if e.user !in t.accounts then t
    else
      var a, r := t.accounts[e.user], e.result.value;
      Tables(t.accounts[e.user := Account(a.balance - e.cost + Refund(r), a.mileage + Mileage(r), a.version + 1)],
             WithResult(t.holdings, e.user, r))
  }

  // ----- Each command is the effect of the execution it records -----

  lemma {:induction false} GrantsAreEffects(h: Holdings, mileage: int, user: int, policy: seq<PolicyReward>)
    ensures GrantCats(h, mileage, user, policy).0 == WithCats(h, user, GrantCats(h, mileage, user, policy).2)
    ensures GrantCats(h, mileage, user, policy).1 == mileage + MileageOf(GrantCats(h, mileage, user, policy).2)
  {
    if policy != [] {
      var earlier := GrantCats(h, mileage, user, policy[..|policy| - 1]);
      var all := GrantCats(h, mileage, user, policy);
      GrantsAreEffects(h, mileage, user, policy[..|policy| - 1]);
      assert all.2[..|all.2| - 1] == earlier.2;
    }
  }

  /** The rewards drawn so far account for the balance and the holdings. */
  ghost predicate DrawsApplied(d: Draws, balance: int, h: Holdings, user: int)
    requires d.Drawn?
  {
    d.balance == balance + RefundOf(d.rewards) && d.holdings == WithRewards(h, user, d.rewards)
  }

  lemma {:induction false} DrawIsEffect(c: Catalog, d: Draws, balance: int, h: Holdings, user: int, reward: Reward)
    requires d.Drawn? && DrawsApplied(d, balance, h, user)
    ensures var after := DrawOne(c, d, user, reward);
            after.Drawn? ==> DrawsApplied(after, balance, h, user) && |after.rewards| == |d.rewards| + 1
  {
  }

  lemma {:induction false} NoDraws(c: Catalog, balance: int, h: Holdings, user: int, values: seq<real>)
    ensures DrawMany(c, balance, h, user, values, 0) == Drawn(balance, h, [])
    ensures DrawsApplied(DrawMany(c, balance, h, user, values, 0), balance, h, user)
    ensures DrawsExact(h, user, [], h)
  {
  }

  lemma {:induction false} DrawsAreEffects(c: Catalog, balance: int, h: Holdings, user: int, values: seq<real>, n: nat)
    ensures var d := DrawMany(c, balance, h, user, values, n);
            d.Drawn? ==> DrawsApplied(d, balance, h, user) && |d.rewards| == n
  {
    hide *;
    if n == 0 {
      NoDraws(c, balance, h, user, values);
    } else {
      DrawManyStep(c, balance, h, user, values, n);
      DrawsAreEffects(c, balance, h, user, values, n - 1);
      var before := DrawMany(c, balance, h, user, values, n - 1);
      if before.Drawn? {
        DrawIsEffect(c, before, balance, h, user, RewardAt(c, values, n - 1));
      }
    }
  }

  lemma {:induction false} OutcomeIsEffect(c: Catalog, a: Account, h: Holdings, cmd: Command)
    requires ValidRequest(cmd)
    ensures var o := OutcomeOf(c, a, h, cmd);
            o.Accepted? ==>
              && o.account == a.(balance := a.balance - o.cost + Refund(o.result),
                                   mileage := a.mileage + Mileage(o.result))
              && o.holdings == WithResult(h, cmd.user, o.result)
              && o.cost >= 0
  {
    hide GrantCats, DrawMany, WithRewards, WithCats, RefundOf, MileageOf;
    match cmd
    case Purchase(user, _, item, quantity) =>
    case DrawCats(user, _, count, cost, policy) => GrantsAreEffects(h, a.mileage, user, policy);
    case DrawGame(user, _, count, values) => DrawsAreEffects(c, a.balance - GameCost(count), h, user, values, count);
    case Consume(user, _, item, cat) =>
  }

  // ----- The invariant -----

  ghost predicate AccountsOk(accounts: map<int, Account>) {
    forall user :: user in accounts ==> accounts[user].balance >= 0 && accounts[user].mileage >= 0
  }

  ghost predicate HoldingsOk(h: Holdings) {
    forall k :: k in h ==> h[k] >= 1 && (k.CatKey? ==> h[k] == 1)
  }

  /** Request ids are distinct, and everything committed is completed with a result. */
  ghost predicate LogOk(log: seq<Execution>) {
    && (forall i, j :: 0 <= i < j < |log| ==> log[i].request != log[j].request)
    && (forall i :: 0 <= i < |log| ==> log[i].status == Completed && log[i].result.Some? && log[i].cost >= 0)
  }

  ghost predicate Sound(s: State) {
    AccountsOk(s.accounts) && HoldingsOk(s.holdings) && LogOk(s.log)
  }

  lemma {:induction false} GrantsKeep(h: Holdings, mileage: int, user: int, policy: seq<PolicyReward>)
    requires HoldingsOk(h) && mileage >= 0 && forall i :: 0 <= i < |policy| ==> policy[i].duplicateMileage >= 0
    ensures HoldingsOk(GrantCats(h, mileage, user, policy).0)
    ensures GrantCats(h, mileage, user, policy).1 >= mileage
  {
    if policy != [] {
      GrantsKeep(h, mileage, user, policy[..|policy| - 1]);
    }
  }

  lemma {:induction false} DrawKeeps(c: Catalog, d: Draws, user: int, reward: Reward)
    requires d.Drawn? && HoldingsOk(d.holdings)
    ensures DrawOne(c, d, user, reward).Drawn? ==>
              HoldingsOk(DrawOne(c, d, user, reward).holdings) && DrawOne(c, d, user, reward).balance >= d.balance
  {
  }

  lemma {:induction false} DrawsKeep(c: Catalog, balance: int, h: Holdings, user: int, values: seq<real>, n: nat)
    requires HoldingsOk(h)
    ensures var d := DrawMany(c, balance, h, user, values, n);
            d.Drawn? ==> HoldingsOk(d.holdings) && d.balance >= balance
  {
    hide *;
    if n == 0 {
      NoDraws(c, balance, h, user, values);
    } else {
      DrawManyStep(c, balance, h, user, values, n);
      DrawsKeep(c, balance, h, user, values, n - 1);
      var before := DrawMany(c, balance, h, user, values, n - 1);
      if before.Drawn? {
        DrawKeeps(c, before, user, RewardAt(c, values, n - 1));
      }
    }
  }

  lemma {:induction false} OutcomeKeeps(c: Catalog, a: Account, h: Holdings, cmd: Command)
    requires ValidRequest(cmd) && HoldingsOk(h) && a.balance >= 0 && a.mileage >= 0
    ensures var o := OutcomeOf(c, a, h, cmd);
            o.Accepted? ==> HoldingsOk(o.holdings) && o.account.balance >= 0 && o.account.mileage >= 0
  {
    hide GrantCats, DrawMany;
    match cmd
    case Purchase(user, _, item, quantity) =>
    case DrawCats(user, _, count, cost, policy) =>
      if !exists i :: 0 <= i < |policy| && policy[i].duplicateMileage < 0 {
        GrantsKeep(h, a.mileage, user, policy);
      }
    case DrawGame(user, _, count, values) => DrawsKeep(c, a.balance - GameCost(count), h, user, values, count);
    case Consume(user, _, item, cat) =>
  }

  /** The execution a command that went through has recorded. */
  function RecordOf(c: Catalog, s: State, cmd: Command): Execution
    requires Step(c, s, cmd).1.Fresh?
  {
    var o := OutcomeOf(c, s.accounts[cmd.user], s.holdings, cmd);
    Execution(cmd.request, cmd.user, PayloadOf(cmd), Completed, o.cost, Some(o.result))
  }

  /** A claim is new in a sound log exactly when the request id is: nothing unfinished was ever committed. */
  lemma {:induction false} NewMeansUnknown(log: seq<Execution>, user: int, request: int, payload: Payload)
    requires LogOk(log)
    ensures ClaimOf(log, user, request, payload).NewClaim? <==> Find(log, request).None?
    ensures ClaimOf(log, user, request, payload) != Stored(None)
  {
  }

  lemma {:induction false} SettleNew(log: seq<Execution>, e: Execution)
    requires LogOk(log) && Find(log, e.request).None? && e.status == Completed && e.result.Some? && e.cost >= 0
    ensures Settle(log, e) == log + [e] && LogOk(log + [e])
  {
  }

  lemma {:induction false} AccountKeeps(accounts: map<int, Account>, user: int, a: Account)
    requires AccountsOk(accounts) && a.balance >= 0 && a.mileage >= 0
    ensures AccountsOk(accounts[user := a])
  {
  }

  /** An accepted outcome under a new claim logs one execution and applies its effect. */
  lemma {:induction false} AcceptedIsEffect(c: Catalog, s: State, cmd: Command)
    requires Sound(s) && ValidRequest(cmd) && cmd.user in s.accounts && Find(s.log, cmd.request).None?
    requires ClaimOf(s.log, cmd.user, cmd.request, PayloadOf(cmd)).NewClaim?
    requires OutcomeOf(c, s.accounts[cmd.user], s.holdings, cmd).Accepted?
    ensures Step(c, s, cmd).1.Fresh?
    ensures Sound(Step(c, s, cmd).0)
    ensures Step(c, s, cmd).0.log == s.log + [RecordOf(c, s, cmd)]
    ensures Tables(Step(c, s, cmd).0.accounts, Step(c, s, cmd).0.holdings)
            == Effect(Tables(s.accounts, s.holdings), RecordOf(c, s, cmd))
  {
    StepOf(c, s, cmd);
    OutcomeIsEffect(c, s.accounts[cmd.user], s.holdings, cmd);
    OutcomeKeeps(c, s.accounts[cmd.user], s.holdings, cmd);
    hide Step, OutcomeOf, ClaimOf, WithResult, Refund, Mileage, HoldingsOk, AccountsOk, LogOk, Settle, PayloadOf,
        ValidRequest;
    var o := OutcomeOf(c, s.accounts[cmd.user], s.holdings, cmd);
    SettleNew(s.log, RecordOf(c, s, cmd));
    AccountKeeps(s.accounts, cmd.user, o.account.(version := o.account.version + 1));
  }

  /** One step: it changes nothing and logs nothing, or logs one new execution and applies its effect. */
  lemma {:induction false} StepIsEffect(c: Catalog, s: State, cmd: Command)
    requires Sound(s)
    ensures Sound(Step(c, s, cmd).0)
    ensures !Step(c, s, cmd).1.Fresh? ==> Step(c, s, cmd).0 == s
    ensures Step(c, s, cmd).1.Fresh? ==>
              && Step(c, s, cmd).0.log == s.log + [RecordOf(c, s, cmd)]
              && Tables(Step(c, s, cmd).0.accounts, Step(c, s, cmd).0.holdings)
                == Effect(Tables(s.accounts, s.holdings), RecordOf(c, s, cmd))
    ensures Step(c, s, cmd).1 != Failed(NoResultData)
  {
    SoundLog(s);
    hide *;
    NewMeansUnknown(s.log, cmd.user, cmd.request, PayloadOf(cmd));
    if ValidRequest(cmd) && cmd.user in s.accounts && ClaimOf(s.log, cmd.user, cmd.request, PayloadOf(cmd)).NewClaim? {
      if OutcomeOf(c, s.accounts[cmd.user], s.holdings, cmd).Accepted? {
        AcceptedIsEffect(c, s, cmd);
      } else {
        StepOf(c, s, cmd);
        NoStoredError(c, s.accounts[cmd.user], s.holdings, cmd);
      }
    } else {
      StepStops(c, s, cmd);
    }
  }

  lemma {:induction false} NoStoredError(c: Catalog, a: Account, h: Holdings, cmd: Command)
    requires ValidRequest(cmd)
    ensures OutcomeOf(c, a, h, cmd) != Rejected(NoResultData)
  {
    hide GrantCats, DrawMany;
    match cmd
    case Purchase(_, _, _, _) =>
    case DrawCats(_, _, _, _, _) =>
    case DrawGame(user, _, count, values) => DrawErrors(c, a.balance - GameCost(count), h, user, values, count);
    case Consume(_, _, _, _) =>
  }

  lemma {:induction false} DrawErrors(c: Catalog, balance: int, h: Holdings, user: int, values: seq<real>, n: nat)
    ensures DrawMany(c, balance, h, user, values, n) != DrawError(NoResultData)
  {
    hide RewardAt;
    if n > 0 {
      DrawErrors(c, balance, h, user, values, n - 1);
    }
  }

  // ----- Runs -----

  /** Commands in any interleaving, and coins coming in from elsewhere. */
  datatype Event = Do(cmd: Command) | Credit(user: int, amount: nat)

  function Credited(accounts: map<int, Account>, user: int, amount: nat): map<int, Account> {
    if user in accounts then accounts[user := accounts[user].(balance := accounts[user].balance + amount)] else accounts
  }

  function Next(c: Catalog, s: State, e: Event): State {
    match e
    case Do(cmd) => Step(c, s, cmd).0
    case Credit(user, amount) => s.(accounts := Credited(s.accounts, user, amount))
  }

  function Run(c: Catalog, s: State, events: seq<Event>): State {
    if events == [] then s else Next(c, Run(c, s, events[..|events| - 1]), events[|events| - 1])
  }

  /** What happened, in commit order: executions and incoming coins. */
  datatype Entry = Executed(e: Execution) | Received(user: int, amount: nat)

  function Journal(c: Catalog, s: State, events: seq<Event>): seq<Entry> {
    if events == [] then []
    else
      var earlier, before := Journal(c, s, events[..|events| - 1]), Run(c, s, events[..|events| - 1]);
      match events[|events| - 1]
      case Do(cmd) => if Step(c, before, cmd).1.Fresh? then earlier + [Executed(RecordOf(c, before, cmd))] else earlier
      case Credit(user, amount) => earlier + [Received(user, amount)]
  }

  function Executions(journal: seq<Entry>): seq<Execution> {
    if journal == [] then []
    else
      var last := journal[|journal| - 1];
      Executions(journal[..|journal| - 1]) + if last.Executed? then [last.e] else []
  }

  function Fold(t: Tables, journal: seq<Entry>): Tables {
    if journal == [] then t
    else
      var before := Fold(t, journal[..|journal| - 1]);
      match journal[|journal| - 1]
      case Executed(e) => if e.result.Some? then Effect(before, e) else before
      case Received(user, amount) => before.(accounts := Credited(before.accounts, user, amount))
  }

  lemma {:induction false} FoldAppend(t: Tables, journal: seq<Entry>, entry: Entry)
    ensures Executions(journal + [entry]) == Executions(journal) + if entry.Executed? then [entry.e] else []
    ensures Fold(t, journal + [entry])
            == match entry
               case Executed(e) => if e.result.Some? then Effect(Fold(t, journal), e) else Fold(t, journal)
               case Received(user, amount) =>
                   Fold(t, journal).(accounts := Credited(Fold(t, journal).accounts, user, amount))
  {
  }

  /**
   The tables after any run are the fold of the executions it committed, in commit order, from
   their stored costs and results; the log is exactly these executions; request ids are distinct,
   balances, mileage and quantities stay within bounds, and every execution is completed with a result.
   */
  lemma {:induction false} TablesAreFold(c: Catalog, s: State, events: seq<Event>)
    requires Sound(s)
    ensures Sound(Run(c, s, events))
    ensures Tables(Run(c, s, events).accounts, Run(c, s, events).holdings)
            == Fold(Tables(s.accounts, s.holdings), Journal(c, s, events))
    ensures Run(c, s, events).log == s.log + Executions(Journal(c, s, events))
  {
    if events != [] {
      var earlier, e := events[..|events| - 1], events[|events| - 1];
      TablesAreFold(c, s, earlier);
      var before, journal := Run(c, s, earlier), Journal(c, s, earlier);
      var t := Tables(s.accounts, s.holdings);
      match e
      case Do(cmd) =>
        StepIsEffect(c, before, cmd);
        hide Step, Effect, RecordOf, Sound;
        if Step(c, before, cmd).1.Fresh? {
          FoldAppend(t, journal, Executed(RecordOf(c, before, cmd)));
          RecordHasResult(c, before, cmd);
        }
      case Credit(user, amount) =>
        hide Step, Effect, RecordOf;
        FoldAppend(t, journal, Received(user, amount));
    }
  }

  lemma {:induction false} RecordHasResult(c: Catalog, s: State, cmd: Command)
    requires Step(c, s, cmd).1.Fresh?
    ensures RecordOf(c, s, cmd).result == Some(Step(c, s, cmd).1.result)
    ensures RecordOf(c, s, cmd).request == cmd.request && RecordOf(c, s, cmd).user == cmd.user
    ensures RecordOf(c, s, cmd).payload == PayloadOf(cmd)
    ensures RecordOf(c, s, cmd).status == Completed
  {
  }

  // ----- Exactly once -----

  lemma {:induction false} LogGrows(c: Catalog, s: State, events: seq<Event>)
    requires Sound(s)
    ensures s.log <= Run(c, s, events).log
    ensures s.accounts.Keys <= Run(c, s, events).accounts.Keys
  {
    if events != [] {
      var earlier := events[..|events| - 1];
      LogGrows(c, s, earlier);
      TablesAreFold(c, s, earlier);
      StepGrows(c, Run(c, s, earlier), events[|events| - 1]);
      hide Next;
    }
  }

  lemma {:induction false} StepGrows(c: Catalog, s: State, e: Event)
    requires Sound(s)
    ensures s.log <= Next(c, s, e).log && s.accounts.Keys <= Next(c, s, e).accounts.Keys
  {
  }

  /** The commands ask for the same thing: same user, operation and payload, whatever the random draws. */
  predicate SameRequest(a: Command, b: Command) {
    a.user == b.user && a.request == b.request && PayloadOf(a) == PayloadOf(b)
  }

  /**
   Once a command went through, the same request gives the stored result and changes nothing, after any
   further run.
   */
  lemma {:induction false} ReplayReturnsStored(c: Catalog, s: State, cmd: Command, later: seq<Event>, again: Command)
    requires Sound(s) && Step(c, s, cmd).1.Fresh? && SameRequest(cmd, again)
    ensures Step(c, Run(c, Step(c, s, cmd).0, later), again)
            == (Run(c, Step(c, s, cmd).0, later), Replayed(Step(c, s, cmd).1.result))
  {
    StepIsEffect(c, s, cmd);
    var once := Step(c, s, cmd).0;
    RecordHasResult(c, s, cmd);
    SameValidity(cmd, again);
    UserStays(c, s, cmd);
    var e, result := RecordOf(c, s, cmd), Step(c, s, cmd).1.result;
    hide RecordOf;
    assert once.log[|s.log|] == e;
    LogGrows(c, once, later);
    TablesAreFold(c, once, later);
    var after := Run(c, once, later);
    hide Run, Sound, AccountsOk, HoldingsOk;
    assert LogOk(after.log) by {
      SoundLog(after);
    }
    assert after.log[|s.log|] == e;
    FoundAt(after.log, |s.log|);
  }

  lemma {:induction false} SoundLog(s: State)
    requires Sound(s)
    ensures LogOk(s.log)
  {
  }

  lemma {:induction false} SameValidity(a: Command, b: Command)
    requires SameRequest(a, b)
    ensures ValidRequest(a) <==> ValidRequest(b)
  {
  }

  lemma {:induction false} UserStays(c: Catalog, s: State, cmd: Command)
    requires Step(c, s, cmd).1.Fresh?
    ensures ValidRequest(cmd) && cmd.user in Step(c, s, cmd).0.accounts
  {
  }

  lemma {:induction false} FoundAt(log: seq<Execution>, k: nat)
    requires LogOk(log) && k < |log|
    ensures Find(log, log[k].request) == Some(k)
  {
  }

  /** The same request id with another user, operation or payload is a conflict from then on. */
  lemma {:induction false} OtherRequestConflicts(c: Catalog, s: State, cmd: Command, later: seq<Event>, other: Command)
    requires Sound(s) && Step(c, s, cmd).1.Fresh? && other.request == cmd.request && !SameRequest(cmd, other)
    requires ValidRequest(other) && other.user in Run(c, Step(c, s, cmd).0, later).accounts
    ensures Step(c, Run(c, Step(c, s, cmd).0, later), other)
            == (Run(c, Step(c, s, cmd).0, later), Failed(IdempotencyConflict))
  {
    StepIsEffect(c, s, cmd);
    var once := Step(c, s, cmd).0;
    RecordHasResult(c, s, cmd);
    var e := RecordOf(c, s, cmd);
    hide RecordOf;
    assert once.log[|s.log|] == e;
    LogGrows(c, once, later);
    TablesAreFold(c, once, later);
    var after := Run(c, once, later);
    hide Run, Sound, AccountsOk, HoldingsOk;
    assert LogOk(after.log) by {
      SoundLog(after);
    }
    assert after.log[|s.log|] == e;
    FoundAt(after.log, |s.log|);
  }

  // ----- Conservation of coins -----

  /** The net coins a journal brings one user. */
  function NetCoins(journal: seq<Entry>, user: int): int {
    if journal == [] then 0
    else
      NetCoins(journal[..|journal| - 1], user)
      + match journal[|journal| - 1]
        case Executed(e) => if e.user == user && e.result.Some? then Refund(e.result.value) - e.cost else 0
        case Received(u, amount) => if u == user then amount else 0
  }

  lemma {:induction false} FoldKeepsUsers(t: Tables, journal: seq<Entry>)
    ensures Fold(t, journal).accounts.Keys == t.accounts.Keys
  {
    if journal != [] {
      FoldKeepsUsers(t, journal[..|journal| - 1]);
    }
  }

  lemma {:induction false} FoldBalance(t: Tables, journal: seq<Entry>, user: int)
    requires user in t.accounts
    ensures user in Fold(t, journal).accounts
    ensures Fold(t, journal).accounts[user].balance == t.accounts[user].balance + NetCoins(journal, user)
  {
    FoldKeepsUsers(t, journal);
    if journal != [] {
      FoldKeepsUsers(t, journal[..|journal| - 1]);
      FoldBalance(t, journal[..|journal| - 1], user);
      hide Refund, Mileage, WithResult;
    }
  }

  /** Balances are never out of step with the log: start, plus coins received, minus costs, plus refunds. */
  lemma {:induction false} CoinsAreConserved(c: Catalog, s: State, events: seq<Event>, user: int)
    requires Sound(s) && user in s.accounts
    ensures user in Run(c, s, events).accounts
    ensures Run(c, s, events).accounts[user].balance
            == s.accounts[user].balance + NetCoins(Journal(c, s, events), user) >= 0
  {
    TablesAreFold(c, s, events);
    FoldBalance(Tables(s.accounts, s.holdings), Journal(c, s, events), user);
    hide Run, Journal, Fold, NetCoins, HoldingsOk, LogOk;
  }

  // ----- Conservation of items -----

  function DrawnItems(rewards: seq<GameReward>, item: string): nat {
    if rewards == [] then 0
    else DrawnItems(rewards[..|rewards| - 1], item) + if rewards[|rewards| - 1] == FurnitureReward(item) then 1 else 0
  }

  /** How many of an item an execution brings its user. */
  function ItemsOf(r: Result, item: string): int {
    match r
    case Purchased(bought, quantity, _, _) => if bought == item then quantity else 0
    case CatsDrawn(_, _, _, _, _, _) => 0
    case GameDrawn(rewards, _) => DrawnItems(rewards, item)
    case Consumed(used, _, _, _) => if used == item then -1 else 0
  }

  lemma {:induction false} CatsBringNoItems(h: Holdings, user: int, draws: seq<CatDraw>, k: Key)
    requires k.ItemKey?
    ensures Quantity(WithCats(h, user, draws), k) == Quantity(h, k)
  {
    if draws != [] {
      CatsBringNoItems(h, user, draws[..|draws| - 1], k);
    }
  }

  lemma {:induction false} RewardsBringItems(h: Holdings, user: int, rewards: seq<GameReward>, owner: int, item: string)
    ensures Quantity(WithRewards(h, user, rewards), ItemKey(owner, item))
            == Quantity(h, ItemKey(owner, item)) + if owner == user then DrawnItems(rewards, item) else 0
  {
    if rewards != [] {
      RewardsBringItems(h, user, rewards[..|rewards| - 1], owner, item);
    }
  }

  lemma {:induction false} OutcomeItems(c: Catalog, a: Account, h: Holdings, cmd: Command, owner: int, item: string)
    requires ValidRequest(cmd)
    ensures var o := OutcomeOf(c, a, h, cmd);
            o.Accepted? ==>
              Quantity(o.holdings, ItemKey(owner, item))
              == Quantity(h, ItemKey(owner, item)) + if owner == cmd.user then ItemsOf(o.result, item) else 0
  {
    OutcomeIsEffect(c, a, h, cmd);
    hide GrantCats, DrawMany, WithRewards, WithCats, DrawnItems;
    match cmd
    case Purchase(user, _, _, _) =>
    case DrawCats(user, _, count, cost, policy) =>
      var o := OutcomeOf(c, a, h, cmd);
      if o.Accepted? {
        CatsBringNoItems(h, user, o.result.draws, ItemKey(owner, item));
      }
    case DrawGame(user, _, count, values) =>
      var o := OutcomeOf(c, a, h, cmd);
      if o.Accepted? {
        RewardsBringItems(h, user, o.result.rewards, owner, item);
      }
    case Consume(user, _, _, _) =>
  }

  /** The net number of an item a journal brings one user. */
  function NetItems(journal: seq<Entry>, user: int, item: string): int {
    if journal == [] then 0
    else
      var last := journal[|journal| - 1];
      NetItems(journal[..|journal| - 1], user, item)
      + if last.Executed? && last.e.user == user && last.e.result.Some? then ItemsOf(last.e.result.value, item) else 0
  }

  lemma {:induction false} NetItemsAppend(journal: seq<Entry>, entry: Entry, user: int, item: string)
    ensures NetItems(journal + [entry], user, item)
            == NetItems(journal, user, item)
               + if entry.Executed? && entry.e.user == user && entry.e.result.Some?
                   then ItemsOf(entry.e.result.value, item) else 0
  {
    assert (journal + [entry])[..|journal|] == journal;
  }

  lemma {:induction false} StepItems(c: Catalog, s: State, cmd: Command, owner: int, item: string)
    ensures Step(c, s, cmd).1.Fresh? ==>
              Quantity(Step(c, s, cmd).0.holdings, ItemKey(owner, item))
              == Quantity(s.holdings, ItemKey(owner, item))
                 + if owner == cmd.user then ItemsOf(Step(c, s, cmd).1.result, item) else 0
    ensures !Step(c, s, cmd).1.Fresh? ==> Step(c, s, cmd).0.holdings == s.holdings
  {
    hide OutcomeOf, ItemsOf, Quantity, ClaimOf, Settle, PayloadOf;
    if ValidRequest(cmd) && cmd.user in s.accounts {
      OutcomeItems(c, s.accounts[cmd.user], s.holdings, cmd, owner, item);
    }
  }

  /** Quantities are never out of step with the log: start, plus bought and drawn, minus used. */
  lemma {:induction false} ItemsAreConserved(c: Catalog, s: State, events: seq<Event>, user: int, item: string)
    ensures Quantity(Run(c, s, events).holdings, ItemKey(user, item))
            == Quantity(s.holdings, ItemKey(user, item)) + NetItems(Journal(c, s, events), user, item)
  {
    if events != [] {
      var earlier, e := events[..|events| - 1], events[|events| - 1];
      ItemsAreConserved(c, s, earlier, user, item);
      var before, journal := Run(c, s, earlier), Journal(c, s, earlier);
      match e
      case Do(cmd) =>
        StepItems(c, before, cmd, user, item);
        hide Step, RecordOf, Quantity, NetItems, ItemsOf;
        if Step(c, before, cmd).1.Fresh? {
          RecordHasResult(c, before, cmd);
          NetItemsAppend(journal, Executed(RecordOf(c, before, cmd)), user, item);
        }
      case Credit(u, amount) =>
        hide Step, RecordOf, NetItems;
        NetItemsAppend(journal, Received(u, amount), user, item);
    }
  }

  // ----- Repeats in a draw -----

  /** Draw i is a cat that was owned before or came earlier in the same draw. */
  ghost predicate IsRepeat(h: Holdings, user: int, rewards: seq<GameReward>, i: nat)
    requires i < |rewards|
  {
    && rewards[i].CatReward?
    && (CatKey(user, rewards[i].cat) in h
        || exists j :: 0 <= j < i && rewards[j].CatReward? && rewards[j].cat == rewards[i].cat)
  }

  ghost predicate DrawsExact(h: Holdings, user: int, rewards: seq<GameReward>, after: Holdings) {
    && (forall i :: 0 <= i < |rewards| && rewards[i].CatReward? ==>
          && (rewards[i].duplicate <==> IsRepeat(h, user, rewards, i))
          && rewards[i].exchangeCoins == if rewards[i].duplicate then 15 else 0)
    && (forall cat :: CatKey(user, cat) in after <==>
          (CatKey(user, cat) in h || exists j :: 0 <= j < |rewards| && rewards[j].CatReward? && rewards[j].cat == cat))
  }

  lemma {:induction false} RepeatAppend(h: Holdings, user: int, rewards: seq<GameReward>, r: GameReward, i: nat)
    requires i < |rewards|
    ensures IsRepeat(h, user, rewards + [r], i) <==> IsRepeat(h, user, rewards, i)
  {
    var all := rewards + [r];
    assert forall j :: 0 <= j <= i ==> all[j] == rewards[j];
  }

  lemma {:induction false} DrawExact(c: Catalog, h: Holdings, d: Draws, user: int, reward: Reward)
    requires d.Drawn? && DrawsExact(h, user, d.rewards, d.holdings)
    ensures DrawOne(c, d, user, reward).Drawn? ==>
            DrawsExact(h, user, DrawOne(c, d, user, reward).rewards, DrawOne(c, d, user, reward).holdings)
  {
    var after := DrawOne(c, d, user, reward);
    if after.Drawn? {
      var n := |d.rewards|;
      var r := after.rewards[n];
      assert after.rewards == d.rewards + [r];
      forall i | 0 <= i < |after.rewards| && after.rewards[i].CatReward?
        ensures after.rewards[i].duplicate <==> IsRepeat(h, user, after.rewards, i)
        ensures after.rewards[i].exchangeCoins == if after.rewards[i].duplicate then 15 else 0
      {
        if i < n {
          RepeatAppend(h, user, d.rewards, r, i);
          assert after.rewards[i] == d.rewards[i];
        } else {
          LastRepeat(h, user, d, r);
        }
      }
      forall cat
        ensures CatKey(user, cat) in after.holdings <==>
                (|| CatKey(user, cat) in h
                 || exists j :: 0 <= j < |after.rewards| && after.rewards[j].CatReward? && after.rewards[j].cat == cat)
      {
        SeenAppend(d.rewards, r, cat);
      }
    }
  }

  lemma {:induction false} LastRepeat(h: Holdings, user: int, d: Draws, r: GameReward)
    requires d.Drawn? && DrawsExact(h, user, d.rewards, d.holdings) && r.CatReward?
    ensures IsRepeat(h, user, d.rewards + [r], |d.rewards|) <==> CatKey(user, r.cat) in d.holdings
  {
    var all := d.rewards + [r];
    assert forall j :: 0 <= j < |d.rewards| ==> all[j] == d.rewards[j];
  }

  lemma {:induction false} SeenAppend(rewards: seq<GameReward>, r: GameReward, cat: string)
    ensures (exists j :: 0 <= j < |rewards + [r]| && (rewards + [r])[j].CatReward? && (rewards + [r])[j].cat == cat)
       <==> ((exists j :: 0 <= j < |rewards| && rewards[j].CatReward? && rewards[j].cat == cat)
         || (r.CatReward? && r.cat == cat))
  {
    var all := rewards + [r];
    assert all[|rewards|] == r;
    if j :| 0 <= j < |rewards| && rewards[j].CatReward? && rewards[j].cat == cat {
      assert all[j] == rewards[j];
    }
  }

  lemma {:induction false} ManyDrawsExact(c: Catalog, balance: int, h: Holdings, user: int, values: seq<real>, n: nat)
    ensures var d := DrawMany(c, balance, h, user, values, n);
            d.Drawn? ==> DrawsExact(h, user, d.rewards, d.holdings)
  {
    hide *;
    if n == 0 {
      NoDraws(c, balance, h, user, values);
    } else {
      DrawManyStep(c, balance, h, user, values, n);
      ManyDrawsExact(c, balance, h, user, values, n - 1);
      var before := DrawMany(c, balance, h, user, values, n - 1);
      if before.Drawn? {
        DrawExact(c, h, before, user, RewardAt(c, values, n - 1));
      }
    }
  }

  /** How many draws were repeats. */
  ghost function Repeats(h: Holdings, user: int, rewards: seq<GameReward>, n: nat): nat
    requires n <= |rewards|
  {
    if n == 0 then 0 else Repeats(h, user, rewards, n - 1) + if IsRepeat(h, user, rewards, n - 1) then 1 else 0
  }

  lemma {:induction false} RefundIsRepeats(h: Holdings, user: int, rewards: seq<GameReward>, after: Holdings, n: nat)
    requires DrawsExact(h, user, rewards, after) && n <= |rewards|
    ensures RefundOf(rewards[..n]) == 15 * Repeats(h, user, rewards, n)
  {
    if n > 0 {
      RefundIsRepeats(h, user, rewards, after, n - 1);
      assert rewards[..n][..n - 1] == rewards[..n - 1];
      assert rewards[..n][n - 1] == rewards[n - 1];
    }
  }

  /**
   A draw of eleven costs 300 and gives 15 back for each repeated cat; a cat counts as repeated
   exactly when it was owned before or came earlier in the draw, so no cat is granted twice.
   */
  lemma {:induction false} ElevenDraws(c: Catalog, s: State, user: int, request: int, values: seq<real>)
    requires Sound(s) && user in s.accounts && Step(c, s, DrawGame(user, request, 11, values)).1.Fresh?
    ensures var (after, reply) := Step(c, s, DrawGame(user, request, 11, values));
            && reply.result.GameDrawn? && |reply.result.rewards| == 11 && user in after.accounts
            && DrawsExact(s.holdings, user, reply.result.rewards, after.holdings)
            && after.accounts[user].balance
              == s.accounts[user].balance - 300 + 15 * Repeats(s.holdings, user, reply.result.rewards, 11)
            && after.accounts[user].balance == reply.result.balance
  {
    DrawOutcome(c, s, user, request, 11, values);
    hide *;
    DrawsAddUp(c, s.accounts[user].balance - GameCost(11), s.holdings, user, values, 11);
    ElevenCost();
  }

  lemma {:induction false} ElevenCost()
    ensures GameCost(11) == 300
  {
  }

  /** What a draw that went through has left behind. */
  lemma {:induction false} DrawOutcome(c: Catalog, s: State, user: int, request: int, count: int, values: seq<real>)
    requires user in s.accounts && Step(c, s, DrawGame(user, request, count, values)).1.Fresh?
    ensures count == 1 || count == 11
    ensures var (after, reply) := Step(c, s, DrawGame(user, request, count, values));
            var d := DrawMany(c, s.accounts[user].balance - GameCost(count), s.holdings, user, values, count);
            && d.Drawn? && reply.result == GameDrawn(d.rewards, d.balance) && after.holdings == d.holdings
            && user in after.accounts && after.accounts[user].balance == d.balance
  {
    hide DrawMany, ClaimOf, Settle;
  }

  /** The balance and the repeats of any number of draws. */
  lemma {:induction false} DrawsAddUp(c: Catalog, balance: int, h: Holdings, user: int, values: seq<real>, n: nat)
    requires DrawMany(c, balance, h, user, values, n).Drawn?
    ensures var d := DrawMany(c, balance, h, user, values, n);
            && |d.rewards| == n && DrawsExact(h, user, d.rewards, d.holdings)
            && d.balance == balance + 15 * Repeats(h, user, d.rewards, n)
  {
    hide *;
    DrawsAreEffects(c, balance, h, user, values, n);
    ManyDrawsExact(c, balance, h, user, values, n);
    var d := DrawMany(c, balance, h, user, values, n);
    RefundIsRepeats(h, user, d.rewards, d.holdings, n);
    assert d.rewards[..n] == d.rewards;
    AppliedBalance(d, balance, h, user);
  }

  lemma {:induction false} AppliedBalance(d: Draws, balance: int, h: Holdings, user: int)
    requires d.Drawn? && DrawsApplied(d, balance, h, user)
    ensures d.balance == balance + RefundOf(d.rewards)
  {
  }

  function CatsOf(policy: seq<PolicyReward>): set<string> {
    set p | p in policy :: p.cat
  }

  lemma {:induction false} GrantsOwned(h: Holdings, mileage: int, user: int, policy: seq<PolicyReward>, cat: string)
    ensures CatKey(user, cat) in GrantCats(h, mileage, user, policy).0
            <==> (CatKey(user, cat) in h || cat in CatsOf(policy))
    ensures |GrantCats(h, mileage, user, policy).2| == |policy|
  {
    if policy != [] {
      var earlier, last := policy[..|policy| - 1], policy[|policy| - 1];
      GrantsOwned(h, mileage, user, earlier, cat);
      assert policy == earlier + [last];
      assert CatsOf(policy) == CatsOf(earlier) + {last.cat};
      hide CatsOf;
    }
  }

  /**
   A cat draw grants each new cat once and pays the policy's mileage exactly for the repeats: the
   cats that were owned before or came earlier in the same draw.
   */
  lemma {:induction false} CatDrawsExact(h: Holdings, mileage: int, user: int, policy: seq<PolicyReward>, i: nat)
    requires i < |policy|
    ensures |GrantCats(h, mileage, user, policy).2| == |policy|
    ensures GrantCats(h, mileage, user, policy).2[i]
            == if CatKey(user, policy[i].cat) in h || policy[i].cat in CatsOf(policy[..i])
               then CatDraw(policy[i].cat, true, policy[i].duplicateMileage) else CatDraw(policy[i].cat, false, 0)
    ensures GrantCats(h, mileage, user, policy).1 == mileage + MileageOf(GrantCats(h, mileage, user, policy).2)
  {
    GrantsAreEffects(h, mileage, user, policy);
    GrantsOwned(h, mileage, user, policy, policy[i].cat);
    var earlier := policy[..|policy| - 1];
    GrantsOwned(h, mileage, user, earlier, policy[i].cat);
    hide CatsOf, MileageOf;
    if i < |earlier| {
      assert earlier[..i] == policy[..i];
      CatDrawsExact(h, mileage, user, earlier, i);
    }
  }
}
