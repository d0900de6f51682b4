/**
 The economy commands as they run: one unit of work each, changing the account, the asset session
 and the execution row step by step, committed at the end or rolled back.
 */
module Economy {
  import opened Common
  import opened Rewards
  import opened Ledger
  import opened AssetSession

  /** Claiming then completing an execution settles it. */
  lemma {:induction false} ClaimThenComplete(log: seq<Execution>, claimed: Execution, e: Execution)
    requires claimed.request == e.request && Find(log, e.request).None?
    ensures Find(log + [claimed], e.request) == Some(|log|)
    ensures (log + [claimed])[|log| := e] == log + [e] == Settle(log, e)
  {
  }

  /** What a command has spent and given when it gets to completing its execution. */
  datatype Spent = Refused(error: Error) | Paid(account: Account, cost: int, result: Result)

  ghost function AsOutcome(s: Spent, h: Holdings): Outcome {
    match s
    case Refused(error) => Rejected(error)
    case Paid(account, cost, result) => if cost < 0 then Rejected(NegativeCost) else Accepted(account, h, cost, result)
  }

  class UnitOfWork {
    const catalog: Catalog
    const assets: Assets
    var accounts: map<int, Account>
    var log: seq<Execution>
    /** The committed tables. */
    var storedAccounts: map<int, Account>
    var storedRows: seq<AssetRow>
    var storedLog: seq<Execution>

    constructor (catalog: Catalog, accounts: map<int, Account>)
      ensures this.catalog == catalog && fresh(assets)
      ensures StoredOk() && Committed() == State(accounts, map[], [])
    {
      this.catalog := catalog;
      assets := new Assets();
      this.accounts, log := accounts, [];
      storedAccounts, storedRows, storedLog := accounts, [], [];
    }

    ghost predicate StoredOk()
      reads this
    {
      DistinctKeys(storedRows) && PositiveRows(storedRows)
    }

    function Committed(): State
      reads this
    {
      State(storedAccounts, ToMap(storedRows), storedLog)
    }

    /** The tables as the open session would commit them. */
    function Working(): State
      reads this, assets
    {
      State(accounts, assets.Value(), log)
    }

    method Enter()
      requires StoredOk()
      modifies this`accounts, this`log, assets
      ensures assets.Valid() && assets.deleted == {} && assets.pending == [] && Working() == Committed()
    {
      accounts, log := storedAccounts, storedLog;
      assets.Begin(storedRows);
    }

    method Commit()
      requires assets.Valid()
      modifies this, assets
      ensures StoredOk() && Committed() == old(Working())
    {
      assets.Flush();
      storedAccounts, storedRows, storedLog := accounts, assets.rows, log;
    }

    // ----- Executions -----

    /** Inserts an unfinished execution unless the request id is taken. */
    method ClaimExecution(user: int, request: int, payload: Payload) returns (claim: Claim)
      modifies this`log
      ensures claim == ClaimOf(old(log), user, request, payload)
      ensures Find(log, request).Some?
      ensures log == if Find(old(log), request).None?
              then old(log) + [Execution(request, user, payload, Acquired, 0, None)] else old(log)
    {
      var found := Find(log, request);
      if found.None? {
        ClaimThenComplete(log, Execution(request, user, payload, Acquired, 0, None),
                          Execution(request, user, payload, Acquired, 0, None));
        log := log + [Execution(request, user, payload, Acquired, 0, None)];
        return NewClaim;
      }
      var execution := log[found.value];
      if execution.user != user || execution.payload != payload {
        return Conflict;
      }
      claim := if execution.status == Completed then Stored(execution.result) else NewClaim;
    }

    /** Completes the claimed execution; refuses a negative cost. */
    method CompleteExecution(e: Execution) returns (ok: bool)
      requires Find(log, e.request).Some?
      modifies this`log
      ensures ok <==> e.cost >= 0
      ensures log == if e.cost >= 0 then old(log)[Find(old(log), e.request).value := e] else old(log)
    {
      if e.cost < 0 {
        return false;
      }
      var index := Find(log, e.request);
      log := log[index.value := e];
      ok := true;
    }

    /** Completes the execution, moves the account on and builds the reply. */
    method Finish(cmd: Command, account: Account, cost: int, result: Result, ghost before: seq<Execution>)
      returns (r: Reply)
      requires Find(log, cmd.request).Some?
      requires log == if Find(before, cmd.request).None?
               then before + [Execution(cmd.request, cmd.user, PayloadOf(cmd), Acquired, 0, None)] else before
      modifies this`log, this`accounts
      ensures r == if cost < 0 then Failed(NegativeCost) else Fresh(result)
      ensures cost >= 0 ==>
                && log == Settle(before,
                                 Execution(cmd.request, cmd.user, PayloadOf(cmd), Completed, cost, Some(result)))
                && accounts == old(accounts)[cmd.user := account.(version := account.version + 1)]
    {
      var e := Execution(cmd.request, cmd.user, PayloadOf(cmd), Completed, cost, Some(result));
      if Find(before, cmd.request).None? {
        ClaimThenComplete(before, Execution(cmd.request, cmd.user, PayloadOf(cmd), Acquired, 0, None), e);
      }
      var ok := CompleteExecution(e);
      if !ok {
        return Failed(NegativeCost);
      }
      accounts := accounts[cmd.user := account.(version := account.version + 1)];
      r := Fresh(result);
    }

    /** What all commands do first: find the user and claim the request id. */
    method Start(cmd: Command) returns (stop: Option<Reply>)
      requires ValidRequest(cmd)
      modifies this`log
      ensures stop.Some? ==> !stop.value.Fresh?
      ensures stop.Some? ==> Step(catalog, old(Working()), cmd) == (old(Working()), stop.value)
      ensures stop.None? ==>
                && cmd.user in accounts && Find(log, cmd.request).Some?
                && ClaimOf(old(log), cmd.user, cmd.request, PayloadOf(cmd)).NewClaim?
                && log == if Find(old(log), cmd.request).None?
                          then old(log) + [Execution(cmd.request, cmd.user, PayloadOf(cmd), Acquired, 0, None)]
                              else old(log)
    {
      hide OutcomeOf;
      if cmd.user !in accounts {
        return Some(Failed(UserNotFound));
      }
      var claim := ClaimExecution(cmd.user, cmd.request, PayloadOf(cmd));
      match claim
      case Conflict => stop := Some(Failed(IdempotencyConflict));
      case Stored(result) => stop := Some(if result.None? then Failed(NoResultData) else Replayed(result.value));
      case NewClaim => stop := None;
    }

    /** The session holds what the step says, or nothing is to be committed. */
    ghost predicate Reached(before: State, cmd: Command, r: Reply)
      reads this, assets
    {
      && r == Step(catalog, before, cmd).1
      && (r.Fresh? ==> Working() == Step(catalog, before, cmd).0)
      && (!r.Fresh? ==> Step(catalog, before, cmd).0 == before)
    }

    // ----- Purchase -----

    method SpendPurchase(cmd: Command, before: Account) returns (s: Spent)
      requires cmd.Purchase? && ValidRequest(cmd) && assets.Valid() && assets.deleted == {}
      modifies assets`rows, assets`pending
      ensures assets.Valid()
      ensures AsOutcome(s, assets.Value()) == OutcomeOf(catalog, before, old(assets.Value()), cmd)
    {
      if cmd.item !in catalog.items {
        return Refused(ItemNotFound);
      }
      var item, key := catalog.items[cmd.item], ItemKey(cmd.user, cmd.item);
      if item.category == Wallpaper {
        var owned := assets.GetAsset(key);
        if owned.Some? && owned.value > 0 {
          return Refused(AlreadyOwned);
        }
      }
      var account := before;
      var cost := item.price * cmd.quantity;
      if account.balance < cost {
        return Refused(InsufficientBalance);
      }
      account := account.(balance := account.balance - cost);
      var total := assets.AddItemQuantity(cmd.user, cmd.item, cmd.quantity);
      s := Paid(account, cost, Purchased(cmd.item, cmd.quantity, total.value, account.balance));
    }

    // ----- Consumption -----

    method SpendConsume(cmd: Command, account: Account) returns (s: Spent)
      requires cmd.Consume? && assets.Valid() && assets.deleted == {} && assets.pending == []
      modifies assets
      ensures assets.Valid()
      ensures AsOutcome(s, assets.Value()) == OutcomeOf(catalog, account, old(assets.Value()), cmd)
    {
      if cmd.item !in catalog.items {
        return Refused(ItemNotFound);
      }
      var item := catalog.items[cmd.item];
      if item.category != Consumable || item.effect.None? {
        return Refused(NotConsumable);
      }
      if cmd.cat !in catalog.cats {
        return Refused(CatNotFound);
      }
      var cat := assets.GetAsset(CatKey(cmd.user, cmd.cat));
      if cat.None? {
        return Refused(CatNotFound);
      }
      var taken := assets.ConsumeItemQuantity(cmd.user, cmd.item);
      assert !taken.NotPersisted?;
      if taken.Missing? {
        return Refused(NotOwned);
      }
      s := Paid(account, 0, Consumed(cmd.item, cmd.cat, item.effect.value, taken.remaining));
    }

    // ----- The cat draw -----

    method GrantDraws(user: int, mileage: int, policy: seq<PolicyReward>) returns (total: int, draws: seq<CatDraw>)
      requires assets.Valid() && assets.deleted == {}
      modifies assets`pending
      ensures assets.Valid()
      ensures (assets.Value(), total, draws) == GrantCats(old(assets.Value()), mileage, user, policy)
    {
      total, draws := mileage, [];
      for i := 0 to |policy|
        invariant assets.Valid()
        invariant (assets.Value(), total, draws) == GrantCats(old(assets.Value()), mileage, user, policy[..i])
      {
        assert policy[..i + 1][..i] == policy[..i];
        var reward := policy[i];
        var existing := assets.GetAsset(CatKey(user, reward.cat));
        if existing.None? {
          assets.GrantCat(user, reward.cat);
          draws := draws + [CatDraw(reward.cat, false, 0)];
        } else {
          total := total + reward.duplicateMileage;
          draws := draws + [CatDraw(reward.cat, true, reward.duplicateMileage)];
        }
      }
      assert policy[..|policy|] == policy;
    }

    method AllCatsKnown(policy: seq<PolicyReward>) returns (known: bool)
      ensures known <==> forall i :: 0 <= i < |policy| ==> policy[i].cat in catalog.cats
    {
      for i := 0 to |policy|
        invariant forall k :: 0 <= k < i ==> policy[k].cat in catalog.cats
      {
        if policy[i].cat !in catalog.cats {
          return false;
        }
      }
      known := true;
    }

    method AnyNegative(policy: seq<PolicyReward>) returns (found: bool)
      ensures found <==> exists i :: 0 <= i < |policy| && policy[i].duplicateMileage < 0
    {
      for i := 0 to |policy|
        invariant forall k :: 0 <= k < i ==> policy[k].duplicateMileage >= 0
      {
        if policy[i].duplicateMileage < 0 {
          return true;
        }
      }
      found := false;
    }

    method SpendCatDraw(cmd: Command, before: Account) returns (s: Spent)
      requires cmd.DrawCats? && ValidRequest(cmd) && assets.Valid() && assets.deleted == {}
      modifies assets`rows, assets`pending
      ensures assets.Valid()
      ensures AsOutcome(s, assets.Value()) == OutcomeOf(catalog, before, old(assets.Value()), cmd)
    {
      hide GrantCats;
      if cmd.cost < 0 {
        return Refused(PolicyError);
      }
      var account := before;
      if account.balance < cmd.cost {
        return Refused(InsufficientBalance);
      }
      var negative := AnyNegative(cmd.policy);
      if negative {
        return Refused(PolicyError);
      }
      if |cmd.policy| != cmd.drawCount {
        return Refused(PolicyError);
      }
      var known := AllCatsKnown(cmd.policy);
      if !known {
        return Refused(CatNotFound);
      }
      account := account.(balance := account.balance - cmd.cost);
      var mileage, draws := GrantDraws(cmd.user, account.mileage, cmd.policy);
      account := account.(mileage := mileage);
      var bonus := if cmd.drawCount == 11 then 1 else 0;
      s := Paid(account, cmd.cost, CatsDrawn(cmd.drawCount, bonus, cmd.cost, account.balance, mileage, draws));
    }

    // ----- The game draw -----

    /** One turn of the draw loop. */
    method ApplyReward(user: int, reward: Reward, ghost d: Draws)
      returns (refund: int, given: Option<GameReward>, error: Error)
      requires assets.Valid() && assets.deleted == {} && d.Drawn? && d.holdings == assets.Value()
      modifies assets`rows, assets`pending
      ensures assets.Valid()
      ensures given.None? ==> DrawOne(catalog, d, user, reward) == DrawError(error)
      ensures given.Some? ==>
              DrawOne(catalog, d, user, reward) == Drawn(d.balance + refund, assets.Value(), d.rewards + [given.value])
    {
      error := CatNotFound;
      if reward.isCat {
        if reward.key !in catalog.cats {
          return 0, None, CatNotFound;
        }
        var existing := assets.GetAsset(CatKey(user, reward.key));
        var duplicate := existing.Some?;
        refund := if duplicate then DUPLICATE_CAT_COINS else 0;
        if !duplicate {
          assets.GrantCat(user, reward.key);
        }
        given := Some(CatReward(reward.key, duplicate, refund));
      } else {
        if reward.key !in catalog.items {
          return 0, None, ItemNotFound;
        }
        var total := assets.AddItemQuantity(user, reward.key, 1);
        refund, given := 0, Some(FurnitureReward(reward.key));
      }
    }

    method DrawDefinition(values: seq<real>, i: nat) returns (definition: Reward)
      ensures definition == RewardAt(catalog, values, i)
    {
      definition := DrawReward(catalog.Pool(), RandomAt(values, i));
    }

    method DrawRewards(user: int, balance: int, drawCount: nat, values: seq<real>) returns (d: Draws)
      requires assets.Valid() && assets.deleted == {}
      modifies assets`rows, assets`pending
      ensures assets.Valid()
      ensures d == DrawMany(catalog, balance, old(assets.Value()), user, values, drawCount)
      ensures d.Drawn? ==> d.holdings == assets.Value()
    {
      hide *;
      ghost var start := assets.Value();
      var coins := balance;
      var rewards := [];
      NoDrawYet(catalog, balance, start, user, values);
      for i := 0 to drawCount
        invariant assets.Valid()
        invariant Drawn(coins, assets.Value(), rewards) == DrawMany(catalog, balance, start, user, values, i)
      {
        var definition := DrawDefinition(values, i);
        DrawManyStep(catalog, balance, start, user, values, i + 1);
        var refund, given, error := ApplyReward(user, definition, Drawn(coins, assets.Value(), rewards));
        if given.None? {
          ErrorStays(catalog, balance, start, user, values, i + 1, drawCount);
          return DrawError(error);
        }
        coins := coins + refund;
        rewards := rewards + [given.value];
      }
      d := Drawn(coins, assets.Value(), rewards);
    }

    method SpendGameDraw(cmd: Command, before: Account) returns (s: Spent)
      requires cmd.DrawGame? && ValidRequest(cmd) && assets.Valid() && assets.deleted == {}
      modifies assets`rows, assets`pending
      ensures assets.Valid()
      ensures AsOutcome(s, assets.Value()) == OutcomeOf(catalog, before, old(assets.Value()), cmd)
    {
      hide DrawMany;
      var account := before;
      var cost := GameCost(cmd.drawCount);
      if account.balance < cost {
        return Refused(InsufficientBalance);
      }
      account := account.(balance := account.balance - cost);
      var drawn := DrawRewards(cmd.user, account.balance, cmd.drawCount, cmd.values);
      if drawn.DrawError? {
        return Refused(drawn.error);
      }
      account := account.(balance := drawn.balance);
      s := Paid(account, cost, GameDrawn(drawn.rewards, account.balance));
    }

    method Spend(cmd: Command, account: Account) returns (s: Spent)
      requires ValidRequest(cmd) && assets.Valid() && assets.deleted == {} && assets.pending == []
      modifies assets
      ensures assets.Valid()
      ensures AsOutcome(s, assets.Value()) == OutcomeOf(catalog, account, old(assets.Value()), cmd)
    {
      hide OutcomeOf, AsOutcome, Assets.Value;
      match cmd {
        case Purchase(_, _, _, _) => s := SpendPurchase(cmd, account);
        case DrawCats(_, _, _, _, _) => s := SpendCatDraw(cmd, account);
        case DrawGame(_, _, _, _) => s := SpendGameDraw(cmd, account);
        case Consume(_, _, _, _) => s := SpendConsume(cmd, account);
      }
    }

    // ----- The whole transaction -----

    method ExecuteInSession(cmd: Command) returns (r: Reply)
      requires ValidRequest(cmd) && assets.Valid() && assets.deleted == {} && assets.pending == []
      modifies this`accounts, this`log, assets
      ensures assets.Valid()
      ensures Reached(old(Working()), cmd, r)
    {
      ghost var before := Working();
      var stop := Start(cmd);
      hide Step, ClaimOf, Settle, OutcomeOf, Assets.Value, PayloadOf;
      if stop.Some? {
        return stop.value;
      }
      StepOf(catalog, before, cmd);
      var spent := Spend(cmd, accounts[cmd.user]);
      if spent.Refused? {
        return Failed(spent.error);
      }
      r := Finish(cmd, spent.account, spent.cost, spent.result, before.log);
    }

    /** Runs a command in its own unit of work: committed when it went through, otherwise rolled back. */
    method Execute(cmd: Command) returns (r: Reply)
      requires StoredOk()
      modifies this, assets
      ensures StoredOk()
      ensures (Committed(), r) == Step(catalog, old(Committed()), cmd)
    {
      if !ValidRequest(cmd) {
        return Failed(InvalidQuantity);
      }
      Enter();
      ghost var before := Working();
      hide Step;
      r := ExecuteInSession(cmd);
      if r.Fresh? {
        Commit();
      }
    }
  }

  lemma {:induction false} NoDrawYet(c: Catalog, balance: int, h: Holdings, user: int, values: seq<real>)
    ensures DrawMany(c, balance, h, user, values, 0) == Drawn(balance, h, [])
  {
  }

  lemma {:induction false} ErrorStays(c: Catalog, balance: int, h: Holdings, user: int, values: seq<real>, i: nat,
                                      n: nat)
    requires i <= n && DrawMany(c, balance, h, user, values, i).DrawError?
    ensures DrawMany(c, balance, h, user, values, n) == DrawMany(c, balance, h, user, values, i)
  {
    hide DrawOne, RewardAt;
    if i < n {
      ErrorStays(c, balance, h, user, values, i, n - 1);
    }
  }
}
