/** Coins paid by grading, over every run. */
module GradingRewards {
  import opened Common
  import opened Attempts
  import opened Battle
  import opened Grading
  import opened Fencing

  function AttemptCoins(attempts: seq<Attempt>, user: int): nat {
    if attempts == [] then 0
    else
      var last := attempts[|attempts| - 1];
      AttemptCoins(attempts[..|attempts| - 1], user) + if last.user == user then last.coins else 0
  }

  function CompletionCoins(completions: seq<Completion>, user: int): nat {
    if completions == [] then 0
    else
      var last := completions[|completions| - 1];
      CompletionCoins(completions[..|completions| - 1], user) + if last.user == user then last.coins else 0
  }

  function BalanceOf(w: World, user: int): int {
    if user in w.users then w.users[user].balance else 0
  }

  /** How much the grading steps of a run raised a user's balance. */
  function GradingGain(cfg: Config, w: World, events: seq<Event>, user: int): int {
    if events == [] then 0
    else
      var earlier := events[..|events| - 1];
      var before := Run(cfg, w, earlier);
      GradingGain(cfg, w, earlier, user)
      + if events[|events| - 1].Grade?
          then BalanceOf(Step(cfg, before, events[|events| - 1]), user) - BalanceOf(before, user) else 0
  }

  // ----- The invariant -----

  /** At most one completion for a user, task and game date. */
  ghost predicate DistinctCompletions(completions: seq<Completion>) {
    forall i, j :: 0 <= i < j < |completions| ==>
      !(completions[i].user == completions[j].user && completions[i].task == completions[j].task
          && completions[i].date == completions[j].date)
  }

  /** The completion records the attempt that earned it, with the coins that attempt was awarded. */
  ghost predicate Earned(attempts: seq<Attempt>, c: Completion) {
    && c.attempt < |attempts|
    && var a := attempts[c.attempt];
       && a.user == c.user && a.submission.task == c.task && GameDate(a.attemptedAt) == c.date
       && a.coins == c.coins && a.status == Completed && a.correct == Some(true)
  }

  ghost predicate HasRecord(completions: seq<Completion>, id: nat) {
    exists k :: 0 <= k < |completions| && completions[k].attempt == id
  }

  ghost predicate PaidOk(attempts: seq<Attempt>, completions: seq<Completion>) {
    && DistinctCompletions(completions)
    && (forall k :: 0 <= k < |completions| ==> Earned(attempts, completions[k]))
    && (forall id :: 0 <= id < |attempts| && attempts[id].coins > 0 ==> HasRecord(completions, id))
  }

  // ----- Sums -----

  lemma {:induction false} CoinsUpdate(attempts: seq<Attempt>, i: nat, a: Attempt, user: int)
    requires i < |attempts| && a.user == attempts[i].user
    ensures AttemptCoins(attempts[i := a], user)
            == AttemptCoins(attempts, user) + if a.user == user then a.coins - attempts[i].coins else 0
  {
    var n := |attempts| - 1;
    if i == n {
      assert attempts[i := a][..n] == attempts[..n];
    } else {
      assert attempts[i := a][..n] == attempts[..n][i := a];
      CoinsUpdate(attempts[..n], i, a, user);
    }
  }

  lemma {:induction false} CoinsAppend(attempts: seq<Attempt>, a: Attempt, user: int)
    ensures AttemptCoins(attempts + [a], user) == AttemptCoins(attempts, user) + if a.user == user then a.coins else 0
  {
  }

  lemma {:induction false} CompletionsAppend(completions: seq<Completion>, c: Completion, user: int)
    ensures CompletionCoins(completions + [c], user) == CompletionCoins(completions, user)
            + if c.user == user then c.coins else 0
  {
  }

  // ----- One accepted result -----

  lemma {:induction false} PersistEffect(cfg: Config, w: World, lease: Lease, verdict: Verdict)
    requires PersistStep(cfg, w, lease, verdict).1
    ensures var (after, a) := (PersistStep(cfg, w, lease, verdict).0, w.attempts[lease.id]);
            var award := Award(w, a, verdict);
            && Current(w.attempts, lease) && a.user in w.users
            && after.attempts == w.attempts[lease.id := Graded(a, Effective(w, a, verdict), award)]
            && after.completions == WithCompletion(w, a, lease.id, award)
            && after.users == w.users[a.user :=
              User(w.users[a.user].balance + Coins(award), w.users[a.user].resetAt, w.users[a.user].version + 1)]
  {
  }

  /**
   A result accepted under a current lease pays exactly when the verdict is ACCEPTED on a task that
   exists, the attempt was made since the user's last learning reset, and the user has no completion of
   the task on that game date; then it pays the task's reward, and otherwise nothing changes hands.
   */
  lemma {:induction false} PaysExactly(cfg: Config, w: World, lease: Lease, verdict: Verdict)
    requires PersistStep(cfg, w, lease, verdict).1
    ensures var (after, a) := (PersistStep(cfg, w, lease, verdict).0, w.attempts[lease.id]);
            var pays := verdict == Accepted && a.submission.task in w.tasks
                        && (w.users[a.user].resetAt.None? || a.attemptedAt >= w.users[a.user].resetAt.value)
                        && !HasCompletion(w.completions, a.user, a.submission.task, GameDate(a.attemptedAt));
            && (pays ==> after.users[a.user].balance == w.users[a.user].balance + w.tasks[a.submission.task].reward
                         && after.attempts[lease.id].coins == w.tasks[a.submission.task].reward
                         && |after.completions| == |w.completions| + 1)
            && (!pays ==> after.users[a.user].balance == w.users[a.user].balance
                          && after.attempts[lease.id].coins == a.coins && after.completions == w.completions)
            && (forall u :: u in w.users && u != a.user ==> after.users[u] == w.users[u])
  {
  }

  lemma {:induction false} EarnedStays(before: seq<Attempt>, after: seq<Attempt>, c: Completion)
    requires Earned(before, c) && c.attempt < |after| && after[c.attempt] == before[c.attempt]
    ensures Earned(after, c)
  {
  }

  lemma {:induction false} PersistPaid(w: World, id: nat, verdict: Verdict)
    requires PaidOk(w.attempts, w.completions) && id < |w.attempts| && w.attempts[id].status == Running
    ensures var a := w.attempts[id];
            var award := Award(w, a, verdict);
            && PaidOk(w.attempts[id := Graded(a, Effective(w, a, verdict), award)], WithCompletion(w, a, id, award))
            && a.coins == 0
  {
    var a := w.attempts[id];
    var award := Award(w, a, verdict);
    var graded := Graded(a, Effective(w, a, verdict), award);
    var attempts, completions := w.attempts[id := graded], WithCompletion(w, a, id, award);
    if award.Some? {
      NewCompletionDistinct(w, a, id, award);
      assert graded.status == Completed && graded.correct == Some(true);
    }
    forall k | 0 <= k < |completions|
      ensures Earned(attempts, completions[k])
    {
      if k < |w.completions| {
        assert Earned(w.attempts, w.completions[k]);
        EarnedStays(w.attempts, attempts, completions[k]);
      }
    }
    hide Award, Earned, Effective;
    forall i | 0 <= i < |attempts| && attempts[i].coins > 0
      ensures HasRecord(completions, i)
    {
      if i == id {
        assert award.Some?;
        assert completions[|w.completions|].attempt == id;
      } else {
        assert HasRecord(w.completions, i);
        var k :| 0 <= k < |w.completions| && w.completions[k].attempt == i;
        assert completions[k] == w.completions[k];
      }
    }
  }

  lemma {:induction false} NewCompletionDistinct(w: World, a: Attempt, id: nat, award: Option<nat>)
    requires DistinctCompletions(w.completions) && award.Some?
    requires !HasCompletion(w.completions, a.user, a.submission.task, GameDate(a.attemptedAt))
    ensures DistinctCompletions(WithCompletion(w, a, id, award))
  {
  }

  lemma {:induction false} QueuePaid(before: seq<Attempt>, token: nat, after: seq<Attempt>, token': nat, c: Change,
                                     completions: seq<Completion>)
    requires PaidOk(before, completions) && Moves(before, token, after, token', c) && !c.Persisted?
    ensures PaidOk(after, completions)
  {
  }

  /** Only grading writes completions. */
  lemma {:induction false} OnlyGradingCompletes(cfg: Config, w: World, e: Event)
    requires !ChangeOf(cfg, w, e).Persisted?
    ensures Step(cfg, w, e).completions == w.completions
  {
    hide Oldest, Claimable, SubmissionError, WithBattle, Award, Effective, WithDaily, WithPresentation, WithCompletion,
      Current, CreateRoomStep, JoinRoomStep, SetReadyStep, StartRoomStep;
  }

  lemma {:induction false} StepPaid(cfg: Config, w: World, e: Event)
    requires PaidOk(w.attempts, w.completions)
    ensures PaidOk(Step(cfg, w, e).attempts, Step(cfg, w, e).completions)
  {
    if ChangeOf(cfg, w, e).Persisted? {
      PersistEffect(cfg, w, e.lease, e.verdict);
      PersistPaid(w, e.lease.id, e.verdict);
      hide PersistStep, PaidOk;
    } else {
      StepMoves(cfg, w, e);
      OnlyGradingCompletes(cfg, w, e);
      hide Step, PaidOk, Moves, ChangeOf;
      QueuePaid(w.attempts, w.nextToken, Step(cfg, w, e).attempts, Step(cfg, w, e).nextToken, ChangeOf(cfg, w, e),
                w.completions);
    }
  }

  // ----- Conservation -----

  lemma {:induction false} QueueSums(before: seq<Attempt>, token: nat, after: seq<Attempt>, token': nat, c: Change,
                                     user: int)
    requires Moves(before, token, after, token', c) && !c.Persisted?
    ensures AttemptCoins(after, user) == AttemptCoins(before, user)
  {
    hide AttemptCoins;
    match c
    case Quiet =>
      if after != before {
        assert after == before + [after[|before|]];
        CoinsAppend(before, after[|before|], user);
      }
    case Issued(id, t) => CoinsUpdate(before, id, after[id], user);
  }

  /** The attempts, the completions and the balance move together. */
  lemma {:induction false} StepSums(cfg: Config, w: World, e: Event, user: int)
    requires PaidOk(w.attempts, w.completions)
    ensures var after := Step(cfg, w, e);
            && AttemptCoins(after.attempts, user) - AttemptCoins(w.attempts, user)
               == CompletionCoins(after.completions, user) - CompletionCoins(w.completions, user)
            && (e.Grade? ==>
                  AttemptCoins(after.attempts, user) - AttemptCoins(w.attempts, user)
                  == BalanceOf(after, user) - BalanceOf(w, user))
            && (!e.Grade? ==> AttemptCoins(after.attempts, user) == AttemptCoins(w.attempts, user))
  {
    if ChangeOf(cfg, w, e).Persisted? {
      PersistEffect(cfg, w, e.lease, e.verdict);
      PersistPaid(w, e.lease.id, e.verdict);
      hide PersistStep, PaidOk, AttemptCoins, CompletionCoins, Award, Effective;
      var a := w.attempts[e.lease.id];
      var award := Award(w, a, e.verdict);
      CoinsUpdate(w.attempts, e.lease.id, Graded(a, Effective(w, a, e.verdict), award), user);
      if award.Some? {
        CompletionsAppend(w.completions,
            Completion(a.user, a.submission.task, GameDate(a.attemptedAt), e.lease.id, award.value), user);
      }
    } else {
      StepMoves(cfg, w, e);
      OnlyGradingCompletes(cfg, w, e);
      if e.Grade? {
        PersistMoves(cfg, w, e.lease, e.verdict);
        hide PersistStep, Moves;
      } else {
        hide Step, Moves, ChangeOf;
        QueueSums(w.attempts, w.nextToken, Step(cfg, w, e).attempts, Step(cfg, w, e).nextToken, ChangeOf(cfg, w, e),
                  user);
      }
    }
  }

  lemma {:induction false} RunPaid(cfg: Config, events: seq<Event>)
    ensures PaidOk(Run(cfg, EMPTY, events).attempts, Run(cfg, EMPTY, events).completions)
  {
    if events != [] {
      RunPaid(cfg, events[..|events| - 1]);
      StepPaid(cfg, Run(cfg, EMPTY, events[..|events| - 1]), events[|events| - 1]);
      RunLast(cfg, EMPTY, events);
      hide Run, Step, PaidOk;
    }
  }

  /**
   Reward conservation over every run: per user, the coins recorded on attempts, the coins recorded on
   completions and the balance gained from grading steps are the same number.
   */
  lemma {:induction false} RewardsAreConserved(cfg: Config, events: seq<Event>, user: int)
    ensures var w := Run(cfg, EMPTY, events);
            AttemptCoins(w.attempts, user) == CompletionCoins(w.completions, user)
                == GradingGain(cfg, EMPTY, events, user)
  {
    if events != [] {
      var earlier := events[..|events| - 1];
      RewardsAreConserved(cfg, earlier, user);
      RunPaid(cfg, earlier);
      StepSums(cfg, Run(cfg, EMPTY, earlier), events[|events| - 1], user);
      RunLast(cfg, EMPTY, events);
      GainLast(cfg, EMPTY, events, user);
      hide *;
    }
  }

  lemma {:induction false} GainLast(cfg: Config, w: World, events: seq<Event>, user: int)
    requires events != []
    ensures GradingGain(cfg, w, events, user)
            == GradingGain(cfg, w, events[..|events| - 1], user)
               + if events[|events| - 1].Grade?
                 then BalanceOf(Step(cfg, Run(cfg, w, events[..|events| - 1]), events[|events| - 1]), user)
                      - BalanceOf(Run(cfg, w, events[..|events| - 1]), user)
                 else 0
  {
  }

  /** In every run a user is paid for a task at most once per game date: no two such attempts both hold coins. */
  lemma {:induction false} PaidOncePerDay(cfg: Config, events: seq<Event>, i: nat, j: nat)
    requires i < j < |Run(cfg, EMPTY, events).attempts|
    ensures var w := Run(cfg, EMPTY, events);
            var (a, b) := (w.attempts[i], w.attempts[j]);
            a.user == b.user && a.submission.task == b.submission.task
                && GameDate(a.attemptedAt) == GameDate(b.attemptedAt)
            ==> a.coins == 0 || b.coins == 0
    ensures DistinctCompletions(Run(cfg, EMPTY, events).completions)
  {
    RunPaid(cfg, events);
    var w := Run(cfg, EMPTY, events);
    hide Run, GameDate;
    if w.attempts[i].coins > 0 && w.attempts[j].coins > 0 {
      assert HasRecord(w.completions, i) && HasRecord(w.completions, j);
      var k :| 0 <= k < |w.completions| && w.completions[k].attempt == i;
      var m :| 0 <= m < |w.completions| && w.completions[m].attempt == j;
      assert Earned(w.attempts, w.completions[k]) && Earned(w.attempts, w.completions[m]);
    }
  }

  /** An attempt made before the reset on record when it is graded never pays, in any later state either. */
  lemma {:induction false} NothingForOldAttempts(cfg: Config, w: World, lease: Lease, verdict: Verdict,
                                                 later: seq<Event>)
    requires PersistStep(cfg, w, lease, verdict).1 && PaidOk(w.attempts, w.completions)
    requires w.users[w.attempts[lease.id].user].resetAt.Some?
    requires w.attempts[lease.id].attemptedAt < w.users[w.attempts[lease.id].user].resetAt.value
    ensures var after := PersistStep(cfg, w, lease, verdict).0;
            && lease.id < |Run(cfg, after, later).attempts| && Run(cfg, after, later).attempts[lease.id].coins == 0
            && after.users[w.attempts[lease.id].user].balance == w.users[w.attempts[lease.id].user].balance
  {
    PaysExactly(cfg, w, lease, verdict);
    PersistEffect(cfg, w, lease, verdict);
    PersistPaid(w, lease.id, verdict);
    var after := PersistStep(cfg, w, lease, verdict).0;
    hide PersistStep, PaidOk, Run;
    GradedIsFinal(cfg, after, later, lease.id);
  }

  /** The user was reset at `since` or later, and the attempt is older and holds no coins. */
  ghost predicate TooOld(w: World, user: int, since: int, id: nat) {
    && user in w.users && w.users[user].resetAt.Some? && w.users[user].resetAt.value >= since
    && id < |w.attempts| && w.attempts[id].user == user && w.attempts[id].attemptedAt < since
      && w.attempts[id].coins == 0
  }

  /** Only a reset changes the time of the last reset. */
  lemma {:induction false} ResetTimeStays(cfg: Config, w: World, e: Event, user: int)
    requires user in w.users
    ensures user in Step(cfg, w, e).users
    ensures Step(cfg, w, e).users[user].resetAt == if e.Reset? && e.resetUser == user then Some(e.resetAt)
            else w.users[user].resetAt
  {
    hide Oldest, Claimable, SubmissionError, WithBattle, Award, Effective, WithDaily, WithPresentation, WithCompletion,
      Current, Undone, CreateRoomStep, JoinRoomStep, SetReadyStep, StartRoomStep;
  }

  lemma {:induction false} TooOldStays(cfg: Config, w: World, e: Event, user: int, since: int, id: nat)
    requires TooOld(w, user, since, id) && (e.Reset? && e.resetUser == user ==> e.resetAt >= since)
    ensures TooOld(Step(cfg, w, e), user, since, id)
  {
    ResetTimeStays(cfg, w, e, user);
    StepMoves(cfg, w, e);
    if ChangeOf(cfg, w, e).Persisted? && e.lease.id == id {
      PaysExactly(cfg, w, e.lease, e.verdict);
    }
    hide Step, ChangeOf, PersistStep;
  }

  /** After a learning reset no older attempt of the user is ever paid, however late it is graded. */
  lemma {:induction false} ResetIsFinal(cfg: Config, w: World, user: int, since: int, id: nat, events: seq<Event>)
    requires user in w.users && id < |w.attempts| && w.attempts[id].user == user
    requires w.attempts[id].attemptedAt < since && w.attempts[id].coins == 0
    requires forall i :: 0 <= i < |events| && events[i].Reset? && events[i].resetUser == user ==>
             events[i].resetAt >= since
    ensures var after := Run(cfg, Step(cfg, w, Reset(user, since)), events);
            id < |after.attempts| && after.attempts[id].coins == 0
  {
    assert TooOld(Step(cfg, w, Reset(user, since)), user, since, id);
    hide Step, TooOld;
    TooOldRun(cfg, Step(cfg, w, Reset(user, since)), user, since, id, events);
    TooOldMeans(Run(cfg, Step(cfg, w, Reset(user, since)), events), user, since, id);
  }

  lemma {:induction false} TooOldMeans(w: World, user: int, since: int, id: nat)
    requires TooOld(w, user, since, id)
    ensures id < |w.attempts| && w.attempts[id].coins == 0
  {
  }

  lemma {:induction false} TooOldRun(cfg: Config, w: World, user: int, since: int, id: nat, events: seq<Event>)
    requires TooOld(w, user, since, id)
    requires forall i :: 0 <= i < |events| && events[i].Reset? && events[i].resetUser == user ==>
             events[i].resetAt >= since
    ensures TooOld(Run(cfg, w, events), user, since, id)
  {
    if events != [] {
      TooOldRun(cfg, w, user, since, id, events[..|events| - 1]);
      TooOldStays(cfg, Run(cfg, w, events[..|events| - 1]), events[|events| - 1], user, since, id);
      RunLast(cfg, w, events);
      hide Run, Step, TooOld;
    }
  }
}
