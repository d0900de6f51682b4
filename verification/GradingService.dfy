/** The grading service on its tables, each transaction changing rows one by one and rolled back when it fails. */
module GradingService {
  import opened Common
  import opened Attempts
  import opened Battle
  import opened BattleService
  import opened Grading
  import Progress

  /** Grading a verdict that already takes a missing task into account. */
  lemma {:induction false} EffectiveTwice(cfg: Config, w: World, lease: Lease, verdict: Verdict)
    requires Current(w.attempts, lease)
    ensures PersistStep(cfg, w, lease, Effective(w, w.attempts[lease.id], verdict))
            == PersistStep(cfg, w, lease, verdict)
  {
  }

  class Service {
    const config: Config
    const battle: BattleRooms
    var attempts: seq<Attempt>
    var nextToken: nat
    var users: map<int, User>
    var tasks: map<int, Task>
    var completions: seq<Completion>
    var presentations: map<int, Presentation>
    var dailies: map<int, DailyTask>

    constructor (config: Config)
      ensures this.config == config && fresh(battle) && Value() == EMPTY
    {
      this.config := config;
      battle := new BattleRooms();
      attempts, nextToken := [], 0;
      users, tasks, completions, presentations, dailies := map[], map[], [], map[], map[];
    }

    function Value(): World
      reads this, battle
    {
      World(attempts, nextToken, users, tasks, completions, presentations, dailies, battle.Value())
    }

    // ----- Submission -----

    method CreateAttempt(request: int, user: int, submission: Submission, now: int, unlocked: bool) returns (r: Created)
      modifies this`attempts, this`users
      ensures (Value(), r) == CreateStep(old(Value()), request, user, submission, now, unlocked)
    {
      hide PresentationFits, ContentFits, DailyFits, BattleFits;
      var existing := FindRequest(attempts, request);
      if existing.Some? {
        var replayed := attempts[existing.value];
        if replayed.user != user || replayed.submission != submission {
          return CreateError(RequestConflict);
        }
        return AttemptId(existing.value);
      }
      if submission.task !in tasks || !tasks[submission.task].active {
        return CreateError(TaskNotFound);
      }
      if submission.context.Learning? && !unlocked {
        return CreateError(TierLocked);
      }
      if submission.context.Learning? && tasks[submission.task].options != [] && submission.presentation.None? {
        return CreateError(PresentationRequired);
      }
      if !PresentationFits(Value(), user, submission) {
        return CreateError(PresentationNotFound);
      }
      if !ContentFits(Value(), submission) {
        return CreateError(ContentRefused);
      }
      if !DailyFits(Value(), user, submission, now) {
        return CreateError(DailyNotFound);
      }
      if !BattleFits(Value(), user, submission) {
        return CreateError(BattleNotFound);
      }
      if user !in users {
        return CreateError(UserNotFound);
      }
      var id := |attempts|;
      attempts := attempts + [NewAttempt(request, user, submission, now)];
      users := users[user := users[user].(version := users[user].version + 1)];
      r := AttemptId(id);
    }

    // ----- Leasing -----

    method LeaseAttempt(id: nat, now: int) returns (lease: Lease)
      requires id < |attempts|
      modifies this`attempts, this`nextToken
      ensures Value() == LeaseStep(old(Value()), id, now)
      ensures lease == Lease(id, old(nextToken))
    {
      var token := nextToken;
      nextToken := nextToken + 1;
      var attempt := attempts[id];
      attempt := attempt.(status := Running);
      attempt := attempt.(startedAt := Some(now));
      attempt := attempt.(token := Some(token));
      attempts := attempts[id := attempt];
      lease := Lease(id, token);
    }

    method ClaimNextAttempt(now: int, locked: set<nat>) returns (lease: Option<Lease>)
      modifies this`attempts, this`nextToken
      ensures (Value(), lease) == ClaimNextStep(config, old(Value()), now, locked)
    {
      hide Oldest, LeaseStep;
      var id := Oldest(attempts, now, config.leaseTime, locked);
      if id.None? {
        return None;
      }
      var leased := LeaseAttempt(id.value, now);
      lease := Some(leased);
    }

    method ClaimAttempt(id: nat, now: int) returns (lease: Option<Lease>)
      modifies this`attempts, this`nextToken
      ensures (Value(), lease) == ClaimOneStep(config, old(Value()), id, now)
    {
      hide LeaseStep;
      if id >= |attempts| || !Claimable(attempts[id], now, config.leaseTime) {
        return None;
      }
      var leased := LeaseAttempt(id, now);
      lease := Some(leased);
    }

    // ----- Grading -----

    method Rollback(saved: World)
      modifies this, battle
      ensures Value() == saved
    {
      attempts, nextToken, users, tasks := saved.attempts, saved.nextToken, saved.users, saved.tasks;
      completions, presentations, dailies := saved.completions, saved.presentations, saved.dailies;
      battle.Restore(saved.lobby);
    }

    /** The row of the attempt gets the verdict and loses its lease. */
    method MarkGraded(id: nat, verdict: Verdict)
      requires id < |attempts|
      modifies this`attempts
      ensures attempts == old(attempts)[id := Graded(old(attempts)[id], verdict, None)]
    {
      var attempt := attempts[id];
      attempt := attempt.(status := if verdict == SystemError then Failed else Completed);
      attempt := attempt.(correct := if verdict == SystemError then None else Some(verdict == Accepted));
      attempt := attempt.(detail := Some(verdict));
      attempt := attempt.(startedAt := None, token := None);
      attempts := attempts[id := attempt];
    }

    /** Inserts the completion unless there is one, and pays when it was inserted. */
    method PayReward(id: nat, before: World, verdict: Verdict)
      requires id < |before.attempts| && before.attempts[id].user in before.users
      requires verdict == Effective(before, before.attempts[id], verdict)
      requires attempts == before.attempts[id := Graded(before.attempts[id], verdict, None)]
      requires users == before.users && tasks == before.tasks && completions == before.completions
      modifies this`attempts, this`users, this`completions
      ensures var award := Award(before, before.attempts[id], verdict);
              && attempts == before.attempts[id := Graded(before.attempts[id], verdict, award)]
              && completions == WithCompletion(before, before.attempts[id], id, award)
              && users == before.users[before.attempts[id].user :=
                   before.users[before.attempts[id].user].(
                     balance := before.users[before.attempts[id].user].balance + Coins(award))]
    {
      hide HasCompletion, GameDate;
      var attempt := attempts[id];
      var user := users[attempt.user];
      var isAfterReset := user.resetAt.None? || attempt.attemptedAt >= user.resetAt.value;
      if verdict == Accepted && isAfterReset {
        var reward := tasks[attempt.submission.task].reward;
        var date := GameDate(attempt.attemptedAt);
        if !HasCompletion(completions, attempt.user, attempt.submission.task, date) {
          completions := completions + [Completion(attempt.user, attempt.submission.task, date, id, reward)];
          attempts := attempts[id := attempt.(coins := reward)];
          users := users[attempt.user := user.(balance := user.balance + reward)];
        }
      }
    }

    /** A correct attempt completes its presentation and its daily task; false when the daily task is missing. */
    method CompleteContext(attempt: Attempt, verdict: Verdict, ghost before: World) returns (ok: bool)
      requires presentations == before.presentations && dailies == before.dailies
      modifies this`presentations, this`dailies
      ensures ok <==> (verdict == Accepted ==> WithDaily(before, attempt).Some?)
      ensures ok ==> dailies == (if verdict == Accepted then WithDaily(before, attempt).value else before.dailies)
      ensures ok ==>
              presentations == if verdict == Accepted then WithPresentation(before, attempt) else before.presentations
    {
      if verdict == Accepted {
        var shown := attempt.submission.presentation;
        if shown.Some? && shown.value in presentations {
          presentations := presentations[shown.value := presentations[shown.value].(completed := true)];
        }
        if attempt.submission.context.Daily? {
          var daily := attempt.submission.context.attendanceTask;
          if daily !in dailies {
            return false;
          }
          dailies := dailies[daily := dailies[daily].(done := true)];
        }
      }
      ok := true;
    }

    /** A graded battle attempt counts in its room; false when a row is missing. */
    method RecordBattle(id: nat, ghost before: World) returns (ok: bool)
      requires id < |attempts| && battle.Value() == before.lobby
      modifies battle
      ensures ok <==> WithBattle(config, before, attempts, id).Some?
      ensures ok ==> battle.Value() == WithBattle(config, before, attempts, id).value
    {
      hide RecordResult;
      ok := true;
      if attempts[id].submission.context.Battle? && attempts[id].correct.Some? {
        ok := battle.RecordAttemptResult(config.score, attempts, id);
      }
    }

    method AdvanceStateVersion(user: int)
      requires user in users
      modifies this`users
      ensures users == old(users)[user := old(users)[user].(version := old(users)[user].version + 1)]
    {
      users := users[user := users[user].(version := users[user].version + 1)];
    }

    /** Writes the result of a lease that is still current; any missing row rolls everything back. */
    method PersistResult(lease: Lease, verdict: Verdict) returns (done: bool)
      requires lease.id < |attempts| ==> verdict == Effective(Value(), attempts[lease.id], verdict)
      modifies this, battle
      ensures (Value(), done) == PersistStep(config, old(Value()), lease, verdict)
    {
      hide Award, Effective, WithCompletion, WithBattle, WithDaily, WithPresentation, Graded, Coins;
      var saved := Value();
      if !Current(attempts, lease) {
        return false;
      }
      var attempt := attempts[lease.id];
      MarkGraded(lease.id, verdict);
      if attempt.user !in users {
        Rollback(saved);
        return false;
      }
      PayReward(lease.id, saved, verdict);
      var completed := CompleteContext(attempt, verdict, saved);
      if !completed {
        Rollback(saved);
        return false;
      }
      var recorded := RecordBattle(lease.id, saved);
      if !recorded {
        Rollback(saved);
        return false;
      }
      AdvanceStateVersion(attempt.user);
      ghost var owner, award := saved.users[attempt.user], Award(saved, attempt, verdict);
      assert users == saved.users[attempt.user :=
          owner.(balance := owner.balance + Coins(award), version := owner.version + 1)];
      done := true;
    }

    /** The verdict of a lease that is still current; an attempt whose task is missing is a system failure. */
    method GradeClaimedAttempt(lease: Lease, verdict: Verdict) returns (done: bool)
      modifies this, battle
      ensures (Value(), done) == PersistStep(config, old(Value()), lease, verdict)
    {
      if !Current(attempts, lease) {
        return false;
      }
      EffectiveTwice(config, Value(), lease, verdict);
      var result := if attempts[lease.id].submission.task in tasks then verdict else SystemError;
      hide PersistStep;
      done := PersistResult(lease, result);
    }

    // ----- Learning reset -----

    method ResetLearningProgress(user: int, now: int) returns (ok: bool)
      modifies this`users, this`dailies
      ensures Value() == ResetStep(old(Value()), user, now)
      ensures ok <==> user in old(users)
    {
      if user !in users {
        return false;
      }
      users := users[user := users[user].(resetAt := Some(now))];
      dailies := Undone(dailies, user);
      users := users[user := users[user].(version := users[user].version + 1)];
      ok := true;
    }

    // ----- The worker -----

    /** Claims and grades in turn, reading the clock for each claim; counts the results that were accepted. */
    method RunWorker(turns: seq<Progress.Turn>) returns (graded: nat)
      modifies this, battle
      ensures Value() == Progress.Rounds(config, old(Value()), turns)
      ensures Unfinished(attempts) + graded == Unfinished(old(attempts))
    {
      hide ClaimNextStep, PersistStep, Unfinished;
      graded := 0;
      for i := 0 to |turns|
        invariant Value() == Progress.Rounds(config, old(Value()), turns[..i])
        invariant Unfinished(attempts) + graded == Unfinished(old(attempts))
      {
        assert turns[..i + 1][..i] == turns[..i];
        var now, verdict := turns[i].now, turns[i].verdict;
        Progress.ClaimKeepsUnfinished(config, Value(), now, {});
        var lease := ClaimNextAttempt(now, {});
        if lease.Some? {
          ghost var claimed := Value();
          var done := GradeClaimedAttempt(lease.value, verdict);
          if done {
            Progress.PersistDrops(config, claimed, lease.value, verdict);
            graded := graded + 1;
          } else {
            RefusedChangesNothing(config, claimed, lease.value, verdict);
          }
        }
      }
      assert turns[..|turns|] == turns;
    }
  }

  lemma {:induction false} RefusedChangesNothing(cfg: Config, w: World, lease: Lease, verdict: Verdict)
    ensures !PersistStep(cfg, w, lease, verdict).1 ==> PersistStep(cfg, w, lease, verdict).0 == w
  {
  }
}
