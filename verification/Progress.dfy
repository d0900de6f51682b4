/** No attempt is lost: a current lease can always be used, and a worker drains any finite queue. */
module Progress {
  import opened Common
  import opened Attempts
  import opened Battle
  import opened Grading
  import opened Fencing

  /** The rows an attempt refers to. */
  ghost predicate RefersOk(w: World, a: Attempt) {
    && a.user in w.users
    && (a.submission.context.Daily? ==> a.submission.context.attendanceTask in w.dailies)
    && (a.submission.context.Battle? ==>
          && a.submission.context.roomTask in w.lobby.roomTasks
          && (w.lobby.roomTasks[a.submission.context.roomTask].room, a.user) in w.lobby.participants)
  }

  ghost predicate RefsOk(w: World) {
    forall i :: 0 <= i < |w.attempts| ==> RefersOk(w, w.attempts[i])
  }

  /** Rows that attempts refer to are never removed, and room tasks never change. */
  ghost predicate Grows(before: World, after: World) {
    && before.users.Keys <= after.users.Keys && before.dailies.Keys <= after.dailies.Keys
    && before.lobby.participants.Keys <= after.lobby.participants.Keys
    && (forall t :: t in before.lobby.roomTasks ==>
        t in after.lobby.roomTasks && after.lobby.roomTasks[t] == before.lobby.roomTasks[t])
  }

  lemma {:induction false} WithTasksKeeps(roomTasks: map<int, RoomTask>, room: int, tasks: seq<int>, ids: seq<int>,
                                          n: nat)
    requires n <= |tasks| && n <= |ids| && forall i :: 0 <= i < n ==> ids[i] !in roomTasks
    ensures forall t :: t in roomTasks ==>
              && t in WithTasks(roomTasks, room, tasks, ids, n)
              && WithTasks(roomTasks, room, tasks, ids, n)[t] == roomTasks[t]
  {
    if n > 0 {
      WithTasksKeeps(roomTasks, room, tasks, ids, n - 1);
    }
  }

  lemma {:induction false} PersistGrows(cfg: Config, w: World, lease: Lease, verdict: Verdict)
    ensures Grows(w, PersistStep(cfg, w, lease, verdict).0)
  {
  }

  lemma {:induction false} LobbyStepsGrow(cfg: Config, w: World, e: Event)
    requires e.CreateRoom? || e.JoinRoom? || e.SetReady? || e.StartRoom?
    ensures Grows(w, Step(cfg, w, e))
  {
    hide Members;
    match e
    case CreateRoom(_, _, _) =>
    case JoinRoom(_, _) =>
    case SetReady(_, _, _) =>
    case StartRoom(user, room, tasks, ids) =>
      if FreshIds(w.lobby, ids, |tasks|) {
        WithTasksKeeps(w.lobby.roomTasks, room, tasks, ids, |tasks|);
      }
      hide WithTasks;
  }

  lemma {:induction false} StepGrows(cfg: Config, w: World, e: Event)
    ensures Grows(w, Step(cfg, w, e))
  {
    hide ChangeOf;
    if e.CreateRoom? || e.JoinRoom? || e.SetReady? || e.StartRoom? {
      LobbyStepsGrow(cfg, w, e);
    } else if e.Grade? {
      PersistGrows(cfg, w, e.lease, e.verdict);
      hide PersistStep, Grows;
    } else {
      hide SubmissionError, Oldest, Claimable;
    }
  }

  lemma {:induction false} RefersGrow(before: World, after: World, a: Attempt, b: Attempt)
    requires Grows(before, after) && RefersOk(before, a) && a.user == b.user && a.submission == b.submission
    ensures RefersOk(after, b)
  {
  }

  lemma {:induction false} CreateRefers(w: World, request: int, user: int, s: Submission, now: int, unlocked: bool)
    requires RefsOk(w)
    ensures RefsOk(CreateStep(w, request, user, s, now, unlocked).0)
  {
  }

  lemma {:induction false} RefsStep(cfg: Config, w: World, e: Event)
    requires RefsOk(w)
    ensures RefsOk(Step(cfg, w, e))
  {
    if e.Create? {
      CreateRefers(w, e.request, e.user, e.submission, e.createdAt, e.unlocked);
      hide CreateStep, RefsOk;
    } else {
      var after := Step(cfg, w, e);
      StepGrows(cfg, w, e);
      StepMoves(cfg, w, e);
      NothingAppended(cfg, w, e);
      hide Step, RefersOk, Grows, ChangeOf, Claimable;
      forall i | 0 <= i < |after.attempts|
        ensures RefersOk(after, after.attempts[i])
      {
        RefersGrow(w, after, w.attempts[i], after.attempts[i]);
      }
    }
  }

  lemma {:induction false} RefsRun(cfg: Config, events: seq<Event>)
    ensures RefsOk(Run(cfg, EMPTY, events))
  {
    if events != [] {
      RefsRun(cfg, events[..|events| - 1]);
      RefsStep(cfg, Run(cfg, EMPTY, events[..|events| - 1]), events[|events| - 1]);
      RunLast(cfg, EMPTY, events);
      hide Run, Step, RefsOk;
    }
  }

  /** Presenting a current lease always succeeds: the error branches cannot be reached. */
  lemma {:induction false} CurrentLeaseSucceeds(cfg: Config, w: World, lease: Lease, verdict: Verdict)
    requires RefsOk(w)
    ensures PersistStep(cfg, w, lease, verdict).1 <==> Current(w.attempts, lease)
  {
  }

  /** In every reachable state a result is accepted exactly when its lease is current. */
  lemma {:induction false} AcceptedIffCurrent(cfg: Config, events: seq<Event>, lease: Lease, verdict: Verdict)
    ensures PersistStep(cfg, Run(cfg, EMPTY, events), lease, verdict).1
            <==> Current(Run(cfg, EMPTY, events).attempts, lease)
  {
    RefsRun(cfg, events);
    hide Run;
    CurrentLeaseSucceeds(cfg, Run(cfg, EMPTY, events), lease, verdict);
  }

  // ----- Draining -----

  /** One round of a worker that is not held up: claim, then grade what was claimed. */
  function Round(cfg: Config, w: World, now: int, verdict: Verdict): World {
    var (claimed, lease) := ClaimNextStep(cfg, w, now, {});
    if lease.None? then claimed else PersistStep(cfg, claimed, lease.value, verdict).0
  }

  /** Every attempt still to be graded can be claimed now: the leases of crashed workers have run out. */
  ghost predicate AllClaimable(attempts: seq<Attempt>, now: int, leaseTime: nat) {
    forall i :: 0 <= i < |attempts| && !Terminal(attempts[i]) ==> Claimable(attempts[i], now, leaseTime)
  }

  lemma {:induction false} ClaimRefers(cfg: Config, w: World, now: int)
    requires RefsOk(w)
    ensures RefsOk(ClaimNextStep(cfg, w, now, {}).0)
  {
  }

  /** A result that is accepted grades its attempt and touches no other. */
  lemma {:induction false} GradesOne(cfg: Config, w: World, lease: Lease, verdict: Verdict)
    requires PersistStep(cfg, w, lease, verdict).1
    ensures lease.id < |w.attempts| && !Terminal(w.attempts[lease.id])
    ensures exists a :: Terminal(a) && PersistStep(cfg, w, lease, verdict).0.attempts == w.attempts[lease.id := a]
  {
    PersistMoves(cfg, w, lease, verdict);
    hide PersistStep;
    var v, award :| PersistStep(cfg, w, lease, verdict).0.attempts
        == w.attempts[lease.id := Graded(w.attempts[lease.id], v, award)];
    assert Terminal(Graded(w.attempts[lease.id], v, award));
  }

  /** Every accepted result leaves one attempt less to grade. */
  lemma {:induction false} PersistDrops(cfg: Config, w: World, lease: Lease, verdict: Verdict)
    requires PersistStep(cfg, w, lease, verdict).1
    ensures Unfinished(w.attempts) > 0
    ensures Unfinished(PersistStep(cfg, w, lease, verdict).0.attempts) == Unfinished(w.attempts) - 1
  {
    GradesOne(cfg, w, lease, verdict);
    hide PersistStep, Unfinished;
    var a :| Terminal(a) && PersistStep(cfg, w, lease, verdict).0.attempts == w.attempts[lease.id := a];
    UnfinishedUpdate(w.attempts, lease.id, a);
  }

  /** Claiming leaves the number of unfinished attempts as it is. */
  lemma {:induction false} ClaimKeepsUnfinished(cfg: Config, w: World, now: int, locked: set<nat>)
    ensures Unfinished(ClaimNextStep(cfg, w, now, locked).0.attempts) == Unfinished(w.attempts)
  {
    OldestIsLeast(w.attempts, now, cfg.leaseTime, locked);
    var id := Oldest(w.attempts, now, cfg.leaseTime, locked);
    hide Oldest, Unfinished;
    if id.Some? {
      UnfinishedUpdate(w.attempts, id.value, Leased(w.attempts[id.value], now, w.nextToken));
    }
  }

  lemma {:induction false} ClaimedIsCurrent(cfg: Config, w: World, now: int)
    requires ClaimNextStep(cfg, w, now, {}).1.Some?
    ensures var (claimed, lease) := ClaimNextStep(cfg, w, now, {});
            && Oldest(w.attempts, now, cfg.leaseTime, {}) == Some(lease.value.id) && lease.value.id < |w.attempts|
            && Current(claimed.attempts, lease.value)
            && |claimed.attempts| == |w.attempts|
            && forall i :: 0 <= i < |w.attempts| && i != lease.value.id ==> claimed.attempts[i] == w.attempts[i]
  {
  }

  /** A round grades the oldest attempt and touches no other. */
  lemma {:induction false} RoundGradesOne(cfg: Config, w: World, now: int, verdict: Verdict)
    requires RefsOk(w)
    ensures RefsOk(Round(cfg, w, now, verdict))
    ensures var id := Oldest(w.attempts, now, cfg.leaseTime, {});
            if id.None? then Round(cfg, w, now, verdict) == w
            else
              && !Terminal(w.attempts[id.value])
              && exists a :: Terminal(a) && Round(cfg, w, now, verdict).attempts == w.attempts[id.value := a]
  {
    OldestIsLeast(w.attempts, now, cfg.leaseTime, {});
    ClaimRefers(cfg, w, now);
    if ClaimNextStep(cfg, w, now, {}).1.Some? {
      ClaimedIsCurrent(cfg, w, now);
      hide RefsOk, PersistStep, Oldest, ClaimNextStep, Step;
      var (claimed, lease) := ClaimNextStep(cfg, w, now, {});
      CurrentLeaseSucceeds(cfg, claimed, lease.value, verdict);
      GradesOne(cfg, claimed, lease.value, verdict);
      GradeRefers(cfg, claimed, lease.value, verdict);
      var a :| Terminal(a)
          && PersistStep(cfg, claimed, lease.value, verdict).0.attempts == claimed.attempts[lease.value.id := a];
      assert claimed.attempts[lease.value.id := a] == w.attempts[lease.value.id := a];
      assert Round(cfg, w, now, verdict).attempts == w.attempts[lease.value.id := a];
    }
  }

  lemma {:induction false} GradeRefers(cfg: Config, w: World, lease: Lease, verdict: Verdict)
    requires RefsOk(w)
    ensures RefsOk(PersistStep(cfg, w, lease, verdict).0)
  {
  }

  /** What is claimable stays so as the clock goes on. */
  lemma {:induction false} StillClaimable(attempts: seq<Attempt>, from: int, now: int, leaseTime: nat)
    requires AllClaimable(attempts, from, leaseTime) && from <= now
    ensures AllClaimable(attempts, now, leaseTime)
  {
  }

  lemma {:induction false} RoundDrops(cfg: Config, w: World, from: int, now: int, verdict: Verdict)
    requires RefsOk(w) && AllClaimable(w.attempts, from, cfg.leaseTime) && from <= now
    ensures RefsOk(Round(cfg, w, now, verdict))
    ensures AllClaimable(Round(cfg, w, now, verdict).attempts, from, cfg.leaseTime)
    ensures Unfinished(Round(cfg, w, now, verdict).attempts) == Max(0, Unfinished(w.attempts) - 1)
  {
    StillClaimable(w.attempts, from, now, cfg.leaseTime);
    RoundGradesOne(cfg, w, now, verdict);
    OldestIsLeast(w.attempts, now, cfg.leaseTime, {});
    UnfinishedZero(w.attempts);
    hide Round, RefsOk, Claimable, Oldest;
    var id := Oldest(w.attempts, now, cfg.leaseTime, {});
    if id.Some? {
      var a :| Terminal(a) && Round(cfg, w, now, verdict).attempts == w.attempts[id.value := a];
      UnfinishedUpdate(w.attempts, id.value, a);
    }
  }

  /** What one round of the worker's loop depends on: the clock at the claim and what the runner says. */
  datatype Turn = Turn(now: int, verdict: Verdict)

  function Rounds(cfg: Config, w: World, turns: seq<Turn>): World {
    if turns == [] then w
    else
      var last := turns[|turns| - 1];
      Round(cfg, Rounds(cfg, w, turns[..|turns| - 1]), last.now, last.verdict)
  }

  /** One worker's queue as it drains: everything left can be claimed, and so many are left. */
  ghost predicate Draining(cfg: Config, w: World, from: int, left: int) {
    RefsOk(w) && AllClaimable(w.attempts, from, cfg.leaseTime) && Unfinished(w.attempts) == left
  }

  lemma {:induction false} RoundDrains(cfg: Config, w: World, from: int, turn: Turn, left: int)
    requires Draining(cfg, w, from, left) && from <= turn.now
    ensures Draining(cfg, Round(cfg, w, turn.now, turn.verdict), from, Max(0, left - 1))
  {
    hide RefsOk, AllClaimable, Round;
    RoundDrops(cfg, w, from, turn.now, turn.verdict);
  }

  /**
   Once all leases have run out, one worker grades the whole queue in as many rounds as there are unfinished
   attempts.
   */
  lemma {:induction false} WorkerDrains(cfg: Config, w: World, from: int, turns: seq<Turn>, left: nat)
    requires Draining(cfg, w, from, left) && forall k :: 0 <= k < |turns| ==> turns[k].now >= from
    ensures Draining(cfg, Rounds(cfg, w, turns), from, Max(0, left - |turns|))
  {
    hide Draining, Round;
    if turns != [] {
      var earlier, last := turns[..|turns| - 1], turns[|turns| - 1];
      WorkerDrains(cfg, w, from, earlier, left);
      RoundDrains(cfg, Rounds(cfg, w, earlier), from, last, Max(0, left - |earlier|));
    }
  }

  // ----- Any reachable state drains -----

  /** No lease was issued after the given time. */
  ghost predicate LeasedBy(attempts: seq<Attempt>, last: int) {
    forall i :: 0 <= i < |attempts| && attempts[i].startedAt.Some? ==> attempts[i].startedAt.value <= last
  }

  lemma {:induction false} LeasedByStep(cfg: Config, w: World, e: Event, last: int)
    requires LeasedBy(w.attempts, last) && (ClaimTime(e).Some? ==> ClaimTime(e).value <= last)
    ensures LeasedBy(Step(cfg, w, e).attempts, last)
  {
    if e.ClaimNext? || e.ClaimOne? {
      hide Oldest, Claimable;
    } else {
      StepMoves(cfg, w, e);
      hide Step;
    }
  }

  lemma {:induction false} LeasedByRun(cfg: Config, events: seq<Event>, last: int)
    requires forall k :: 0 <= k < |events| && ClaimTime(events[k]).Some? ==> ClaimTime(events[k]).value <= last
    ensures LeasedBy(Run(cfg, EMPTY, events).attempts, last)
  {
    if events != [] {
      LeasedByRun(cfg, events[..|events| - 1], last);
      LeasedByStep(cfg, Run(cfg, EMPTY, events[..|events| - 1]), events[|events| - 1], last);
      RunLast(cfg, EMPTY, events);
      hide Run, Step, LeasedBy;
    }
  }

  /** One lease time after the last lease everything unfinished can be claimed. */
  lemma {:induction false} AllClaimableLater(attempts: seq<Attempt>, last: int, now: int, leaseTime: nat)
    requires now > last + leaseTime && LeasedBy(attempts, last)
    ensures AllClaimable(attempts, now, leaseTime)
  {
    forall i | 0 <= i < |attempts| && !Terminal(attempts[i])
      ensures Claimable(attempts[i], now, leaseTime)
    {
      NothingIsLost(attempts[i], now, leaseTime);
    }
  }

  /**
   Every reachable state drains: a worker whose rounds come more than one lease time after the last
   claim of the run, each reading the clock for itself, has graded everything after as many rounds
   as there are unfinished attempts, whatever crashed before.
   */
  lemma {:induction false} ReachableDrains(cfg: Config, events: seq<Event>, last: int, turns: seq<Turn>)
    requires forall k :: 0 <= k < |events| && ClaimTime(events[k]).Some? ==> ClaimTime(events[k]).value <= last
    requires forall k :: 0 <= k < |turns| ==> turns[k].now > last + cfg.leaseTime
    ensures var (w, after) := (Run(cfg, EMPTY, events), Rounds(cfg, Run(cfg, EMPTY, events), turns));
            && Unfinished(after.attempts) == Max(0, Unfinished(w.attempts) - |turns|)
            && (|turns| >= Unfinished(w.attempts) ==> forall i :: 0 <= i < |after.attempts| ==>
                Terminal(after.attempts[i]))
  {
    hide *;
    var w := Run(cfg, EMPTY, events);
    var from := last + cfg.leaseTime + 1;
    RefsRun(cfg, events);
    LeasedByRun(cfg, events, last);
    AllClaimableLater(w.attempts, last, from, cfg.leaseTime);
    DrainingMeans(cfg, w, from, Unfinished(w.attempts));
    WorkerDrains(cfg, w, from, turns, Unfinished(w.attempts));
    DrainingMeans(cfg, Rounds(cfg, w, turns), from, Max(0, Unfinished(w.attempts) - |turns|));
    UnfinishedZero(Rounds(cfg, w, turns).attempts);
    MaxOfZero(Unfinished(w.attempts) - |turns|);
  }

  lemma {:induction false} DrainingMeans(cfg: Config, w: World, from: int, left: int)
    ensures Draining(cfg, w, from, left)
            <==> RefsOk(w) && AllClaimable(w.attempts, from, cfg.leaseTime) && Unfinished(w.attempts) == left
  {
    hide RefsOk, AllClaimable, Unfinished;
  }

  lemma {:induction false} MaxOfZero(n: int)
    ensures Max(0, n) >= 0 && (n <= 0 ==> Max(0, n) == 0)
  {
  }
}
