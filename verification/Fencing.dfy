/** Leases over every run: any number of workers, claims again after expiry, crashes and stale results. */
module Fencing {
  import opened Common
  import opened Attempts
  import opened Battle
  import opened Grading

  // ----- What a step does to the queue -----

  datatype Change = Quiet | Issued(id: nat, token: nat) | Persisted(id: nat, token: nat)

  function ChangeOf(cfg: Config, w: World, e: Event): Change {
    match e
    case ClaimNext(now, locked) =>
      var lease := ClaimNextStep(cfg, w, now, locked).1;
      if lease.Some? then Issued(lease.value.id, lease.value.token) else Quiet
    case ClaimOne(id, now) =>
      var lease := ClaimOneStep(cfg, w, id, now).1;
      if lease.Some? then Issued(lease.value.id, lease.value.token) else Quiet
    case Grade(lease, verdict) =>
        if PersistStep(cfg, w, lease, verdict).1 then Persisted(lease.id, lease.token) else Quiet
    case _ => Quiet
  }

  /** The part of an attempt that its submission fixes. */
  predicate SameSubmission(a: Attempt, b: Attempt) {
    a.request == b.request && a.user == b.user && a.submission == b.submission && a.attemptedAt == b.attemptedAt
  }

  ghost predicate Appended(before: seq<Attempt>, after: seq<Attempt>) {
    after == before || (|after| == |before| + 1 && after[..|before|] == before
                        && exists request, user, submission, now ::
                             after[|before|] == NewAttempt(request, user, submission, now))
  }

  /** How the attempts and the token counter change. */
  ghost predicate Moves(before: seq<Attempt>, token: nat, after: seq<Attempt>, token': nat, c: Change) {
    match c
    case Quiet => token' == token && Appended(before, after)
    case Issued(id, t) =>
      && t == token && token' == token + 1 && id < |before| && !Terminal(before[id])
      && exists now :: after == before[id := Leased(before[id], now, t)]
    case Persisted(id, t) =>
      && token' == token && Current(before, Lease(id, t))
      && exists v, award :: after == before[id := Graded(before[id], v, award)]
  }

  lemma {:induction false} ClaimMoves(cfg: Config, w: World, id: nat, now: int)
    requires id < |w.attempts| && Claimable(w.attempts[id], now, cfg.leaseTime)
    ensures Moves(w.attempts, w.nextToken, LeaseStep(w, id, now).attempts, LeaseStep(w, id, now).nextToken,
                  Issued(id, w.nextToken))
  {
  }

  lemma {:induction false} PersistMoves(cfg: Config, w: World, lease: Lease, verdict: Verdict)
    ensures var (after, done) := PersistStep(cfg, w, lease, verdict);
            && (done ==>
                Moves(w.attempts, w.nextToken, after.attempts, after.nextToken, Persisted(lease.id, lease.token)))
            && (!done ==> after == w)
  {
  }

  lemma {:induction false} CreateMoves(w: World, request: int, user: int, s: Submission, now: int, unlocked: bool)
    ensures Appended(w.attempts, CreateStep(w, request, user, s, now, unlocked).0.attempts)
    ensures CreateStep(w, request, user, s, now, unlocked).0.nextToken == w.nextToken
  {
  }

  lemma {:induction false} StepMoves(cfg: Config, w: World, e: Event)
    ensures Moves(w.attempts, w.nextToken, Step(cfg, w, e).attempts, Step(cfg, w, e).nextToken, ChangeOf(cfg, w, e))
  {
    match e
    case Create(request, user, submission, now, unlocked) =>
      CreateMoves(w, request, user, submission, now, unlocked);
      hide CreateStep, Appended;
    case ClaimNext(now, locked) =>
      OldestIsLeast(w.attempts, now, cfg.leaseTime, locked);
      var id := Oldest(w.attempts, now, cfg.leaseTime, locked);
      hide Oldest, Claimable;
      if id.Some? {
        ClaimMoves(cfg, w, id.value, now);
      }
      hide Moves;
      if id.None? {
        NothingMoves(w);
      }
    case ClaimOne(id, now) =>
      if id < |w.attempts| && Claimable(w.attempts[id], now, cfg.leaseTime) {
        ClaimMoves(cfg, w, id, now);
      }
    case Grade(lease, verdict) =>
      PersistMoves(cfg, w, lease, verdict);
      hide PersistStep, Moves;
      NothingMoves(w);
    case _ =>
      hide CreateRoomStep, JoinRoomStep, SetReadyStep, StartRoomStep;
  }

  lemma {:induction false} NothingMoves(w: World)
    ensures Moves(w.attempts, w.nextToken, w.attempts, w.nextToken, Quiet)
  {
  }

  // ----- The history of an attempt -----

  /** What every event of a run did to the queue. */
  function History(cfg: Config, w: World, events: seq<Event>): (log: seq<Change>)
    ensures |log| == |events|
  {
    if events == [] then []
    else
      var earlier := events[..|events| - 1];
      History(cfg, w, earlier) + [ChangeOf(cfg, Run(cfg, w, earlier), events[|events| - 1])]
  }

  predicate About(c: Change, id: nat) {
    !c.Quiet? && c.id == id
  }

  /** The last thing that happened to an attempt. */
  function LastAbout(log: seq<Change>, id: nat): Change {
    if log == [] then Quiet
    else if About(log[|log| - 1], id) then log[|log| - 1]
    else LastAbout(log[..|log| - 1], id)
  }

  lemma {:induction false} LastAboutAppend(log: seq<Change>, c: Change, id: nat)
    ensures LastAbout(log + [c], id) == if About(c, id) then c else LastAbout(log, id)
  {
  }

  /** An attempt is as its history says: pending, running with the token issued last, or graded. */
  ghost predicate Agrees(a: Attempt, last: Change, nextToken: nat) {
    match last
    case Quiet => a.status == Pending && a.token == None
    case Issued(_, token) => a.status == Running && a.token == Some(token) && a.startedAt.Some? && token < nextToken
    case Persisted(_, _) => Terminal(a) && a.token == None
  }

  ghost predicate HistoryAgrees(attempts: seq<Attempt>, nextToken: nat, log: seq<Change>) {
    && (forall id :: 0 <= id < |attempts| ==> Agrees(attempts[id], LastAbout(log, id), nextToken))
    && (forall id: nat :: id >= |attempts| ==> LastAbout(log, id) == Quiet)
  }

  lemma {:induction false} MoveAgrees(before: seq<Attempt>, token: nat, log: seq<Change>, after: seq<Attempt>,
                                      token': nat, c: Change)
    requires HistoryAgrees(before, token, log) && Moves(before, token, after, token', c)
    ensures HistoryAgrees(after, token', log + [c])
  {
  }

  lemma {:induction false} RunAgrees(cfg: Config, events: seq<Event>)
    ensures HistoryAgrees(Run(cfg, EMPTY, events).attempts, Run(cfg, EMPTY, events).nextToken,
                          History(cfg, EMPTY, events))
  {
    if events != [] {
      var earlier, e := events[..|events| - 1], events[|events| - 1];
      RunAgrees(cfg, earlier);
      var w := Run(cfg, EMPTY, earlier);
      StepMoves(cfg, w, e);
      RunLast(cfg, EMPTY, events);
      HistoryLast(cfg, EMPTY, events);
      hide Run, History, Step, ChangeOf, Moves, HistoryAgrees;
      MoveAgrees(w.attempts, w.nextToken, History(cfg, EMPTY, earlier),
                 Step(cfg, w, e).attempts, Step(cfg, w, e).nextToken, ChangeOf(cfg, w, e));
    }
  }

  lemma {:induction false} HistoryLast(cfg: Config, w: World, events: seq<Event>)
    requires events != []
    ensures History(cfg, w, events) == History(cfg, w, events[..|events| - 1])
            + [ChangeOf(cfg, Run(cfg, w, events[..|events| - 1]), events[|events| - 1])]
  {
  }

  /** A lease token exists exactly while the attempt is running, and it is the one issued last. */
  lemma {:induction false} TokenIffRunning(cfg: Config, events: seq<Event>, id: nat)
    requires id < |Run(cfg, EMPTY, events).attempts|
    ensures var a := Run(cfg, EMPTY, events).attempts[id];
            && (a.token.Some? <==> a.status == Running)
            && (a.token.Some? ==> LastAbout(History(cfg, EMPTY, events), id) == Issued(id, a.token.value))
  {
    RunAgrees(cfg, events);
    hide Run, History;
    LastIsAbout(History(cfg, EMPTY, events), id);
  }

  lemma {:induction false} LastIsAbout(log: seq<Change>, id: nat)
    ensures LastAbout(log, id).Quiet? || (LastAbout(log, id) in log && About(LastAbout(log, id), id))
  {
    if log != [] {
      LastIsAbout(log[..|log| - 1], id);
    }
  }

  /**
   Fencing: in every run, when a result is persisted, the token it is persisted with is the last one
   issued for the attempt, nothing was persisted for it before, and nothing happens to it afterwards.
   */
  lemma {:induction false} PersistedOnceByLastToken(cfg: Config, events: seq<Event>, i: nat, j: nat)
    requires i < |events| && History(cfg, EMPTY, events)[i].Persisted?
    ensures var log := History(cfg, EMPTY, events);
            && LastAbout(log[..i], log[i].id) == Issued(log[i].id, log[i].token)
            && (i < j < |events| ==> !About(log[j], log[i].id))
            && (j < i ==> !(log[j].Persisted? && log[j].id == log[i].id))
    decreases j
  {
    var log := History(cfg, EMPTY, events);
    var id := log[i].id;
    HistoryPrefix(cfg, EMPTY, events, i);
    RunAgrees(cfg, events[..i]);
    StepMoves(cfg, Run(cfg, EMPTY, events[..i]), events[i]);
    hide Run, History, Step, ChangeOf;
    LastIsAbout(log[..i], id);
    if i < j < |events| {
      AfterPersisted(cfg, events, i, j);
    }
    if j < i && log[j].Persisted? && log[j].id == id {
      AfterPersisted(cfg, events, j, i);
    }
  }

  lemma {:induction false} HistoryPrefix(cfg: Config, w: World, events: seq<Event>, i: nat)
    requires i < |events|
    ensures History(cfg, w, events)[..i] == History(cfg, w, events[..i])
    ensures History(cfg, w, events)[i] == ChangeOf(cfg, Run(cfg, w, events[..i]), events[i])
  {
    var earlier := events[..|events| - 1];
    HistoryLast(cfg, w, events);
    hide ChangeOf, Run, History;
    if i < |earlier| {
      HistoryPrefix(cfg, w, earlier, i);
      assert earlier[..i] == events[..i];
      assert History(cfg, w, events)[..i] == History(cfg, w, earlier)[..i];
    } else {
      assert earlier == events[..i];
    }
  }

  /** Once graded, the last thing that happened to an attempt stays its grading. */
  lemma {:induction false} StaysPersisted(cfg: Config, events: seq<Event>, i: nat, j: nat)
    requires i < j <= |events| && History(cfg, EMPTY, events)[i].Persisted?
    ensures LastAbout(History(cfg, EMPTY, events)[..j], History(cfg, EMPTY, events)[i].id)
            == History(cfg, EMPTY, events)[i]
    decreases j
  {
    var log := History(cfg, EMPTY, events);
    var id := log[i].id;
    var n := j - 1;
    assert log[..j] == log[..n] + [log[n]];
    LastAboutAppend(log[..n], log[n], id);
    if i < n {
      StaysPersisted(cfg, events, i, n);
      NotAfterPersisted(cfg, events, n, id);
    }
  }

  /** After a grading, the next event is not about that attempt. */
  lemma {:induction false} NotAfterPersisted(cfg: Config, events: seq<Event>, n: nat, id: nat)
    requires n < |events| && LastAbout(History(cfg, EMPTY, events)[..n], id).Persisted?
    ensures !About(History(cfg, EMPTY, events)[n], id)
  {
    HistoryPrefix(cfg, EMPTY, events, n);
    RunAgrees(cfg, events[..n]);
    StepMoves(cfg, Run(cfg, EMPTY, events[..n]), events[n]);
    hide Run, History, Step, ChangeOf, LastAbout;
  }

  lemma {:induction false} AfterPersisted(cfg: Config, events: seq<Event>, i: nat, j: nat)
    requires i < j < |events| && History(cfg, EMPTY, events)[i].Persisted?
    ensures !About(History(cfg, EMPTY, events)[j], History(cfg, EMPTY, events)[i].id)
  {
    StaysPersisted(cfg, events, i, j);
    NotAfterPersisted(cfg, events, j, History(cfg, EMPTY, events)[i].id);
  }

  // ----- Any run from any state -----

  /** A graded attempt never changes again, in any field. */
  lemma {:induction false} GradedIsFinal(cfg: Config, w: World, events: seq<Event>, id: nat)
    requires id < |w.attempts| && Terminal(w.attempts[id])
    ensures id < |Run(cfg, w, events).attempts| && Run(cfg, w, events).attempts[id] == w.attempts[id]
  {
    if events != [] {
      var earlier, e := events[..|events| - 1], events[|events| - 1];
      GradedIsFinal(cfg, w, earlier, id);
      StepMoves(cfg, Run(cfg, w, earlier), e);
      RunLast(cfg, w, events);
      hide Run, Step, ChangeOf;
    }
  }

  /** What an attempt was submitted as never changes, and attempts are never removed. */
  lemma {:induction false} SubmissionsStay(cfg: Config, w: World, events: seq<Event>, id: nat)
    requires id < |w.attempts|
    ensures id < |Run(cfg, w, events).attempts| && SameSubmission(Run(cfg, w, events).attempts[id], w.attempts[id])
  {
    if events != [] {
      var earlier, e := events[..|events| - 1], events[|events| - 1];
      SubmissionsStay(cfg, w, earlier, id);
      StepMoves(cfg, Run(cfg, w, earlier), e);
      RunLast(cfg, w, events);
      hide Run, Step, ChangeOf;
    }
  }

  lemma {:induction false} StaleStep(before: seq<Attempt>, token: nat, after: seq<Attempt>, token': nat, c: Change,
                                     lease: Lease)
    requires Moves(before, token, after, token', c) && lease.token < token && !Current(before, lease)
    ensures lease.token < token' && !Current(after, lease)
  {
  }

  lemma {:induction false} StaysStale(cfg: Config, w: World, events: seq<Event>, lease: Lease)
    requires lease.token < w.nextToken && !Current(w.attempts, lease)
    ensures lease.token < Run(cfg, w, events).nextToken && !Current(Run(cfg, w, events).attempts, lease)
  {
    if events != [] {
      var earlier, e := events[..|events| - 1], events[|events| - 1];
      StaysStale(cfg, w, earlier, lease);
      var before := Run(cfg, w, earlier);
      StepMoves(cfg, before, e);
      RunLast(cfg, w, events);
      hide Run, Step, ChangeOf, Moves, Current;
      StaleStep(before.attempts, before.nextToken, Step(cfg, before, e).attempts, Step(cfg, before, e).nextToken,
                ChangeOf(cfg, before, e), lease);
    }
  }

  /** A lease that is no longer current changes nothing, now and after any further run. */
  lemma {:induction false} StaleLeaseChangesNothing(cfg: Config, w: World, events: seq<Event>, lease: Lease,
                                                    verdict: Verdict)
    requires lease.token < w.nextToken && !Current(w.attempts, lease)
    ensures PersistStep(cfg, Run(cfg, w, events), lease, verdict) == (Run(cfg, w, events), false)
  {
    StaysStale(cfg, w, events, lease);
    hide Run;
  }

  /** Once an attempt is leased again, no result under an earlier lease of it is ever accepted. */
  lemma {:induction false} LeasedAgainFencesOlder(
    cfg: Config, w: World, id: nat, now: int, earlier: Lease, events: seq<Event>, verdict: Verdict)
    requires ClaimOneStep(cfg, w, id, now).1.Some? && earlier.id == id && earlier.token < w.nextToken
    ensures var later := Run(cfg, ClaimOneStep(cfg, w, id, now).0, events);
            PersistStep(cfg, later, earlier, verdict) == (later, false)
  {
    hide Run, PersistStep;
    StaleLeaseChangesNothing(cfg, ClaimOneStep(cfg, w, id, now).0, events, earlier, verdict);
  }

  // ----- Exclusive leases -----

  /** The clock an event that asks for a lease has read. */
  function ClaimTime(e: Event): Option<int> {
    match e
    case ClaimNext(now, _) => Some(now)
    case ClaimOne(_, now) => Some(now)
    case _ => None
  }

  /** The attempt is graded, or leased at `since` or later. */
  ghost predicate LeasedSince(attempts: seq<Attempt>, id: nat, since: int) {
    && id < |attempts|
    && (|| attempts[id].status in {Completed, Failed}
        || (attempts[id].status == Running && attempts[id].startedAt.Some? && attempts[id].startedAt.value >= since))
  }

  lemma {:induction false} IssuedIsLeased(cfg: Config, w: World, e: Event)
    requires ChangeOf(cfg, w, e).Issued?
    ensures ClaimTime(e).Some?
    ensures LeasedSince(Step(cfg, w, e).attempts, ChangeOf(cfg, w, e).id, ClaimTime(e).value)
  {
    hide Oldest, Claimable;
  }

  lemma {:induction false} StillLeased(cfg: Config, w: World, e: Event, id: nat, since: int)
    requires LeasedSince(w.attempts, id, since)
    ensures LeasedSince(Step(cfg, w, e).attempts, id, since)
    ensures ChangeOf(cfg, w, e).Issued? && ChangeOf(cfg, w, e).id == id ==> ClaimTime(e).value > since + cfg.leaseTime
  {
    if e.ClaimNext? {
      OldestIsLeast(w.attempts, e.claimedAt, cfg.leaseTime, e.locked);
      hide Oldest;
    } else if e.ClaimOne? {
    } else {
      StepMoves(cfg, w, e);
      hide Step, PersistStep;
    }
  }

  lemma {:induction false} LeasedUntil(cfg: Config, events: seq<Event>, i: nat, j: nat)
    requires i < j <= |events| && History(cfg, EMPTY, events)[i].Issued?
    ensures ClaimTime(events[i]).Some?
    ensures LeasedSince(Run(cfg, EMPTY, events[..j]).attempts, History(cfg, EMPTY, events)[i].id,
                        ClaimTime(events[i]).value)
    decreases j
  {
    var n := j - 1;
    var w := Run(cfg, EMPTY, events[..n]);
    HistoryPrefix(cfg, EMPTY, events, n);
    RunLast(cfg, EMPTY, events[..j]);
    assert events[..j][..n] == events[..n];
    hide Run, History, Step, ChangeOf, LeasedSince;
    if i == n {
      IssuedIsLeased(cfg, w, events[i]);
    } else {
      LeasedUntil(cfg, events, i, n);
      StillLeased(cfg, w, events[n], History(cfg, EMPTY, events)[i].id, ClaimTime(events[i]).value);
    }
  }

  /** A lease is exclusive: in every run the next lease on an attempt comes more than the lease time later. */
  lemma {:induction false} LeaseIsExclusive(cfg: Config, events: seq<Event>, i: nat, j: nat)
    requires i < j < |events|
    requires History(cfg, EMPTY, events)[i].Issued? && History(cfg, EMPTY, events)[j].Issued?
    requires History(cfg, EMPTY, events)[i].id == History(cfg, EMPTY, events)[j].id
    ensures ClaimTime(events[i]).Some? && ClaimTime(events[j]).Some?
    ensures ClaimTime(events[j]).value > ClaimTime(events[i]).value + cfg.leaseTime
  {
    LeasedUntil(cfg, events, i, j);
    HistoryPrefix(cfg, EMPTY, events, j);
    hide Run, History, Step, ChangeOf, LeasedSince;
    IssuedIsLeased(cfg, Run(cfg, EMPTY, events[..j]), events[j]);
    StillLeased(cfg, Run(cfg, EMPTY, events[..j]), events[j], History(cfg, EMPTY, events)[i].id,
                ClaimTime(events[i]).value);
  }

  /** The attempt waits for a worker: it is not graded, and no lease on it is still running. */
  predicate Waits(a: Attempt, now: int, leaseTime: nat) {
    && a.status != Completed && a.status != Failed
    && !(a.status == Running && a.startedAt.Some? && now <= a.startedAt.value + leaseTime)
  }

  lemma {:induction false} ClaimableIffWaits(leaseTime: nat)
    ensures forall a, now :: Claimable(a, now, leaseTime) <==> Waits(a, now, leaseTime)
  {
  }

  /**
   A claim finds nothing exactly when every attempt that nobody has locked is graded or under a lease
   that is still running; otherwise it leases the oldest of the others, and touches nothing else.
   */
  lemma {:induction false} ClaimNextExactly(cfg: Config, w: World, now: int, locked: set<nat>)
    ensures var (after, lease) := ClaimNextStep(cfg, w, now, locked);
            var waiting := set i: nat | i < |w.attempts| && i !in locked && Waits(w.attempts[i], now, cfg.leaseTime);
            if waiting == {} then lease == None && after == w
            else
              && lease.Some? && lease.value.id in waiting && lease.value.token == w.nextToken
              && (forall i :: i in waiting ==> Before(w.attempts, lease.value.id, i))
              && after == w.(nextToken := w.nextToken + 1,
                             attempts := w.attempts[lease.value.id := w.attempts[lease.value.id].(
                               status := Running, startedAt := Some(now), token := Some(w.nextToken))])
  {
    OldestIsLeast(w.attempts, now, cfg.leaseTime, locked);
    ClaimableIffWaits(cfg.leaseTime);
    hide Oldest, Claimable, Waits, Before;
    var waiting := set i: nat | i < |w.attempts| && i !in locked && Waits(w.attempts[i], now, cfg.leaseTime);
    var id := Oldest(w.attempts, now, cfg.leaseTime, locked);
    if id.Some? {
      assert id.value in waiting;
    }
  }

  /** Claiming one attempt by its id succeeds exactly when it waits. */
  lemma {:induction false} ClaimOneExactly(cfg: Config, w: World, id: nat, now: int)
    ensures ClaimOneStep(cfg, w, id, now).1
            == if id < |w.attempts| && Waits(w.attempts[id], now, cfg.leaseTime) then Some(Lease(id, w.nextToken))
               else None
  {
    ClaimableIffWaits(cfg.leaseTime);
    hide Claimable, Waits;
  }

  // ----- Submitting again -----

  ghost predicate DistinctRequests(attempts: seq<Attempt>) {
    forall i, j :: 0 <= i < j < |attempts| ==> attempts[i].request != attempts[j].request
  }

  lemma {:induction false} RequestsStayDistinct(cfg: Config, w: World, e: Event)
    requires DistinctRequests(w.attempts)
    ensures DistinctRequests(Step(cfg, w, e).attempts)
  {
    if e.Create? {
      hide SubmissionError;
    } else {
      StepMoves(cfg, w, e);
      NothingAppended(cfg, w, e);
      hide Step, ChangeOf;
    }
  }

  lemma {:induction false} NothingAppended(cfg: Config, w: World, e: Event)
    requires !e.Create?
    ensures |Step(cfg, w, e).attempts| == |w.attempts|
  {
  }

  lemma {:induction false} RunRequestsDistinct(cfg: Config, events: seq<Event>)
    ensures DistinctRequests(Run(cfg, EMPTY, events).attempts)
  {
    if events != [] {
      RunRequestsDistinct(cfg, events[..|events| - 1]);
      RequestsStayDistinct(cfg, Run(cfg, EMPTY, events[..|events| - 1]), events[|events| - 1]);
      RunLast(cfg, EMPTY, events);
      hide Run, Step;
    }
  }

  /**
   In every reachable state, a request id that is known replays its attempt for the same user and submission,
   conflicts otherwise, and changes nothing.
   */
  lemma {:induction false} SubmittingAgain(cfg: Config, events: seq<Event>, id: nat, user: int, s: Submission, now: int,
                                           unlocked: bool)
    requires id < |Run(cfg, EMPTY, events).attempts|
    ensures var w := Run(cfg, EMPTY, events);
            CreateStep(w, w.attempts[id].request, user, s, now, unlocked)
            == (w, if user == w.attempts[id].user && s == w.attempts[id].submission then AttemptId(id)
                else CreateError(RequestConflict))
  {
    RunRequestsDistinct(cfg, events);
    hide Run, SubmissionError;
    var w := Run(cfg, EMPTY, events);
    var found := FindRequest(w.attempts, w.attempts[id].request);
    assert found == Some(id);
  }
}
