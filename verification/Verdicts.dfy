/**
 What stored results mean, in every run: verdicts, correctness, battle scores and payments, told from
 the results that were reported.
 */
module Verdicts {
  import opened Common
  import opened Attempts
  import opened Battle
  import opened Grading
  import opened Fencing
  import opened Progress
  import opened GradingRewards
  import opened BattleRuns

  // ----- The stored row -----

  /** The row says one thing about its verdict in three columns, and has a lease time exactly while it is leased. */
  ghost predicate Consistent(a: Attempt) {
    && (a.startedAt.Some? <==> a.status == Running)
    && (a.correct == Some(true) <==> a.detail == Some(Accepted))
    && (a.correct == None <==> (a.detail == None || a.detail == Some(SystemError)))
    && (a.status == Failed <==> a.detail == Some(SystemError))
    && (a.status == Completed <==> (a.detail.Some? && a.detail != Some(SystemError)))
  }

  /** The row of an attempt is consistent, and its problem is in the catalogue. */
  ghost predicate RowOk(w: World, a: Attempt) {
    Consistent(a) && a.submission.task in w.tasks
  }

  ghost predicate RowsOk(w: World) {
    forall i :: 0 <= i < |w.attempts| ==> RowOk(w, w.attempts[i])
  }

  lemma {:induction false} TasksStay(cfg: Config, w: World, e: Event)
    ensures w.tasks.Keys <= Step(cfg, w, e).tasks.Keys
  {
    hide Oldest, Claimable, SubmissionError, WithBattle, Award, Effective, WithDaily, WithPresentation, WithCompletion,
      Current, CreateRoomStep, JoinRoomStep, SetReadyStep, StartRoomStep, Undone;
  }

  lemma {:induction false} GradedIsConsistent(a: Attempt, v: Verdict, award: Option<nat>)
    ensures Consistent(Graded(a, v, award))
    ensures Graded(a, v, award).detail == Some(v) && Graded(a, v, award).submission == a.submission
  {
  }

  lemma {:induction false} MovedRow(cfg: Config, w: World, e: Event, i: nat)
    requires RowsOk(w) && !e.Create? && i < |Step(cfg, w, e).attempts|
    ensures RowOk(Step(cfg, w, e), Step(cfg, w, e).attempts[i])
  {
    TasksStay(cfg, w, e);
    StepMoves(cfg, w, e);
    NothingAppended(cfg, w, e);
    var c, after := ChangeOf(cfg, w, e), Step(cfg, w, e).attempts;
    hide Step, ChangeOf;
    match c
    case Quiet =>
    case Issued(id, t) =>
      assert RowOk(w, w.attempts[id]);
    case Persisted(id, t) =>
      var v, award :| after == w.attempts[id := Graded(w.attempts[id], v, award)];
      GradedIsConsistent(w.attempts[id], v, award);
      assert RowOk(w, w.attempts[id]) && RowOk(w, w.attempts[i]);
      hide Graded, Consistent;
  }

  lemma {:induction false} StepRows(cfg: Config, w: World, e: Event)
    requires RowsOk(w)
    ensures RowsOk(Step(cfg, w, e))
  {
    if e.Create? {
      hide PresentationFits, ContentFits, DailyFits, BattleFits;
    } else {
      hide RowOk, Step;
      forall i | 0 <= i < |Step(cfg, w, e).attempts|
        ensures RowOk(Step(cfg, w, e), Step(cfg, w, e).attempts[i])
      {
        MovedRow(cfg, w, e, i);
      }
    }
  }

  lemma {:induction false} RunRows(cfg: Config, events: seq<Event>)
    ensures RowsOk(Run(cfg, EMPTY, events))
  {
    if events != [] {
      RunRows(cfg, events[..|events| - 1]);
      StepRows(cfg, Run(cfg, EMPTY, events[..|events| - 1]), events[|events| - 1]);
      RunLast(cfg, EMPTY, events);
      hide Run, Step, RowsOk;
    }
  }

  /**
   In every reachable state an attempt is correct exactly when its stored verdict is ACCEPTED, has no
   correctness exactly when it is ungraded or a system failure, is FAILED exactly for a system failure,
   and COMPLETED exactly for any other verdict.
   */
  lemma {:induction false} CorrectIffAccepted(cfg: Config, events: seq<Event>, id: nat)
    requires id < |Run(cfg, EMPTY, events).attempts|
    ensures var a := Run(cfg, EMPTY, events).attempts[id];
            && (a.correct == Some(true) <==> a.detail == Some(Accepted))
            && (a.correct == None <==> (a.detail == None || a.detail == Some(SystemError)))
            && (a.status == Failed <==> a.detail == Some(SystemError))
            && (a.status == Completed <==> (a.detail.Some? && a.detail != Some(SystemError)))
  {
    RunRows(cfg, events);
    hide Run;
    assert RowOk(Run(cfg, EMPTY, events), Run(cfg, EMPTY, events).attempts[id]);
  }

  /** In every reachable state an attempt has the time of a lease exactly while it is RUNNING. */
  lemma {:induction false} StartedIffRunning(cfg: Config, events: seq<Event>, id: nat)
    requires id < |Run(cfg, EMPTY, events).attempts|
    ensures Run(cfg, EMPTY, events).attempts[id].startedAt.Some?
            <==> Run(cfg, EMPTY, events).attempts[id].status == Running
  {
    RunRows(cfg, events);
    hide Run;
    assert RowOk(Run(cfg, EMPTY, events), Run(cfg, EMPTY, events).attempts[id]);
  }

  // ----- The stored verdict is the reported one -----

  /** Event i reported the verdict on the attempt, and its result was accepted. */
  ghost predicate Reported(cfg: Config, events: seq<Event>, i: nat, id: nat, v: Verdict) {
    && i < |events| && events[i].Grade? && events[i].lease.id == id && events[i].verdict == v
    && History(cfg, EMPTY, events)[i].Persisted?
  }

  lemma {:induction false} PersistedIsGrade(cfg: Config, w: World, e: Event)
    requires ChangeOf(cfg, w, e).Persisted?
    ensures e.Grade? && PersistStep(cfg, w, e.lease, e.verdict).1 && ChangeOf(cfg, w, e).id == e.lease.id
    ensures Step(cfg, w, e) == PersistStep(cfg, w, e.lease, e.verdict).0
  {
  }

  lemma {:induction false} PersistStores(cfg: Config, w: World, e: Event)
    requires RowsOk(w) && ChangeOf(cfg, w, e).Persisted?
    ensures e.Grade? && e.lease.id < |w.attempts| && e.lease.id < |Step(cfg, w, e).attempts|
    ensures ChangeOf(cfg, w, e).id == e.lease.id
    ensures Step(cfg, w, e).attempts[e.lease.id].detail == Some(e.verdict)
    ensures Terminal(Step(cfg, w, e).attempts[e.lease.id])
  {
    PersistedIsGrade(cfg, w, e);
    PersistEffect(cfg, w, e.lease, e.verdict);
    assert RowOk(w, w.attempts[e.lease.id]);
    hide PersistStep, Award, Step, ChangeOf;
  }

  /** In every run the verdict stored with an attempt is the one its accepted result reported. */
  lemma {:induction false} StoredIsReported(cfg: Config, events: seq<Event>, i: nat, id: nat, v: Verdict)
    requires Reported(cfg, events, i, id, v)
    ensures id < |Run(cfg, EMPTY, events).attempts| && Run(cfg, EMPTY, events).attempts[id].detail == Some(v)
  {
    var before := Run(cfg, EMPTY, events[..i]);
    HistoryPrefix(cfg, EMPTY, events, i);
    RunRows(cfg, events[..i]);
    RunLast(cfg, EMPTY, events[..i + 1]);
    assert events[..i + 1][..i] == events[..i];
    hide Run, History, Step, ChangeOf, RowsOk;
    PersistStores(cfg, before, events[i]);
    GradedIsFinal(cfg, Step(cfg, before, events[i]), events[i + 1..], id);
    RunSplit(cfg, EMPTY, events, i + 1);
  }

  lemma {:induction false} RunSplit(cfg: Config, w: World, events: seq<Event>, i: nat)
    requires i <= |events|
    ensures Run(cfg, w, events) == Run(cfg, Run(cfg, w, events[..i]), events[i..])
  {
    hide *;
    var rest := events[i..];
    if i == |events| {
      assert events[..i] == events && rest == [];
      RunNothing(cfg, Run(cfg, w, events));
    } else {
      var n := |events| - 1;
      RunLast(cfg, w, events);
      RunLast(cfg, Run(cfg, w, events[..i]), rest);
      RunSplit(cfg, w, events[..n], i);
      assert events[..n][..i] == events[..i];
      assert events[..n][i..] == rest[..|rest| - 1];
      assert events[n] == rest[|rest| - 1];
    }
  }

  lemma {:induction false} RunNothing(cfg: Config, w: World)
    ensures Run(cfg, w, []) == w
  {
  }

  lemma {:induction false} LastPersisted(log: seq<Change>, id: nat)
    requires LastAbout(log, id).Persisted?
    ensures exists i :: 0 <= i < |log| && log[i].Persisted? && log[i].id == id
  {
    if !About(log[|log| - 1], id) {
      LastPersisted(log[..|log| - 1], id);
    } else {
      assert log[|log| - 1] == LastAbout(log, id);
    }
  }

  /** A stored verdict was reported: it belongs to an event whose result was accepted. */
  lemma {:induction false} ReportOf(cfg: Config, events: seq<Event>, id: nat) returns (i: nat)
    requires id < |Run(cfg, EMPTY, events).attempts| && Run(cfg, EMPTY, events).attempts[id].detail.Some?
    ensures Reported(cfg, events, i, id, Run(cfg, EMPTY, events).attempts[id].detail.value)
  {
    RunAgrees(cfg, events);
    RunRows(cfg, events);
    assert RowOk(Run(cfg, EMPTY, events), Run(cfg, EMPTY, events).attempts[id]);
    hide Run, History;
    LastPersisted(History(cfg, EMPTY, events), id);
    i :| 0 <= i < |events| && History(cfg, EMPTY, events)[i].Persisted? && History(cfg, EMPTY, events)[i].id == id;
    HistoryPrefix(cfg, EMPTY, events, i);
    PersistedIsGrade(cfg, Run(cfg, EMPTY, events[..i]), events[i]);
    hide ChangeOf;
    StoredIsReported(cfg, events, i, id, events[i].verdict);
  }

  /** An attempt holds a verdict exactly when a result with that verdict was accepted for it. */
  lemma {:induction false} StoredIffReported(cfg: Config, events: seq<Event>, id: nat, v: Verdict)
    requires id < |Run(cfg, EMPTY, events).attempts|
    ensures Run(cfg, EMPTY, events).attempts[id].detail == Some(v) <==> exists i :: Reported(cfg, events, i, id, v)
  {
    hide Run, Reported;
    if Run(cfg, EMPTY, events).attempts[id].detail == Some(v) {
      var i := ReportOf(cfg, events, id);
    }
    if i :| Reported(cfg, events, i, id, v) {
      StoredIsReported(cfg, events, i, id, v);
    }
  }

  // ----- Battles, told from the reports -----

  /** An accepted result reported one of the verdicts for the attempt. */
  ghost predicate ReportedOneOf(cfg: Config, events: seq<Event>, id: nat, verdicts: set<Verdict>) {
    exists i, v :: v in verdicts && Reported(cfg, events, i, id, v)
  }

  /** In the run, an accepted result reported one of the verdicts for an attempt of the user on the room task. */
  ghost predicate Answered(cfg: Config, events: seq<Event>, user: int, roomTask: int, verdicts: set<Verdict>) {
    var attempts := Run(cfg, EMPTY, events).attempts;
    exists id: nat :: id < |attempts| && ReportedOneOf(cfg, events, id, verdicts)
                      && attempts[id].user == user && attempts[id].submission.context == Battle(roomTask)
  }

  lemma {:induction false} ReportedByDetail(cfg: Config, events: seq<Event>, id: nat, verdicts: set<Verdict>)
    requires id < |Run(cfg, EMPTY, events).attempts|
    ensures var a := Run(cfg, EMPTY, events).attempts[id];
            ReportedOneOf(cfg, events, id, verdicts) <==> a.detail.Some? && a.detail.value in verdicts
  {
    hide Run, Reported;
    var a := Run(cfg, EMPTY, events).attempts[id];
    if a.detail.Some? {
      StoredIffReported(cfg, events, id, a.detail.value);
    }
    if ReportedOneOf(cfg, events, id, verdicts) {
      var i, v :| v in verdicts && Reported(cfg, events, i, id, v);
      StoredIsReported(cfg, events, i, id, v);
    }
  }

  const GRADES: set<Verdict> := {Accepted, WrongAnswer, SyntaxError, RuntimeError, Timeout, OutputLimit, MemoryLimit}

  lemma {:induction false} AnsweredMeans(cfg: Config, events: seq<Event>, user: int, roomTask: int)
    ensures Solved(Run(cfg, EMPTY, events).attempts, user, roomTask)
            <==> Answered(cfg, events, user, roomTask, {Accepted})
    ensures Done(Run(cfg, EMPTY, events).attempts, user, roomTask) <==> Answered(cfg, events, user, roomTask, GRADES)
  {
    hide Run, ReportedOneOf;
    var attempts := Run(cfg, EMPTY, events).attempts;
    forall id | 0 <= id < |attempts|
      ensures Scores(attempts[id]) && OnRoomTask(attempts[id], roomTask)
              <==> ReportedOneOf(cfg, events, id, {Accepted}) && attempts[id].submission.context == Battle(roomTask)
      ensures Counts(attempts[id]) && OnRoomTask(attempts[id], roomTask)
              <==> ReportedOneOf(cfg, events, id, GRADES) && attempts[id].submission.context == Battle(roomTask)
    {
      CorrectIffAccepted(cfg, events, id);
      ReportedByDetail(cfg, events, id, {Accepted});
      ReportedByDetail(cfg, events, id, GRADES);
      GradesExactly();
      hide GRADES;
    }
  }

  lemma {:induction false} GradesExactly()
    ensures forall v :: v in GRADES <==> v != SystemError
  {
  }

  /**
   In every run a participant's score is the configured score times the number of room tasks on which
   an accepted result of theirs reported ACCEPTED.
   */
  lemma {:induction false} ScoreCountsAccepted(cfg: Config, events: seq<Event>, room: int, user: int)
    requires (room, user) in Run(cfg, EMPTY, events).lobby.participants
    ensures var l := Run(cfg, EMPTY, events).lobby;
            l.participants[(room, user)].score
            == Points(cfg.score) * |set t | t in TasksOf(l, room) && Answered(cfg, events, user, t, {Accepted})|
  {
    ScoreIsSolvedTasks(cfg, events, room, user);
    hide Run, Solved, Answered, TasksOf;
    var l := Run(cfg, EMPTY, events).lobby;
    forall t
      ensures Solved(Run(cfg, EMPTY, events).attempts, user, t) <==> Answered(cfg, events, user, t, {Accepted})
    {
      AnsweredMeans(cfg, events, user, t);
    }
    assert SolvedTasks(l, Run(cfg, EMPTY, events).attempts, room, user)
        == set t | t in TasksOf(l, room) && Answered(cfg, events, user, t, {Accepted});
  }

  /**
   In every run a started room is finished exactly when every participant has, on every one of its
   tasks, an accepted result that is not a system failure.
   */
  lemma {:induction false} FinishedIffAllAnswered(cfg: Config, events: seq<Event>, room: int)
    requires room in Run(cfg, EMPTY, events).lobby.rooms && Run(cfg, EMPTY, events).lobby.rooms[room].status != Waiting
    ensures var l := Run(cfg, EMPTY, events).lobby;
            l.rooms[room].status == Finished
            <==> forall user, t :: user in Members(l, room) && t in TasksOf(l, room) ==>
              Answered(cfg, events, user, t, GRADES)
  {
    FinishedIffAllDone(cfg, events, room);
    hide Run, Done, Answered, Members, TasksOf;
    forall user, t
      ensures Done(Run(cfg, EMPTY, events).attempts, user, t) <==> Answered(cfg, events, user, t, GRADES)
    {
      AnsweredMeans(cfg, events, user, t);
    }
  }

  // ----- Who is paid -----

  /** Event i reported ACCEPTED for an attempt made since its user's reset on record. */
  ghost predicate Earns(cfg: Config, events: seq<Event>, i: nat) {
    && i < |events| && events[i].Grade? && events[i].verdict == Accepted && History(cfg, EMPTY, events)[i].Persisted?
    && var w := Run(cfg, EMPTY, events[..i]);
       && events[i].lease.id < |w.attempts|
       && var a := w.attempts[events[i].lease.id];
          a.user in w.users && (w.users[a.user].resetAt.None? || a.attemptedAt >= w.users[a.user].resetAt.value)
  }

  /** Event i earned the reward of the user's problem on the game date. */
  ghost predicate EarnsFor(cfg: Config, events: seq<Event>, i: nat, user: int, task: int, date: int) {
    && Earns(cfg, events, i)
    && var a := Run(cfg, EMPTY, events[..i]).attempts[events[i].lease.id];
       a.user == user && a.submission.task == task && GameDate(a.attemptedAt) == date
  }

  lemma {:induction false} EarnsPrefix(cfg: Config, events: seq<Event>, n: nat, i: nat, user: int, task: int, date: int)
    requires i < n <= |events|
    ensures EarnsFor(cfg, events[..n], i, user, task, date) <==> EarnsFor(cfg, events, i, user, task, date)
  {
    HistoryPrefix(cfg, EMPTY, events, i);
    HistoryPrefix(cfg, EMPTY, events[..n], i);
    hide Run, History, ChangeOf, GameDate;
    assert events[..n][..i] == events[..i];
  }

  /** What the result of the last event does to the completions. */
  lemma {:induction false} LastCompletes(cfg: Config, events: seq<Event>, user: int, task: int, date: int)
    requires events != []
    ensures var n := |events| - 1;
            HasCompletion(Run(cfg, EMPTY, events).completions, user, task, date)
            <==> HasCompletion(Run(cfg, EMPTY, events[..n]).completions, user, task, date)
                 || EarnsFor(cfg, events, n, user, task, date)
  {
    var n := |events| - 1;
    var w, e := Run(cfg, EMPTY, events[..n]), events[n];
    HistoryLast(cfg, EMPTY, events);
    RunLast(cfg, EMPTY, events);
    RunRows(cfg, events[..n]);
    hide Run, History, GameDate;
    if ChangeOf(cfg, w, e).Persisted? {
      PersistedIsGrade(cfg, w, e);
      PersistEffect(cfg, w, e.lease, e.verdict);
      var a := w.attempts[e.lease.id];
      assert RowOk(w, a);
      hide PersistStep, ChangeOf, Step;
      CompletionAfter(w, a, e.lease.id, e.verdict, user, task, date);
    } else {
      OnlyGradingCompletes(cfg, w, e);
      hide Step, ChangeOf;
    }
  }

  lemma {:induction false} CompletionAfter(w: World, a: Attempt, id: nat, v: Verdict, user: int, task: int, date: int)
    requires a.submission.task in w.tasks && a.user in w.users
    ensures HasCompletion(WithCompletion(w, a, id, Award(w, a, v)), user, task, date)
            <==> HasCompletion(w.completions, user, task, date)
                 || (v == Accepted && (w.users[a.user].resetAt.None? || a.attemptedAt >= w.users[a.user].resetAt.value)
                     && a.user == user && a.submission.task == task && GameDate(a.attemptedAt) == date)
  {
    hide GameDate;
    var c := Completion(a.user, a.submission.task, GameDate(a.attemptedAt), id, Coins(Award(w, a, v)));
    var all := w.completions + [c];
    assert all[|w.completions|] == c;
    assert forall i :: 0 <= i < |w.completions| ==> all[i] == w.completions[i];
  }

  lemma {:induction false} NothingCompleted(cfg: Config, user: int, task: int, date: int)
    ensures !HasCompletion(Run(cfg, EMPTY, []).completions, user, task, date)
  {
  }

  /** There is a completion for a user, problem and game date exactly when some event earned it. */
  lemma {:induction false} CompletedIffEarned(cfg: Config, events: seq<Event>, user: int, task: int, date: int)
    ensures HasCompletion(Run(cfg, EMPTY, events).completions, user, task, date)
            <==> exists i :: 0 <= i < |events| && EarnsFor(cfg, events, i, user, task, date)
  {
    if events == [] {
      NothingCompleted(cfg, user, task, date);
    } else {
      var n := |events| - 1;
      hide *;
      CompletedIffEarned(cfg, events[..n], user, task, date);
      LastCompletes(cfg, events, user, task, date);
      EarnedSplit(cfg, events, user, task, date);
    }
  }

  lemma {:induction false} EarnedSplit(cfg: Config, events: seq<Event>, user: int, task: int, date: int)
    requires events != []
    ensures var n := |events| - 1;
            (exists i :: 0 <= i < |events| && EarnsFor(cfg, events, i, user, task, date))
            <==> ((exists i :: 0 <= i < n && EarnsFor(cfg, events[..n], i, user, task, date))
                  || EarnsFor(cfg, events, n, user, task, date))
  {
    var n := |events| - 1;
    hide *;
    forall i | 0 <= i < n
      ensures EarnsFor(cfg, events[..n], i, user, task, date) <==> EarnsFor(cfg, events, i, user, task, date)
    {
      EarnsPrefix(cfg, events, n, i, user, task, date);
    }
  }

  /**
   Who is paid, told from the events alone: an accepted result pays the problem's reward exactly when
   it reports ACCEPTED for an attempt made since the reset on record, and no earlier event of the run
   earned the same user's problem on the same game date; otherwise nothing is paid.
   */
  lemma {:induction false} FirstIsPaid(cfg: Config, events: seq<Event>, i: nat)
    requires i < |events| && History(cfg, EMPTY, events)[i].Persisted?
    ensures events[i].Grade? && events[i].lease.id < |Run(cfg, EMPTY, events[..i]).attempts|
    ensures var (before, after) := (Run(cfg, EMPTY, events[..i]), Run(cfg, EMPTY, events[..i + 1]));
            var (id, a) := (events[i].lease.id, before.attempts[events[i].lease.id]);
            var first := Earns(cfg, events, i) && forall k :: 0 <= k < i ==>
                           !EarnsFor(cfg, events, k, a.user, a.submission.task, GameDate(a.attemptedAt));
            && a.submission.task in before.tasks && a.user in before.users && a.user in after.users
            && id < |after.attempts| && id < |Run(cfg, EMPTY, events).attempts|
            && Run(cfg, EMPTY, events).attempts[id] == after.attempts[id]
            && after.attempts[id].coins == (if first then before.tasks[a.submission.task].reward else 0)
            && after.users[a.user].balance == before.users[a.user].balance + after.attempts[id].coins
  {
    var w, e := Run(cfg, EMPTY, events[..i]), events[i];
    HistoryPrefix(cfg, EMPTY, events, i);
    RunLast(cfg, EMPTY, events[..i + 1]);
    assert events[..i + 1][..i] == events[..i];
    RunRows(cfg, events[..i]);
    RunSplit(cfg, EMPTY, events, i + 1);
    PersistedIsGrade(cfg, w, e);
    PersistEffect(cfg, w, e.lease, e.verdict);
    PersistStores(cfg, w, e);
    var id, a := e.lease.id, w.attempts[e.lease.id];
    assert RowOk(w, a);
    NoCoinsYet(cfg, events[..i], id);
    CompletedIffEarned(cfg, events[..i], a.user, a.submission.task, GameDate(a.attemptedAt));
    hide Run, History, PersistStep, ChangeOf, Step, GameDate, HasCompletion, RowsOk;
    GradedIsFinal(cfg, Run(cfg, EMPTY, events[..i + 1]), events[i + 1..], id);
    forall k | 0 <= k < i
      ensures EarnsFor(cfg, events[..i], k, a.user, a.submission.task, GameDate(a.attemptedAt))
              <==> EarnsFor(cfg, events, k, a.user, a.submission.task, GameDate(a.attemptedAt))
    {
      EarnsPrefix(cfg, events, i, k, a.user, a.submission.task, GameDate(a.attemptedAt));
    }
  }

  /** An attempt that is not graded holds no coins. */
  lemma {:induction false} NoCoinsYet(cfg: Config, events: seq<Event>, id: nat)
    requires id < |Run(cfg, EMPTY, events).attempts| && !Terminal(Run(cfg, EMPTY, events).attempts[id])
    ensures Run(cfg, EMPTY, events).attempts[id].coins == 0
  {
    RunPaid(cfg, events);
    hide Run, GameDate;
    var w := Run(cfg, EMPTY, events);
    assert w.attempts[id].coins > 0 ==> HasRecord(w.completions, id);
    assert forall k :: 0 <= k < |w.completions| ==> Earned(w.attempts, w.completions[k]);
  }
}
