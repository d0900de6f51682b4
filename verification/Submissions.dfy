/** Which submissions are taken, in every run: what an attempt must fit, and what solving a problem closes. */
module Submissions {
  import opened Common
  import opened Attempts
  import opened Battle
  import opened Grading
  import opened Fencing
  import opened Progress
  import opened GradingRewards
  import opened BattleRuns
  import opened Verdicts

  // ----- The game calendar -----

  const HOUR: int := 3_600_000_000

  /**
   Two moments have the same game date exactly when no midnight in Seoul, three in the afternoon by UTC,
   lies between them.
   */
  lemma {:induction false} MidnightInSeoul(a: int, b: int)
    requires a <= b
    ensures GameDate(a) == GameDate(b) <==> forall day: int :: !(a < day * (24 * HOUR) + 15 * HOUR <= b)
  {
    var day := GameDate(a);
    assert day * (24 * HOUR) <= a + 9 * HOUR < (day + 1) * (24 * HOUR);
    var midnight := day * (24 * HOUR) + 15 * HOUR;
    if GameDate(a) == GameDate(b) {
      forall d: int
        ensures !(a < d * (24 * HOUR) + 15 * HOUR <= b)
      {
        assert a + 9 * HOUR < (d + 1) * (24 * HOUR) <= b + 9 * HOUR
            <==> a < d * (24 * HOUR) + 15 * HOUR <= b;
      }
    } else {
      assert a < midnight <= b;
    }
  }

  // ----- One submission -----

  /**
   A submission under a new request id is taken exactly when the problem is active, its tier is
   unlocked and a problem with options is shown first (for learning); a presentation named is one of
   the user's for this problem and context that is not solved yet; the answer has the form asked for
   and, of several options, is one of them; a daily task is today's, the user's, for this problem and
   open; a room task is for this problem in a running room of the user; and the user is known. Then it
   becomes one PENDING attempt.
   */
  lemma {:induction false} TakenExactly(w: World, request: int, user: int, s: Submission, now: int, unlocked: bool)
    requires forall i :: 0 <= i < |w.attempts| ==> w.attempts[i].request != request
    ensures CreateStep(w, request, user, s, now, unlocked).1.AttemptId?
            <==> && s.task in w.tasks && w.tasks[s.task].active && user in w.users
                 && (s.context == Learning ==> unlocked && (w.tasks[s.task].options == [] || s.presentation.Some?))
                 && (s.presentation.Some? ==>
                      && s.presentation.value in w.presentations
                      && var p := w.presentations[s.presentation.value];
                         && p.user == user && p.task == s.task && !p.completed
                         && (p.kind == LearningKind <==> s.context.Learning?)
                         && (p.kind == DailyKind <==> s.context.Daily?)
                         && (p.form == CodeForm ==> s.code.Some?)
                         && (p.form == ChoiceForm ==> s.option.Some? && s.option.value in p.options))
                 && (s.presentation.None? ==>
                      && (w.tasks[s.task].form == CodeForm ==> s.code.Some?)
                      && (w.tasks[s.task].form == ChoiceForm ==>
                            s.option.Some? && s.option.value in w.tasks[s.task].options))
                 && (s.context.Daily? ==>
                      && s.context.attendanceTask in w.dailies
                      && w.dailies[s.context.attendanceTask] == DailyTask(user, GameDate(now), s.task, false))
                 && (s.context.Battle? ==>
                      && s.context.roomTask in w.lobby.roomTasks
                      && var rt := w.lobby.roomTasks[s.context.roomTask];
                         && rt.task == s.task && (rt.room, user) in w.lobby.participants
                         && rt.room in w.lobby.rooms && w.lobby.rooms[rt.room].status == Started)
    ensures CreateStep(w, request, user, s, now, unlocked).1.AttemptId? ==>
              && CreateStep(w, request, user, s, now, unlocked).1.id == |w.attempts|
              && CreateStep(w, request, user, s, now, unlocked).0
                 == w.(attempts := w.attempts + [Attempt(request, user, s, now, Pending, None, None, 0, None, None)],
                       users := w.users[user := w.users[user].(version := w.users[user].version + 1)])
    ensures CreateStep(w, request, user, s, now, unlocked).1.CreateError? ==>
              CreateStep(w, request, user, s, now, unlocked).0 == w
  {
    hide GameDate;
    assert FindRequest(w.attempts, request).None?;
  }

  // ----- Every attempt fits -----

  /** The rows an attempt was made for: the day's task, the room task, what was shown. */
  ghost predicate Fits(w: World, a: Attempt) {
    && (a.submission.context.Daily? ==>
          && a.submission.context.attendanceTask in w.dailies
          && var d := w.dailies[a.submission.context.attendanceTask];
             d.user == a.user && d.task == a.submission.task && d.date == GameDate(a.attemptedAt))
    && (a.submission.context.Battle? ==>
          && a.submission.context.roomTask in w.lobby.roomTasks
          && var rt := w.lobby.roomTasks[a.submission.context.roomTask];
             && rt.task == a.submission.task && (rt.room, a.user) in w.lobby.participants
             && rt.room in w.lobby.rooms && w.lobby.rooms[rt.room].status != Waiting)
    && (a.submission.presentation.Some? ==>
          && a.submission.presentation.value in w.presentations
          && var p := w.presentations[a.submission.presentation.value];
             && p.user == a.user && p.task == a.submission.task && p.kind == KindOf(a.submission.context)
             && (p.form == CodeForm ==> a.submission.code.Some?)
             && (p.form == ChoiceForm ==> a.submission.option.Some? && a.submission.option.value in p.options))
  }

  ghost predicate AllFit(w: World) {
    forall i :: 0 <= i < |w.attempts| ==> Fits(w, w.attempts[i])
  }

  /** Daily tasks and presentations keep everything but their flag, and rooms go forward. */
  ghost predicate Keeps(before: World, after: World) {
    && (forall d :: d in before.dailies ==>
          && d in after.dailies && after.dailies[d].(done := false) == before.dailies[d].(done := false))
    && (forall p :: p in before.presentations ==>
          && p in after.presentations
          && after.presentations[p].(completed := false) == before.presentations[p].(completed := false))
    && (forall room :: room in before.lobby.rooms ==>
          room in after.lobby.rooms && (before.lobby.rooms[room].status != Waiting ==>
                                          after.lobby.rooms[room].status != Waiting))
  }

  lemma {:induction false} FitsStays(before: World, after: World, a: Attempt, b: Attempt)
    requires Keeps(before, after) && Grows(before, after) && Fits(before, a) && SameSubmission(b, a)
    ensures Fits(after, b)
  {
    hide GameDate;
    var s := a.submission;
    if s.context.Daily? {
      var d, d' := before.dailies[s.context.attendanceTask], after.dailies[s.context.attendanceTask];
      assert d.(done := false) == d'.(done := false);
    }
    if s.presentation.Some? {
      var k: int := s.presentation.value;
      assert k in before.presentations;
      assert k in after.presentations;
      assert before.presentations[k].(completed := false) == after.presentations[k].(completed := false);
    }
    if s.context.Battle? {
      assert after.lobby.roomTasks[s.context.roomTask] == before.lobby.roomTasks[s.context.roomTask];
    }
  }

  lemma {:induction false} GradeKeepsRows(cfg: Config, w: World, lease: Lease, verdict: Verdict)
    ensures var after := PersistStep(cfg, w, lease, verdict).0;
            && (forall d :: d in w.dailies ==>
                  d in after.dailies && after.dailies[d].(done := false) == w.dailies[d].(done := false))
            && (forall p :: p in w.presentations ==>
                  p in after.presentations
                  && after.presentations[p].(completed := false) == w.presentations[p].(completed := false))
  {
    hide WithBattle, Award, Effective, WithCompletion, Current;
  }

  lemma {:induction false} RowsKept(cfg: Config, w: World, e: Event)
    ensures forall d :: d in w.dailies ==>
              d in Step(cfg, w, e).dailies
              && Step(cfg, w, e).dailies[d].(done := false) == w.dailies[d].(done := false)
    ensures forall p :: p in w.presentations ==>
              p in Step(cfg, w, e).presentations
              && Step(cfg, w, e).presentations[p].(completed := false) == w.presentations[p].(completed := false)
  {
    if e.Grade? {
      GradeKeepsRows(cfg, w, e.lease, e.verdict);
      hide PersistStep;
    } else if e.Reset? || e.FromOutside? {
      hide PersistStep, StartRoomStep;
    } else {
      RowsUntouched(cfg, w, e);
      hide Step;
    }
  }

  lemma {:induction false} StepKeepsRows(cfg: Config, w: World, e: Event)
    ensures Keeps(w, Step(cfg, w, e))
  {
    RowsKept(cfg, w, e);
    hide Step;
    forall room | room in w.lobby.rooms
      ensures Forward(w.lobby, Step(cfg, w, e).lobby, room)
    {
      StepForward(cfg, w, e, room);
    }
  }

  lemma {:induction false} StepFits(cfg: Config, w: World, e: Event)
    requires AllFit(w)
    ensures AllFit(Step(cfg, w, e))
  {
    StepKeepsRows(cfg, w, e);
    StepGrows(cfg, w, e);
    var after := Step(cfg, w, e);
    if e.Create? {
      CreatedFits(w, e.request, e.user, e.submission, e.createdAt, e.unlocked);
      hide Fits, Keeps, Grows, SubmissionError;
      forall i | 0 <= i < |w.attempts|
        ensures Fits(after, w.attempts[i])
      {
        FitsStays(w, after, w.attempts[i], w.attempts[i]);
      }
    } else {
      StepMoves(cfg, w, e);
      NothingAppended(cfg, w, e);
      hide Step, Fits, Keeps, Grows, ChangeOf;
      forall i | 0 <= i < |after.attempts|
        ensures Fits(after, after.attempts[i])
      {
        FitsStays(w, after, w.attempts[i], after.attempts[i]);
      }
    }
  }

  lemma {:induction false} CreatedFits(w: World, request: int, user: int, s: Submission, now: int, unlocked: bool)
    ensures var after := CreateStep(w, request, user, s, now, unlocked).0;
            |after.attempts| > |w.attempts| ==> Fits(after, after.attempts[|w.attempts|])
  {
    hide GameDate;
  }

  /**
   In every reachable state every attempt fits its rows: a daily one was made by its owner, on its
   date, for its problem; a battle one by a participant of a room that was started, for the room's
   problem; and one made on a presentation answers in the form, and among the options, shown to its user.
   */
  lemma {:induction false} AttemptsFit(cfg: Config, events: seq<Event>)
    ensures AllFit(Run(cfg, EMPTY, events))
  {
    if events != [] {
      AttemptsFit(cfg, events[..|events| - 1]);
      StepFits(cfg, Run(cfg, EMPTY, events[..|events| - 1]), events[|events| - 1]);
      RunLast(cfg, EMPTY, events);
      hide Run, Step, AllFit;
    }
  }

  // ----- What solving closes -----

  /** Event e reports ACCEPTED for the attempt, and its result is accepted. */
  ghost predicate Solves(cfg: Config, w: World, e: Event, id: nat) {
    ChangeOf(cfg, w, e).Persisted? && e.Grade? && e.lease.id == id && e.verdict == Accepted
  }

  /**
   Daily tasks are closed exactly by solving them, and reopened exactly by a reset of their user;
   presentations are closed exactly by solving them, for good.
   */
  lemma {:induction false} ClosedExactly(cfg: Config, w: World, e: Event, d: int, p: int)
    requires RowsOk(w)
    ensures d in w.dailies ==>
              && d in Step(cfg, w, e).dailies
              && (Step(cfg, w, e).dailies[d].done
                  <==> (|| (exists id :: 0 <= id < |w.attempts| && Solves(cfg, w, e, id)
                                         && w.attempts[id].submission.context == Daily(d))
                        || (w.dailies[d].done
                            && !(e.Reset? && e.resetUser == w.dailies[d].user && e.resetUser in w.users))))
    ensures p in w.presentations ==>
              && p in Step(cfg, w, e).presentations
              && (Step(cfg, w, e).presentations[p].completed
                  <==> (|| (exists id :: 0 <= id < |w.attempts| && Solves(cfg, w, e, id)
                                         && w.attempts[id].submission.presentation == Some(p))
                        || w.presentations[p].completed))
  {
    if ChangeOf(cfg, w, e).Persisted? {
      PersistedIsGrade(cfg, w, e);
      hide Step, RowOk;
      PersistCloses(cfg, w, e.lease, e.verdict);
      assert RowOk(w, w.attempts[e.lease.id]);
      InCatalogue(w, w.attempts[e.lease.id]);
      hide PersistStep, WithDaily, WithPresentation, RowsOk;
      assert Solves(cfg, w, e, e.lease.id) <==> e.verdict == Accepted;
    } else {
      QuietCloses(cfg, w, e);
      hide Step;
    }
  }

  lemma {:induction false} InCatalogue(w: World, a: Attempt)
    requires RowOk(w, a)
    ensures a.submission.task in w.tasks
  {
  }

  lemma {:induction false} PersistCloses(cfg: Config, w: World, lease: Lease, verdict: Verdict)
    requires PersistStep(cfg, w, lease, verdict).1
    ensures var after := PersistStep(cfg, w, lease, verdict).0;
            && lease.id < |w.attempts|
            && var a := w.attempts[lease.id];
               var solved := verdict == Accepted && a.submission.task in w.tasks;
               && (forall d :: d in w.dailies ==>
                     && d in after.dailies
                     && after.dailies[d].done == (w.dailies[d].done || (solved && a.submission.context == Daily(d))))
               && (forall p :: p in w.presentations ==>
                     && p in after.presentations
                     && after.presentations[p].completed
                        == (w.presentations[p].completed || (solved && a.submission.presentation == Some(p))))
  {
    hide WithBattle, Award, WithCompletion;
  }

  lemma {:induction false} QuietCloses(cfg: Config, w: World, e: Event)
    requires !ChangeOf(cfg, w, e).Persisted?
    ensures forall d :: d in w.dailies ==>
              && d in Step(cfg, w, e).dailies
              && Step(cfg, w, e).dailies[d].done
                 == (w.dailies[d].done && !(e.Reset? && e.resetUser == w.dailies[d].user && e.resetUser in w.users))
    ensures forall p :: p in w.presentations ==>
              p in Step(cfg, w, e).presentations && Step(cfg, w, e).presentations[p] == w.presentations[p]
  {
    if e.Grade? {
      PersistMoves(cfg, w, e.lease, e.verdict);
      hide PersistStep, Moves;
    } else if e.Reset? || e.FromOutside? {
      hide PersistStep, StartRoomStep;
    } else {
      RowsUntouched(cfg, w, e);
      hide Step;
    }
  }

  lemma {:induction false} RowsUntouched(cfg: Config, w: World, e: Event)
    requires !e.Grade? && !e.Reset? && !e.FromOutside?
    ensures Step(cfg, w, e).dailies == w.dailies && Step(cfg, w, e).presentations == w.presentations
  {
    hide Oldest, Claimable, SubmissionError, CreateRoomStep, JoinRoomStep, SetReadyStep, StartRoomStep;
  }

  /** What the attempt of a solving result was made for is closed, unless its user was reset since. */
  ghost predicate Closed(w: World, a: Attempt, reset: bool) {
    && (a.submission.presentation.Some? ==>
          && a.submission.presentation.value in w.presentations
          && w.presentations[a.submission.presentation.value].completed)
    && (a.submission.context.Daily? && !reset ==>
          && a.submission.context.attendanceTask in w.dailies
          && w.dailies[a.submission.context.attendanceTask].done)
  }

  lemma {:induction false} SolvingCloses(cfg: Config, w: World, e: Event, id: nat)
    requires RowsOk(w) && AllFit(w) && id < |w.attempts| && Solves(cfg, w, e, id)
    ensures Closed(Step(cfg, w, e), w.attempts[id], false)
  {
    var s := w.attempts[id].submission;
    assert Fits(w, w.attempts[id]);
    if s.presentation.Some? {
      ClosedExactly(cfg, w, e, 0, s.presentation.value);
    }
    if s.context.Daily? {
      ClosedExactly(cfg, w, e, s.context.attendanceTask, 0);
    }
    hide Step, ChangeOf, RowsOk, AllFit;
  }

  lemma {:induction false} ClosedStays(cfg: Config, w: World, e: Event, id: nat, reset: bool)
    requires RowsOk(w) && AllFit(w) && id < |w.attempts| && Closed(w, w.attempts[id], reset)
    ensures Closed(Step(cfg, w, e), w.attempts[id], reset || (e.Reset? && e.resetUser == w.attempts[id].user))
  {
    var s := w.attempts[id].submission;
    assert Fits(w, w.attempts[id]);
    if s.presentation.Some? {
      ClosedExactly(cfg, w, e, 0, s.presentation.value);
    }
    if s.context.Daily? {
      ClosedExactly(cfg, w, e, s.context.attendanceTask, 0);
    }
    hide Step, ChangeOf, RowsOk, AllFit;
  }

  ghost predicate ResetAfter(events: seq<Event>, i: nat, user: int) {
    exists k :: i < k < |events| && events[k].Reset? && events[k].resetUser == user
  }

  lemma {:induction false} ResetLast(events: seq<Event>, i: nat, user: int)
    requires i < |events| - 1
    ensures var last := events[|events| - 1];
            ResetAfter(events, i, user)
            <==> ResetAfter(events[..|events| - 1], i, user) || (last.Reset? && last.resetUser == user)
  {
    var n := |events| - 1;
    if ResetAfter(events[..n], i, user) {
      var k :| i < k < n && events[..n][k].Reset? && events[..n][k].resetUser == user;
      assert events[k] == events[..n][k];
    }
    if k :| i < k < n && events[k].Reset? && events[k].resetUser == user {
      assert events[..n][k] == events[k];
    }
  }

  lemma {:induction false} SolvedIsClosed(cfg: Config, events: seq<Event>, i: nat, id: nat)
    requires Reported(cfg, events, i, id, Accepted)
    ensures id < |Run(cfg, EMPTY, events).attempts|
    ensures var w := Run(cfg, EMPTY, events);
            Closed(w, w.attempts[id], ResetAfter(events, i, w.attempts[id].user))
  {
    var n := |events| - 1;
    var before, e := Run(cfg, EMPTY, events[..n]), events[n];
    StoredIsReported(cfg, events, i, id, Accepted);
    RunRows(cfg, events[..n]);
    AttemptsFit(cfg, events[..n]);
    HistoryPrefix(cfg, EMPTY, events, i);
    HistoryLast(cfg, EMPTY, events);
    RunLast(cfg, EMPTY, events);
    hide Run, History, Step, RowsOk, AllFit, Closed, ChangeOf;
    if i == n {
      ReportedHere(cfg, before, e);
      SubmissionsStay(cfg, before, [e], id);
      OneStep(cfg, before, e);
      SolvingCloses(cfg, before, e, id);
      SameClosed(Step(cfg, before, e), before.attempts[id], Step(cfg, before, e).attempts[id], false);
    } else {
      ReportedEarlier(cfg, events, i, id);
      SolvedIsClosed(cfg, events[..n], i, id);
      SubmissionsStay(cfg, before, [e], id);
      OneStep(cfg, before, e);
      ResetLast(events, i, before.attempts[id].user);
      hide ResetAfter;
      ClosedStays(cfg, before, e, id, ResetAfter(events[..n], i, before.attempts[id].user));
      SameClosed(Step(cfg, before, e), before.attempts[id], Step(cfg, before, e).attempts[id],
                 ResetAfter(events, i, before.attempts[id].user));
    }
  }

  lemma {:induction false} OneStep(cfg: Config, w: World, e: Event)
    ensures Run(cfg, w, [e]) == Step(cfg, w, e)
  {
    assert [e][..0] == [];
  }

  lemma {:induction false} ReportedHere(cfg: Config, w: World, e: Event)
    requires ChangeOf(cfg, w, e).Persisted?
    ensures e.Grade? && e.lease.id < |w.attempts|
    ensures e.verdict == Accepted ==> Solves(cfg, w, e, e.lease.id)
  {
  }

  lemma {:induction false} ReportedEarlier(cfg: Config, events: seq<Event>, i: nat, id: nat)
    requires Reported(cfg, events, i, id, Accepted) && i < |events| - 1
    ensures Reported(cfg, events[..|events| - 1], i, id, Accepted)
  {
    HistoryLast(cfg, EMPTY, events);
  }

  lemma {:induction false} SameClosed(w: World, a: Attempt, b: Attempt, reset: bool)
    requires Closed(w, a, reset) && a.submission == b.submission
    ensures Closed(w, b, reset)
  {
  }

  /**
   In every run, what was solved takes no further attempt: a presentation ever after, a daily task as
   long as its user is not reset, whoever submits, under whatever request id.
   */
  lemma {:induction false} SolvedTakesNoMore(
    cfg: Config, events: seq<Event>, i: nat, id: nat, request: int, user: int, s: Submission, now: int, unlocked: bool)
    requires Reported(cfg, events, i, id, Accepted) && id < |Run(cfg, EMPTY, events).attempts|
    requires var a := Run(cfg, EMPTY, events).attempts[id];
             || (s.presentation.Some? && s.presentation == a.submission.presentation)
             || (s.context.Daily? && s.context == a.submission.context && !ResetAfter(events, i, a.user))
    ensures CreateStep(Run(cfg, EMPTY, events), request, user, s, now, unlocked).0 == Run(cfg, EMPTY, events)
  {
    SolvedIsClosed(cfg, events, i, id);
    hide Run, ResetAfter, GameDate;
  }
}
