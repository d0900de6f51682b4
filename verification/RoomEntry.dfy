/** Getting into a battle: who may join and start, and what that leaves true of every room that was started. */
module RoomEntry {
  import opened Common
  import opened Attempts
  import opened Battle
  import opened Grading
  import opened Fencing
  import opened Progress
  import opened BattleRuns

  // ----- One step -----

  lemma {:induction false} TaskAt(roomTasks: map<int, RoomTask>, room: int, tasks: seq<int>, ids: seq<int>, n: nat,
                                  i: nat)
    requires i < n <= |tasks| == |ids| && Distinct(ids)
    ensures ids[i] in WithTasks(roomTasks, room, tasks, ids, n)
    ensures WithTasks(roomTasks, room, tasks, ids, n)[ids[i]] == RoomTask(room, tasks[i])
  {
    if i < n - 1 {
      TaskAt(roomTasks, room, tasks, ids, n - 1, i);
    }
  }

  lemma {:induction false} TasksAdded(l: Lobby, room: int, tasks: seq<int>, ids: seq<int>)
    requires FreshIds(l, ids, |tasks|)
    ensures var after := WithTasks(l.roomTasks, room, tasks, ids, |tasks|);
            && (forall t :: t in after <==> t in l.roomTasks || t in ids)
            && (forall t :: t in l.roomTasks ==> after[t] == l.roomTasks[t])
            && (forall i :: 0 <= i < |tasks| ==> after[ids[i]] == RoomTask(room, tasks[i]))
  {
    hide WithTasks;
    assert ids[..|tasks|] == ids;
    forall t
      ensures t in WithTasks(l.roomTasks, room, tasks, ids, |tasks|) <==> t in l.roomTasks || t in ids
      ensures t in l.roomTasks ==> WithTasks(l.roomTasks, room, tasks, ids, |tasks|)[t] == l.roomTasks[t]
    {
      WithTasksExactly(l.roomTasks, room, tasks, ids, |tasks|, t);
    }
    forall i | 0 <= i < |tasks|
      ensures WithTasks(l.roomTasks, room, tasks, ids, |tasks|)[ids[i]] == RoomTask(room, tasks[i])
    {
      TaskAt(l.roomTasks, room, tasks, ids, |tasks|, i);
    }
  }

  /**
   A room starts exactly when scoring is configured, its host asks while it waits, at least two take
   part and all of them are ready, and the problems are one or more, different and active. Then it
   runs, with one row for each problem; nothing else changes.
   */
  lemma {:induction false} StartsExactly(l: Lobby, score: Option<nat>, active: set<int>, user: int, room: int,
                                         tasks: seq<int>, ids: seq<int>)
    requires FreshIds(l, ids, |tasks|)
    ensures StartRoomStep(l, score, active, user, room, tasks, ids).1 == Ok
            <==> && score.Some?
                 && room in l.rooms && l.rooms[room].host == user && l.rooms[room].status == Waiting
                 && |Members(l, room)| >= 2
                 && (forall u :: (room, u) in l.participants ==> l.participants[(room, u)].ready)
                 && |tasks| >= 1 && (forall i, j :: 0 <= i < j < |tasks| ==> tasks[i] != tasks[j])
                 && (forall i :: 0 <= i < |tasks| ==> tasks[i] in active)
    ensures var (after, reply) := StartRoomStep(l, score, active, user, room, tasks, ids);
            if reply == Ok then
              && after.rooms == l.rooms[room := Room(user, Started, l.rooms[room].maxParticipants)]
              && after.participants == l.participants
              && (forall t :: t in after.roomTasks <==> t in l.roomTasks || t in ids)
              && (forall t :: t in l.roomTasks ==> after.roomTasks[t] == l.roomTasks[t])
              && (forall i :: 0 <= i < |tasks| ==> after.roomTasks[ids[i]] == RoomTask(room, tasks[i]))
            else after == l
  {
    TasksAdded(l, room, tasks, ids);
    hide WithTasks, FreshIds;
    forall u
      ensures u in Members(l, room) <==> (room, u) in l.participants
    {
      MemberIff(l, room, u);
    }
    hide Members;
  }

  /**
   Joining succeeds exactly while the room waits, for those in it already and for others while there
   is a place; only the latter changes anything: a new participant, not ready, without points.
   */
  lemma {:induction false} JoinsExactly(l: Lobby, user: int, room: int)
    ensures var (after, reply) := JoinRoomStep(l, user, room);
            var inside := (room, user) in l.participants;
            && (reply == Ok <==> room in l.rooms && l.rooms[room].status == Waiting
                                 && (inside || |Members(l, room)| < l.rooms[room].maxParticipants))
            && after == if reply == Ok && !inside
                        then l.(participants := l.participants[(room, user) := Participant(0, false)]) else l
  {
    hide Members;
  }

  /** A room is created with its host in it, ready; a participant sets their readiness while it waits. */
  lemma {:induction false} CreatesAndReadiesExactly(l: Lobby, user: int, room: int, max: int, ready: bool)
    ensures CreateRoomStep(l, user, room, max)
            == if room !in l.rooms && max >= 1
               then (Lobby(l.rooms[room := Room(user, Waiting, max)],
                           l.participants[(room, user) := Participant(0, true)], l.roomTasks), Ok)
               else (l, Refused)
    ensures SetReadyStep(l, user, room, ready)
            == if room in l.rooms && l.rooms[room].status == Waiting && (room, user) in l.participants
               then (l.(participants := l.participants[(room, user) :=
                          Participant(l.participants[(room, user)].score, ready)]), Ok)
               else (l, Refused)
  {
  }

  // ----- Every run -----

  /** The host takes part, and once a room is started everybody in it is ready. */
  ghost predicate EntryOk(l: Lobby) {
    && (forall room :: room in l.rooms ==> (room, l.rooms[room].host) in l.participants)
    && (forall room, user :: (room, user) in l.participants ==>
          room in l.rooms && (l.rooms[room].status != Waiting ==> l.participants[(room, user)].ready))
  }

  /** The two lobbies have the same hosts, participants and readiness, and no room is started or reopened. */
  ghost predicate SameEntry(l: Lobby, l': Lobby) {
    && l'.rooms.Keys == l.rooms.Keys && l'.participants.Keys == l.participants.Keys
    && (forall room :: room in l.rooms ==>
          l'.rooms[room].host == l.rooms[room].host
          && (l'.rooms[room].status == Waiting <==> l.rooms[room].status == Waiting))
    && (forall room, user :: (room, user) in l.participants ==>
          l'.participants[(room, user)].ready == l.participants[(room, user)].ready)
  }

  lemma {:induction false} SameEntryOk(l: Lobby, l': Lobby)
    requires EntryOk(l) && SameEntry(l, l')
    ensures EntryOk(l')
  {
  }

  lemma {:induction false} RecordSameEntry(l: Lobby, score: Option<nat>, attempts: seq<Attempt>, id: nat)
    requires id < |attempts| && attempts[id].submission.context.Battle?
    ensures RecordResult(l, score, attempts, id).Some? ==> SameEntry(l, RecordResult(l, score, attempts, id).value)
  {
    hide Members, TasksOf, Submitted, ScoredBefore;
  }

  lemma {:induction false} OtherStepSameEntry(cfg: Config, w: World, e: Event)
    requires !InLobby(e)
    ensures SameEntry(w.lobby, Step(cfg, w, e).lobby)
  {
    if e.Grade? {
      GradeSameEntry(cfg, w, e.lease, e.verdict);
      hide PersistStep;
    } else {
      hide Oldest, Claimable, SubmissionError;
    }
  }

  lemma {:induction false} GradeSameEntry(cfg: Config, w: World, lease: Lease, verdict: Verdict)
    ensures SameEntry(w.lobby, PersistStep(cfg, w, lease, verdict).0.lobby)
  {
    if Current(w.attempts, lease) {
      var a := w.attempts[lease.id];
      var attempts := w.attempts[lease.id := Graded(a, Effective(w, a, verdict), Award(w, a, verdict))];
      if a.submission.context.Battle? {
        RecordSameEntry(w.lobby, cfg.score, attempts, lease.id);
      }
      hide RecordResult, Award, Effective, WithDaily, WithPresentation, WithCompletion;
    }
  }

  lemma {:induction false} StartEntry(l: Lobby, score: Option<nat>, active: set<int>, user: int, room: int,
                                      tasks: seq<int>, ids: seq<int>)
    requires EntryOk(l)
    ensures EntryOk(StartRoomStep(l, score, active, user, room, tasks, ids).0)
  {
    if FreshIds(l, ids, |tasks|) {
      StartsExactly(l, score, active, user, room, tasks, ids);
      hide StartRoomStep, Members, FreshIds;
    }
  }

  lemma {:induction false} LobbyStepEntry(cfg: Config, w: World, e: Event)
    requires EntryOk(w.lobby) && InLobby(e)
    ensures EntryOk(Step(cfg, w, e).lobby)
  {
    if e.StartRoom? {
      hide EntryOk, StartRoomStep;
      StartEntry(w.lobby, cfg.score, ActiveTasks(w.tasks), e.starter, e.started, e.tasks, e.ids);
    } else {
      hide Members, StartRoomStep;
    }
  }

  lemma {:induction false} StepEntry(cfg: Config, w: World, e: Event)
    requires EntryOk(w.lobby)
    ensures EntryOk(Step(cfg, w, e).lobby)
  {
    if InLobby(e) {
      LobbyStepEntry(cfg, w, e);
      hide *;
    } else {
      OtherStepSameEntry(cfg, w, e);
      hide Step, SameEntry, EntryOk;
      SameEntryOk(w.lobby, Step(cfg, w, e).lobby);
    }
  }

  lemma {:induction false} RunEntry(cfg: Config, events: seq<Event>)
    ensures EntryOk(Run(cfg, EMPTY, events).lobby)
  {
    if events != [] {
      RunEntry(cfg, events[..|events| - 1]);
      StepEntry(cfg, Run(cfg, EMPTY, events[..|events| - 1]), events[|events| - 1]);
      RunLast(cfg, EMPTY, events);
      hide Run, Step, EntryOk;
    }
  }

  /** In every reachable state the host of a room takes part in it, and in a started one everybody is ready. */
  lemma {:induction false} StartedAreReady(cfg: Config, events: seq<Event>, room: int, user: int)
    requires room in Run(cfg, EMPTY, events).lobby.rooms
    ensures var l := Run(cfg, EMPTY, events).lobby;
            && (room, l.rooms[room].host) in l.participants
            && (l.rooms[room].status != Waiting && (room, user) in l.participants ==>
                  l.participants[(room, user)].ready)
  {
    RunEntry(cfg, events);
    hide Run;
  }

  // ----- Nobody joins or leaves later -----

  lemma {:induction false} ClosedRoomStep(cfg: Config, w: World, e: Event, room: int)
    requires room in w.lobby.rooms && w.lobby.rooms[room].status != Waiting
    ensures Members(Step(cfg, w, e).lobby, room) == Members(w.lobby, room)
    ensures room in Step(cfg, w, e).lobby.rooms && Step(cfg, w, e).lobby.rooms[room].status != Waiting
  {
    StepForward(cfg, w, e, room);
    if InLobby(e) {
      hide Members, WithTasks;
      SameMembers(w.lobby, Step(cfg, w, e).lobby, room);
    } else {
      OtherStepSameEntry(cfg, w, e);
      hide Step, Members;
      SameMembers(w.lobby, Step(cfg, w, e).lobby, room);
    }
  }

  /** Once a room was started its participants stay the same, whatever happens. */
  lemma {:induction false} ParticipantsStay(cfg: Config, w: World, events: seq<Event>, room: int)
    requires room in w.lobby.rooms && w.lobby.rooms[room].status != Waiting
    ensures Members(Run(cfg, w, events).lobby, room) == Members(w.lobby, room)
    ensures room in Run(cfg, w, events).lobby.rooms && Run(cfg, w, events).lobby.rooms[room].status != Waiting
  {
    if events != [] {
      ParticipantsStay(cfg, w, events[..|events| - 1], room);
      ClosedRoomStep(cfg, Run(cfg, w, events[..|events| - 1]), events[|events| - 1], room);
      RunLast(cfg, w, events);
      hide Run, Step, Members;
    }
  }
}
