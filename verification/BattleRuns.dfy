/** Battle rooms over every run of the grading protocol: when they finish, and what scores mean. */
module BattleRuns {
  import opened Common
  import opened FiniteSets
  import opened Attempts
  import opened Battle
  import opened Grading
  import opened Fencing
  import opened Progress

  // ----- What the attempts say -----

  /** The user has a completed attempt on the room task. */
  ghost predicate Done(attempts: seq<Attempt>, user: int, roomTask: int) {
    exists i :: 0 <= i < |attempts| && Counts(attempts[i]) && attempts[i].user == user
        && OnRoomTask(attempts[i], roomTask)
  }

  /** The user has a completed correct attempt on the room task. */
  ghost predicate Solved(attempts: seq<Attempt>, user: int, roomTask: int) {
    exists i :: 0 <= i < |attempts| && Scores(attempts[i]) && attempts[i].user == user
        && OnRoomTask(attempts[i], roomTask)
  }

  ghost predicate AllDone(l: Lobby, attempts: seq<Attempt>, room: int) {
    forall user, t :: user in Members(l, room) && t in TasksOf(l, room) ==> Done(attempts, user, t)
  }

  /** The room tasks a user has solved. */
  ghost function SolvedTasks(l: Lobby, attempts: seq<Attempt>, room: int, user: int): set<int> {
    set t | t in TasksOf(l, room) && Solved(attempts, user, t)
  }

  function Points(score: Option<nat>): nat {
    if score.Some? then score.value else 0
  }

  // ----- The invariant -----

  ghost predicate RoomShape(l: Lobby, room: int)
    requires room in l.rooms
  {
    && |Members(l, room)| <= l.rooms[room].maxParticipants
    && (l.rooms[room].status == Waiting ==> TasksOf(l, room) == {})
    && (l.rooms[room].status != Waiting ==> |Members(l, room)| >= 2 && |TasksOf(l, room)| >= 1)
  }

  /** Participants and room tasks belong to rooms. */
  ghost predicate Shape(l: Lobby) {
    && (forall k :: k in l.participants ==> k.0 in l.rooms)
    && (forall t :: t in l.roomTasks ==> l.roomTasks[t].room in l.rooms)
    && (forall room :: room in l.rooms ==> RoomShape(l, room))
  }

  /** Battle attempts are on existing room tasks, by participants. */
  ghost predicate EntrantsOk(l: Lobby, attempts: seq<Attempt>) {
    forall i :: 0 <= i < |attempts| && attempts[i].submission.context.Battle? ==>
                  && attempts[i].submission.context.roomTask in l.roomTasks
                  && (l.roomTasks[attempts[i].submission.context.roomTask].room, attempts[i].user) in l.participants
  }

  ghost predicate FinishOk(l: Lobby, attempts: seq<Attempt>) {
    forall room :: room in l.rooms && l.rooms[room].status != Waiting ==>
        (l.rooms[room].status == Finished <==> AllDone(l, attempts, room))
  }

  ghost predicate ScoresOk(l: Lobby, score: Option<nat>, attempts: seq<Attempt>) {
    forall k :: k in l.participants ==> l.participants[k].score == Points(score) * |SolvedTasks(l, attempts, k.0, k.1)|
  }

  ghost predicate BattlesOk(l: Lobby, score: Option<nat>, attempts: seq<Attempt>) {
    Shape(l) && EntrantsOk(l, attempts) && FinishOk(l, attempts) && ScoresOk(l, score, attempts)
  }

  // ----- Counting -----

  lemma {:induction false} MemberIff(l: Lobby, room: int, user: int)
    ensures user in Members(l, room) <==> (room, user) in l.participants
  {
  }

  lemma {:induction false} SubmittedIff(l: Lobby, attempts: seq<Attempt>, room: int, user: int, t: int)
    ensures (user, t) in Submitted(l, attempts, room) <==> (t in TasksOf(l, room) && Done(attempts, user, t))
  {
  }

  /** The comparison of counts that finishes a room holds exactly when every participant has done every task. */
  lemma {:induction false} CountDecides(l: Lobby, attempts: seq<Attempt>, room: int)
    requires EntrantsOk(l, attempts)
    ensures |Submitted(l, attempts, room)| >= |Members(l, room)| * |TasksOf(l, room)| <==> AllDone(l, attempts, room)
  {
    var users, tasks, submitted := Members(l, room), TasksOf(l, room), Submitted(l, attempts, room);
    forall user, t
      ensures (user, t) in submitted <==> (t in tasks && Done(attempts, user, t))
      ensures (user, t) in submitted ==> user in users
    {
      SubmittedIff(l, attempts, room, user, t);
      MemberIff(l, room, user);
    }
    hide Members, TasksOf, Submitted, Done;
    forall p | p in submitted
      ensures p in Product(users, tasks)
    {
      assert (p.0, p.1) in submitted;
    }
    CountIsComplete(users, tasks, submitted);
    if submitted == Product(users, tasks) {
      forall user, t | user in users && t in tasks
        ensures Done(attempts, user, t)
      {
        assert (user, t) in Product(users, tasks);
      }
    }
    if AllDone(l, attempts, room) {
      forall p | p in Product(users, tasks)
        ensures p in submitted
      {
        InProduct(users, tasks, p);
        assert Done(attempts, p.0, p.1);
        assert (p.0, p.1) in submitted;
      }
      assert submitted == Product(users, tasks);
    }
  }

  // ----- Changes to the attempts -----

  ghost predicate SameResults(before: seq<Attempt>, after: seq<Attempt>) {
    forall user, t :: (Done(after, user, t) <==> Done(before, user, t))
        && (Solved(after, user, t) <==> Solved(before, user, t))
  }

  /** Changing one attempt that was not yet graded: what the new value adds. */
  lemma {:induction false} ResultUpdate(before: seq<Attempt>, id: nat, a: Attempt, user: int, t: int)
    requires id < |before| && !Terminal(before[id])
    ensures Done(before[id := a], user, t)
            <==> (Done(before, user, t) || (Counts(a) && a.user == user && OnRoomTask(a, t)))
    ensures Solved(before[id := a], user, t)
            <==> (Solved(before, user, t) || (Scores(a) && a.user == user && OnRoomTask(a, t)))
  {
    var after := before[id := a];
    assert after[id] == a;
    assert forall i :: 0 <= i < |before| && i != id ==> after[i] == before[i];
  }

  lemma {:induction false} ResultAppend(before: seq<Attempt>, a: Attempt)
    requires !Terminal(a)
    ensures SameResults(before, before + [a])
  {
    var after := before + [a];
    forall user, t
      ensures Done(after, user, t) <==> Done(before, user, t)
      ensures Solved(after, user, t) <==> Solved(before, user, t)
    {
      assert after[|before|] == a;
      assert forall i :: 0 <= i < |before| ==> after[i] == before[i];
    }
  }

  lemma {:induction false} MoveResults(before: seq<Attempt>, token: nat, after: seq<Attempt>, token': nat, c: Change)
    requires Moves(before, token, after, token', c) && !c.Persisted?
    ensures SameResults(before, after)
  {
    match c
    case Quiet =>
      if after != before {
        assert after == before + [after[|before|]];
        ResultAppend(before, after[|before|]);
      }
    case Issued(id, t) =>
      forall user, rt
        ensures (Done(after, user, rt) <==> Done(before, user, rt))
        ensures (Solved(after, user, rt) <==> Solved(before, user, rt))
      {
        ResultUpdate(before, id, after[id], user, rt);
        hide Done, Solved;
      }
  }

  lemma {:induction false} SameResultsKeep(l: Lobby, score: Option<nat>, before: seq<Attempt>, after: seq<Attempt>)
    requires SameResults(before, after) && FinishOk(l, before) && ScoresOk(l, score, before)
    ensures FinishOk(l, after) && ScoresOk(l, score, after)
  {
    hide Done, Solved, Members, TasksOf;
    forall k | k in l.participants
      ensures SolvedTasks(l, after, k.0, k.1) == SolvedTasks(l, before, k.0, k.1)
    {
    }
    forall room
      ensures AllDone(l, after, room) <==> AllDone(l, before, room)
    {
    }
  }

  // ----- Changes to the rooms before a battle -----

  lemma {:induction false} SameMembers(l: Lobby, l': Lobby, room: int)
    requires forall user :: (room, user) in l.participants <==> (room, user) in l'.participants
    ensures Members(l', room) == Members(l, room)
  {
    forall user
      ensures user in Members(l', room) <==> user in Members(l, room)
    {
      MemberIff(l, room, user);
      MemberIff(l', room, user);
    }
  }

  lemma {:induction false} SameTasksOf(l: Lobby, l': Lobby, room: int)
    requires l'.roomTasks == l.roomTasks
    ensures TasksOf(l', room) == TasksOf(l, room)
  {
  }

  lemma {:induction false} OneMoreMember(l: Lobby, l': Lobby, room: int, user: int)
    requires forall u :: (room, u) in l'.participants <==> ((room, u) in l.participants || u == user)
    ensures Members(l', room) == Members(l, room) + {user}
    ensures |Members(l', room)| <= |Members(l, room)| + 1
  {
    forall u
      ensures u in Members(l', room) <==> u in Members(l, room) + {user}
    {
      MemberIff(l, room, u);
      MemberIff(l', room, u);
    }
    hide Members;
    assert Members(l', room) == Members(l, room) + {user};
    AddOneSize(Members(l, room), user);
  }

  lemma {:induction false} AddOneSize<T>(s: set<T>, x: T)
    ensures |s + {x}| == |s| + if x in s then 0 else 1
  {
    if x in s {
      assert s + {x} == s;
    }
  }

  /** A room without tasks has no solved ones. */
  lemma {:induction false} NoTasksNoPoints(l: Lobby, attempts: seq<Attempt>, room: int, user: int)
    requires TasksOf(l, room) == {}
    ensures |SolvedTasks(l, attempts, room, user)| == 0
  {
  }

  lemma {:induction false} NoRoomNoTasks(l: Lobby, room: int)
    requires Shape(l) && room !in l.rooms
    ensures TasksOf(l, room) == {}
    ensures forall user :: (room, user) !in l.participants
  {
    forall t
      ensures t !in TasksOf(l, room)
    {
    }
  }

  lemma {:induction false} SameTasksSameSolved(l: Lobby, l': Lobby, before: seq<Attempt>, after: seq<Attempt>,
                                               room: int, user: int)
    requires TasksOf(l', room) == TasksOf(l, room)
    requires forall t :: t in TasksOf(l, room) ==> (Solved(after, user, t) <==> Solved(before, user, t))
    ensures SolvedTasks(l', after, room, user) == SolvedTasks(l, before, room, user)
  {
  }

  /** Room tasks and running rooms as before; participants as before or new in a room without tasks. */
  ghost predicate OnlyWaitingRoomsChange(l: Lobby, after: Lobby) {
    && after.roomTasks == l.roomTasks
    && (forall room :: room in after.rooms && after.rooms[room].status != Waiting ==>
          room in l.rooms && after.rooms[room] == l.rooms[room] && Members(after, room) == Members(l, room))
    && (forall k :: k in after.participants ==>
          if k in l.participants then after.participants[k].score == l.participants[k].score
          else after.participants[k].score == 0 && TasksOf(l, k.0) == {})
  }

  lemma {:induction false} WaitingRoomChangeKeeps(l: Lobby, after: Lobby, score: Option<nat>, attempts: seq<Attempt>)
    requires OnlyWaitingRoomsChange(l, after) && FinishOk(l, attempts) && ScoresOk(l, score, attempts)
    ensures FinishOk(after, attempts) && ScoresOk(after, score, attempts)
  {
  }

  lemma {:induction false} NoMembers(l: Lobby, room: int)
    requires forall user :: (room, user) !in l.participants
    ensures |Members(l, room)| == 0
  {
    var none: set<int> := {};
    forall u
      ensures u !in Members(l, room)
    {
      MemberIff(l, room, u);
    }
    assert Members(l, room) == none;
  }

  lemma {:induction false} CreateKeeps(l: Lobby, score: Option<nat>, attempts: seq<Attempt>, user: int, room: int,
                                       max: int)
    requires Shape(l) && FinishOk(l, attempts) && ScoresOk(l, score, attempts)
    ensures var after := CreateRoomStep(l, user, room, max).0;
            Shape(after) && FinishOk(after, attempts) && ScoresOk(after, score, attempts)
  {
    var after := CreateRoomStep(l, user, room, max).0;
    if after != l {
      NoRoomNoTasks(l, room);
      OneMoreMember(l, after, room, user);
      NoMembers(l, room);
      hide Members, FinishOk, ScoresOk;
      forall r | r in l.rooms
        ensures Members(after, r) == Members(l, r) && RoomShape(after, r)
      {
        SameMembers(l, after, r);
        assert RoomShape(l, r);
      }
      assert RoomShape(after, room);
      hide RoomShape;
      WaitingRoomChangeKeeps(l, after, score, attempts);
    }
  }

  lemma {:induction false} JoinKeeps(l: Lobby, score: Option<nat>, attempts: seq<Attempt>, user: int, room: int)
    requires Shape(l) && FinishOk(l, attempts) && ScoresOk(l, score, attempts)
    ensures var after := JoinRoomStep(l, user, room).0;
            Shape(after) && FinishOk(after, attempts) && ScoresOk(after, score, attempts)
  {
    var after := JoinRoomStep(l, user, room).0;
    if after != l {
      OneMoreMember(l, after, room, user);
      assert RoomShape(l, room);
      hide Members, TasksOf, FinishOk, ScoresOk;
      assert TasksOf(after, room) == TasksOf(l, room) by {
        SameTasksOf(l, after, room);
      }
      forall r | r in l.rooms && r != room
        ensures Members(after, r) == Members(l, r) && RoomShape(after, r)
      {
        SameMembers(l, after, r);
        SameTasksOf(l, after, r);
        assert RoomShape(l, r);
      }
      assert RoomShape(after, room);
      hide RoomShape, JoinRoomStep;
      WaitingRoomChangeKeeps(l, after, score, attempts);
    }
  }

  lemma {:induction false} ReadyKeeps(l: Lobby, score: Option<nat>, attempts: seq<Attempt>, user: int, room: int,
                                      ready: bool)
    requires Shape(l) && FinishOk(l, attempts) && ScoresOk(l, score, attempts)
    ensures var after := SetReadyStep(l, user, room, ready).0;
            Shape(after) && FinishOk(after, attempts) && ScoresOk(after, score, attempts)
  {
    var after := SetReadyStep(l, user, room, ready).0;
    if after != l {
      hide FinishOk, ScoresOk;
      forall r | r in l.rooms
        ensures Members(after, r) == Members(l, r) && RoomShape(after, r)
      {
        SameMembers(l, after, r);
        assert RoomShape(l, r);
        hide Members;
      }
      hide Members, RoomShape;
      WaitingRoomChangeKeeps(l, after, score, attempts);
    }
  }

  // ----- Starting a battle -----

  lemma {:induction false} WithTasksExactly(roomTasks: map<int, RoomTask>, room: int, tasks: seq<int>, ids: seq<int>,
                                            n: nat, t: int)
    requires n <= |tasks| && n <= |ids| && Distinct(ids)
    ensures t in WithTasks(roomTasks, room, tasks, ids, n) <==> (t in roomTasks || t in ids[..n])
    ensures t in WithTasks(roomTasks, room, tasks, ids, n) ==>
              (t in ids[..n] ==> WithTasks(roomTasks, room, tasks, ids, n)[t].room == room)
              && (t !in ids[..n] ==> WithTasks(roomTasks, room, tasks, ids, n)[t] == roomTasks[t])
  {
    if n > 0 {
      WithTasksExactly(roomTasks, room, tasks, ids, n - 1, t);
      assert ids[..n] == ids[..n - 1] + [ids[n - 1]];
    }
  }

  /** Starting a room gives it exactly the new room tasks, and no other room any. */
  lemma {:induction false} StartedTasks(l: Lobby, after: Lobby, room: int, tasks: seq<int>, ids: seq<int>, r: int)
    requires Shape(l) && FreshIds(l, ids, |tasks|) && TasksOf(l, room) == {}
    requires after.roomTasks == WithTasks(l.roomTasks, room, tasks, ids, |tasks|)
    ensures r != room ==> TasksOf(after, r) == TasksOf(l, r)
    ensures forall t :: t in TasksOf(after, room) <==> t in ids
  {
    assert ids[..|tasks|] == ids;
    forall t
      ensures r != room ==> (t in TasksOf(after, r) <==> t in TasksOf(l, r))
      ensures t in TasksOf(after, room) <==> t in ids
    {
      WithTasksExactly(l.roomTasks, room, tasks, ids, |tasks|, t);
      assert t in l.roomTasks && l.roomTasks[t].room == room ==> t in TasksOf(l, room);
    }
  }

  /** Nobody has done a room task that did not exist. */
  lemma {:induction false} NewTaskNotDone(l: Lobby, attempts: seq<Attempt>, user: int, t: int)
    requires EntrantsOk(l, attempts) && t !in l.roomTasks
    ensures !Done(attempts, user, t) && !Solved(attempts, user, t)
  {
  }

  lemma {:induction false} StartShape(l: Lobby, after: Lobby, room: int, tasks: seq<int>, ids: seq<int>)
    requires Shape(l) && FreshIds(l, ids, |tasks|) && tasks != []
    requires room in l.rooms && TasksOf(l, room) == {} && |Members(l, room)| >= 2
    requires after == l.(roomTasks := WithTasks(l.roomTasks, room, tasks, ids, |tasks|),
                         rooms := l.rooms[room := l.rooms[room].(status := Started)])
    ensures Shape(after)
    ensures forall r :: Members(after, r) == Members(l, r)
  {
    forall r
      ensures Members(after, r) == Members(l, r)
    {
      SameMembers(l, after, r);
    }
    assert ids[..|tasks|] == ids;
    forall t | t in after.roomTasks
      ensures after.roomTasks[t].room in after.rooms
    {
      WithTasksExactly(l.roomTasks, room, tasks, ids, |tasks|, t);
    }
    hide Members, WithTasks;
    forall r | r in after.rooms
      ensures RoomShape(after, r)
    {
      assert RoomShape(l, r);
      StartedTasks(l, after, room, tasks, ids, r);
      if r == room {
        assert ids[0] in TasksOf(after, room);
      }
    }
  }

  lemma {:induction false} StartKeeps(l: Lobby, score: Option<nat>, attempts: seq<Attempt>, active: set<int>, user: int,
                                      room: int, tasks: seq<int>, ids: seq<int>)
    requires BattlesOk(l, score, attempts)
    ensures var after := StartRoomStep(l, score, active, user, room, tasks, ids).0;
            Shape(after) && FinishOk(after, attempts) && ScoresOk(after, score, attempts)
  {
    var after := StartRoomStep(l, score, active, user, room, tasks, ids).0;
    if after != l {
      assert RoomShape(l, room);
      StartShape(l, after, room, tasks, ids);
      hide Members, WithTasks, TasksOf, Done, Solved, Shape;
      forall r
        ensures r != room ==> TasksOf(after, r) == TasksOf(l, r)
        ensures forall t :: t in TasksOf(after, room) <==> t in ids
      {
        StartedTasks(l, after, room, tasks, ids, r);
      }
      StartFinish(l, after, attempts, room, ids);
      forall k | k in after.participants
        ensures after.participants[k].score == Points(score) * |SolvedTasks(after, attempts, k.0, k.1)|
      {
        if k.0 == room {
          forall t | t in TasksOf(after, room)
            ensures !Solved(attempts, k.1, t)
          {
            NewTaskNotDone(l, attempts, k.1, t);
          }
          assert SolvedTasks(after, attempts, k.0, k.1) == {};
          NoTasksNoPoints(l, attempts, k.0, k.1);
        } else {
          SameTasksSameSolved(l, after, attempts, attempts, k.0, k.1);
        }
      }
    }
  }

  lemma {:induction false} StartFinish(l: Lobby, after: Lobby, attempts: seq<Attempt>, room: int, ids: seq<int>)
    requires FinishOk(l, attempts) && EntrantsOk(l, attempts) && ids != [] && |Members(l, room)| >= 2 && room in l.rooms
    requires after.rooms == l.rooms[room := l.rooms[room].(status := Started)]
    requires forall i :: 0 <= i < |ids| ==> ids[i] !in l.roomTasks
    requires forall r :: Members(after, r) == Members(l, r) && (r != room ==> TasksOf(after, r) == TasksOf(l, r))
    requires forall t :: t in TasksOf(after, room) <==> t in ids
    ensures FinishOk(after, attempts)
  {
    hide Members, TasksOf, Done;
    assert !AllDone(after, attempts, room) by {
      var user := AnyMember(Members(l, room));
      NewTaskNotDone(l, attempts, user, ids[0]);
    }
  }

  lemma {:induction false} AnyMember<T>(s: set<T>) returns (x: T)
    requires |s| > 0
    ensures x in s
  {
    x :| x in s;
  }

  // ----- Results -----

  /** The attempt's value changes from not graded to a battle result. */
  ghost predicate NewResult(l: Lobby, before: seq<Attempt>, id: nat, a: Attempt) {
    && id < |before| && !Terminal(before[id]) && Counts(a) && a.correct.Some?
    && a.user == before[id].user && a.submission == before[id].submission
    && EntrantsOk(l, before)
  }

  lemma {:induction false} ScoredBeforeIff(before: seq<Attempt>, id: nat, a: Attempt)
    requires id < |before| && !Terminal(before[id]) && a.submission.context.Battle?
    ensures ScoredBefore(before[id := a], id) <==> Solved(before, a.user, a.submission.context.roomTask)
  {
    var after := before[id := a];
    if Solved(before, a.user, a.submission.context.roomTask) {
      var i :| 0 <= i < |before| && Scores(before[i]) && before[i].user == a.user
          && OnRoomTask(before[i], a.submission.context.roomTask);
      assert after[i] == before[i];
    }
    if ScoredBefore(after, id) {
      var j :| 0 <= j < |after| && j != id && Scores(after[j]) && after[j].user == after[id].user
               && after[j].submission.context == after[id].submission.context;
      assert before[j] == after[j];
    }
  }

  lemma {:induction false} EntrantsStay(l: Lobby, l': Lobby, before: seq<Attempt>, id: nat, a: Attempt)
    requires NewResult(l, before, id, a) && l'.roomTasks == l.roomTasks && l'.participants.Keys == l.participants.Keys
    ensures EntrantsOk(l', before[id := a])
  {
  }

  /** What the result adds to the solved tasks of each participant. */
  lemma {:induction false} SolvedAfter(l: Lobby, before: seq<Attempt>, id: nat, a: Attempt, room: int, user: int)
    requires NewResult(l, before, id, a)
    ensures var rt := a.submission.context.roomTask;
            var (was, now) := (SolvedTasks(l, before, room, user), SolvedTasks(l, before[id := a], room, user));
            && (Scores(a) && user == a.user && rt in TasksOf(l, room) ==> now == was + {rt})
            && (!(Scores(a) && user == a.user && rt in TasksOf(l, room)) ==> now == was)
  {
    forall t
      ensures Solved(before[id := a], user, t)
              <==> (Solved(before, user, t) || (Scores(a) && a.user == user && OnRoomTask(a, t)))
    {
      ResultUpdate(before, id, a, user, t);
    }
    hide Solved, TasksOf, Scores;
  }

  /** The participant's score after the result. */
  lemma {:induction false} ScoreAfter(l: Lobby, score: Option<nat>, before: seq<Attempt>, id: nat, a: Attempt,
                                      k: (int, int))
    requires NewResult(l, before, id, a) && k in l.participants
    requires l.participants[k].score == Points(score) * |SolvedTasks(l, before, k.0, k.1)|
    ensures var rt := a.submission.context.roomTask;
            var room := l.roomTasks[rt].room;
            var l1 := AddPoints(l, score, before[id := a], id, room);
            l1.Some? && k in l1.value.participants
            && l1.value.participants[k].score == Points(score) * |SolvedTasks(l, before[id := a], k.0, k.1)|
  {
    var rt := a.submission.context.roomTask;
    var was := SolvedTasks(l, before, k.0, k.1);
    SolvedAfter(l, before, id, a, k.0, k.1);
    ScoredBeforeIff(before, id, a);
    AddOneSize(was, rt);
    MoreProduct(Points(score), |was|);
    assert rt in was ==> Solved(before, k.1, rt);
    assert rt in TasksOf(l, k.0) <==> k.0 == l.roomTasks[rt].room;
    hide ScoredBefore, SolvedTasks, TasksOf;
    assert rt in TasksOf(l, k.0) && Solved(before, k.1, rt) ==> rt in was by {
      InSolved(l, before, k.0, k.1, rt);
    }
  }

  lemma {:induction false} InSolved(l: Lobby, attempts: seq<Attempt>, room: int, user: int, t: int)
    ensures t in SolvedTasks(l, attempts, room, user) <==> t in TasksOf(l, room) && Solved(attempts, user, t)
  {
  }

  lemma {:induction false} MoreProduct(p: nat, n: nat)
    ensures p * (n + 1) == p * n + p
  {
  }

  lemma {:induction false} AddPointsFrame(l: Lobby, score: Option<nat>, attempts: seq<Attempt>, id: nat, room: int)
    requires id < |attempts| && attempts[id].submission.context.Battle? && (room, attempts[id].user) in l.participants
    ensures var l1 := AddPoints(l, score, attempts, id, room);
            l1.Some? && l1.value.rooms == l.rooms && l1.value.roomTasks == l.roomTasks
                && l1.value.participants.Keys == l.participants.Keys
  {
  }

  lemma {:induction false} SameKeysSameMembers(l: Lobby, l': Lobby, room: int)
    requires l'.participants.Keys == l.participants.Keys && l'.roomTasks == l.roomTasks
    ensures Members(l', room) == Members(l, room) && TasksOf(l', room) == TasksOf(l, room)
  {
  }

  /** Finishing compares counts; the status is right afterwards for every room. */
  lemma {:induction false} FinishAfter(l: Lobby, l1: Lobby, before: seq<Attempt>, id: nat, a: Attempt)
    requires Shape(l) && FinishOk(l, before) && NewResult(l, before, id, a)
    requires l1.rooms == l.rooms && l1.roomTasks == l.roomTasks && l1.participants.Keys == l.participants.Keys
    ensures FinishOk(FinishIfComplete(l1, before[id := a], l.roomTasks[a.submission.context.roomTask].room),
                     before[id := a])
  {
    var after := before[id := a];
    var rt := a.submission.context.roomTask;
    var room := l.roomTasks[rt].room;
    var l2 := FinishIfComplete(l1, after, room);
    EntrantsStay(l, l1, before, id, a);
    CountDecides(l1, after, room);
    assert rt in TasksOf(l, room);
    assert RoomShape(l, room);
    SameKeysSameMembers(l, l1, room);
    forall user, t
      ensures Done(after, user, t) <==> (Done(before, user, t) || (a.user == user && rt == t))
    {
      ResultUpdate(before, id, a, user, t);
    }
    hide Done, Submitted, Counts;
    forall r | r in l2.rooms && l2.rooms[r].status != Waiting
      ensures l2.rooms[r].status == Finished <==> AllDone(l2, after, r)
    {
      SameKeysSameMembers(l, l2, r);
      hide Members;
      if r != room {
        assert rt !in TasksOf(l, r);
        assert AllDone(l2, after, r) <==> AllDone(l, before, r);
      } else {
        assert AllDone(l2, after, r) <==> AllDone(l1, after, r);
        assert AllDone(l, before, r) ==> AllDone(l1, after, r);
      }
    }
  }

  lemma {:induction false} RecordShape(l: Lobby, l2: Lobby)
    requires Shape(l) && l2.participants.Keys == l.participants.Keys
    requires l2.roomTasks == l.roomTasks && l2.rooms.Keys == l.rooms.Keys
    requires forall r :: r in l.rooms ==> l2.rooms[r].maxParticipants == l.rooms[r].maxParticipants
                                          && (l2.rooms[r].status == Waiting <==> l.rooms[r].status == Waiting)
    ensures Shape(l2)
  {
  }

  lemma {:induction false} FinishFrame(l: Lobby, attempts: seq<Attempt>, room: int)
    ensures var l2 := FinishIfComplete(l, attempts, room);
            && l2.participants == l.participants && l2.roomTasks == l.roomTasks && l2.rooms.Keys == l.rooms.Keys
            && forall r :: r in l.rooms ==> l2.rooms[r].maxParticipants == l.rooms[r].maxParticipants
                                            && (l2.rooms[r].status == Waiting <==> l.rooms[r].status == Waiting)
  {
  }

  /** Recording a battle result keeps the invariant. */
  lemma {:induction false} RecordKeeps(l: Lobby, score: Option<nat>, before: seq<Attempt>, id: nat, a: Attempt)
    requires BattlesOk(l, score, before) && NewResult(l, before, id, a)
    ensures RecordResult(l, score, before[id := a], id).Some?
    ensures var l2 := RecordResult(l, score, before[id := a], id).value;
            Shape(l2) && FinishOk(l2, before[id := a]) && ScoresOk(l2, score, before[id := a])
  {
    var after := before[id := a];
    var room := l.roomTasks[a.submission.context.roomTask].room;
    assert (room, a.user) in l.participants;
    AddPointsFrame(l, score, after, id, room);
    var l1 := AddPoints(l, score, after, id, room).value;
    FinishAfter(l, l1, before, id, a);
    FinishFrame(l1, after, room);
    var l2 := FinishIfComplete(l1, after, room);
    assert RecordResult(l, score, after, id) == Some(l2);
    hide NewResult, AddPoints, FinishIfComplete, RecordResult, FinishOk, SolvedTasks, RoomShape;
    RecordShape(l, l2);
    forall k | k in l2.participants
      ensures l2.participants[k].score == Points(score) * |SolvedTasks(l2, after, k.0, k.1)|
    {
      ScoreAfter(l, score, before, id, a, k);
      SameKeysSameMembers(l, l2, k.0);
      SameTasksSameSolved(l, l2, after, after, k.0, k.1);
    }
  }

  // ----- Every step and every run -----

  ghost predicate RoomsOk(cfg: Config, w: World) {
    Shape(w.lobby) && FinishOk(w.lobby, w.attempts) && ScoresOk(w.lobby, cfg.score, w.attempts)
  }

  lemma {:induction false} RefsGiveEntrants(w: World)
    requires RefsOk(w)
    ensures EntrantsOk(w.lobby, w.attempts)
  {
  }

  lemma {:induction false} PersistLobby(cfg: Config, w: World, lease: Lease, verdict: Verdict)
    requires PersistStep(cfg, w, lease, verdict).1
    ensures var (after, a) := (PersistStep(cfg, w, lease, verdict).0, w.attempts[lease.id]);
            && Current(w.attempts, lease)
            && after.attempts == w.attempts[lease.id := Graded(a, Effective(w, a, verdict), Award(w, a, verdict))]
            && WithBattle(cfg, w, after.attempts, lease.id) == Some(after.lobby)
  {
  }

  lemma {:induction false} OtherResult(before: seq<Attempt>, id: nat, a: Attempt)
    requires id < |before| && !Terminal(before[id]) && !Counts(a)
    ensures SameResults(before, before[id := a])
  {
    forall user, t
      ensures (Done(before[id := a], user, t) <==> Done(before, user, t))
      ensures (Solved(before[id := a], user, t) <==> Solved(before, user, t))
    {
      ResultUpdate(before, id, a, user, t);
    }
  }

  lemma {:induction false} PersistKeepsRooms(cfg: Config, w: World, lease: Lease, verdict: Verdict)
    requires RefsOk(w) && RoomsOk(cfg, w) && PersistStep(cfg, w, lease, verdict).1
    ensures RoomsOk(cfg, PersistStep(cfg, w, lease, verdict).0)
  {
    RefsGiveEntrants(w);
    PersistLobby(cfg, w, lease, verdict);
    hide PersistStep, RefsOk, Award, Effective, Shape, FinishOk, ScoresOk, EntrantsOk, RecordResult, SameResults;
    var a := w.attempts[lease.id];
    var graded := Graded(a, Effective(w, a, verdict), Award(w, a, verdict));
    if graded.submission.context.Battle? && graded.correct.Some? {
      RecordKeeps(w.lobby, cfg.score, w.attempts, lease.id, graded);
    } else {
      OtherResult(w.attempts, lease.id, graded);
      SameResultsKeep(w.lobby, cfg.score, w.attempts, w.attempts[lease.id := graded]);
    }
  }

  predicate InLobby(e: Event) {
    e.CreateRoom? || e.JoinRoom? || e.SetReady? || e.StartRoom?
  }

  lemma {:induction false} LobbyUnchanged(cfg: Config, w: World, e: Event)
    requires !InLobby(e) && !ChangeOf(cfg, w, e).Persisted?
    ensures Step(cfg, w, e).lobby == w.lobby
  {
  }

  lemma {:induction false} LobbyEventKeepsRooms(cfg: Config, w: World, e: Event)
    requires RefsOk(w) && RoomsOk(cfg, w) && InLobby(e)
    ensures RoomsOk(cfg, Step(cfg, w, e))
  {
    RefsGiveEntrants(w);
    hide RefsOk, Shape, FinishOk, ScoresOk, EntrantsOk, CreateRoomStep, JoinRoomStep, SetReadyStep, StartRoomStep,
        ActiveTasks;
    match e
    case CreateRoom(user, room, max) => CreateKeeps(w.lobby, cfg.score, w.attempts, user, room, max);
    case JoinRoom(user, room) => JoinKeeps(w.lobby, cfg.score, w.attempts, user, room);
    case SetReady(user, room, ready) => ReadyKeeps(w.lobby, cfg.score, w.attempts, user, room, ready);
    case StartRoom(user, room, tasks, ids) =>
        StartKeeps(w.lobby, cfg.score, w.attempts, ActiveTasks(w.tasks), user, room, tasks, ids);
  }

  lemma {:induction false} StepKeepsRooms(cfg: Config, w: World, e: Event)
    requires RefsOk(w) && RoomsOk(cfg, w)
    ensures RoomsOk(cfg, Step(cfg, w, e))
  {
    if InLobby(e) {
      LobbyEventKeepsRooms(cfg, w, e);
      hide *;
    } else if ChangeOf(cfg, w, e).Persisted? {
      hide PersistStep, RoomsOk, RefsOk;
      PersistKeepsRooms(cfg, w, e.lease, e.verdict);
    } else {
      StepMoves(cfg, w, e);
      LobbyUnchanged(cfg, w, e);
      hide Step, ChangeOf, Moves, SameResults, Shape, FinishOk, ScoresOk, RefsOk;
      MoveResults(w.attempts, w.nextToken, Step(cfg, w, e).attempts, Step(cfg, w, e).nextToken, ChangeOf(cfg, w, e));
      SameResultsKeep(w.lobby, cfg.score, w.attempts, Step(cfg, w, e).attempts);
    }
  }

  lemma {:induction false} RunKeepsRooms(cfg: Config, events: seq<Event>)
    ensures RoomsOk(cfg, Run(cfg, EMPTY, events))
  {
    if events != [] {
      RunKeepsRooms(cfg, events[..|events| - 1]);
      RefsRun(cfg, events[..|events| - 1]);
      StepKeepsRooms(cfg, Run(cfg, EMPTY, events[..|events| - 1]), events[|events| - 1]);
      RunLast(cfg, EMPTY, events);
      hide Run, Step, RoomsOk, RefsOk;
    }
  }

  /**
   In every run, a room that was started is finished exactly when every participant has a completed
   attempt on every one of its tasks, though the code only compares two counts.
   */
  lemma {:induction false} FinishedIffAllDone(cfg: Config, events: seq<Event>, room: int)
    requires room in Run(cfg, EMPTY, events).lobby.rooms && Run(cfg, EMPTY, events).lobby.rooms[room].status != Waiting
    ensures var w := Run(cfg, EMPTY, events);
            w.lobby.rooms[room].status == Finished
            <==> forall user, t :: user in Members(w.lobby, room) && t in TasksOf(w.lobby, room) ==>
              Done(w.attempts, user, t)
  {
    RunKeepsRooms(cfg, events);
    hide Run, Done, Members, TasksOf, Shape, ScoresOk;
  }

  /**
   In every run a participant's score is the configured score times the number of room tasks solved, in
   whatever order they were graded.
   */
  lemma {:induction false} ScoreIsSolvedTasks(cfg: Config, events: seq<Event>, room: int, user: int)
    requires (room, user) in Run(cfg, EMPTY, events).lobby.participants
    ensures var w := Run(cfg, EMPTY, events);
            w.lobby.participants[(room, user)].score
                == Points(cfg.score) * |SolvedTasks(w.lobby, w.attempts, room, user)|
  {
    RunKeepsRooms(cfg, events);
    hide Run, Shape, FinishOk, SolvedTasks;
  }

  /** No room ever has more participants than its maximum, and a started one has at least two and at least one task. */
  lemma {:induction false} RoomSizes(cfg: Config, events: seq<Event>, room: int)
    requires room in Run(cfg, EMPTY, events).lobby.rooms
    ensures var l := Run(cfg, EMPTY, events).lobby;
            && |Members(l, room)| <= l.rooms[room].maxParticipants
            && (l.rooms[room].status == Waiting ==> TasksOf(l, room) == {})
            && (l.rooms[room].status != Waiting ==> |Members(l, room)| >= 2 && |TasksOf(l, room)| >= 1)
  {
    RunKeepsRooms(cfg, events);
    hide Run, FinishOk, ScoresOk, Members, TasksOf;
    assert RoomShape(Run(cfg, EMPTY, events).lobby, room);
  }

  // ----- The order of a room's states -----

  function Rank(s: RoomStatus): nat {
    match s
    case Waiting => 0
    case Started => 1
    case Finished => 2
  }

  /** The room is still there, and its status is the same or the next one. */
  ghost predicate Forward(before: Lobby, after: Lobby, room: int)
    requires room in before.rooms
  {
    && room in after.rooms
    && Rank(before.rooms[room].status) <= Rank(after.rooms[room].status) <= Rank(before.rooms[room].status) + 1
  }

  lemma {:induction false} RecordForward(l: Lobby, score: Option<nat>, attempts: seq<Attempt>, id: nat, room: int)
    requires id < |attempts| && attempts[id].submission.context.Battle?
    requires room in l.rooms && RecordResult(l, score, attempts, id).Some?
    ensures Forward(l, RecordResult(l, score, attempts, id).value, room)
  {
  }

  lemma {:induction false} StepForward(cfg: Config, w: World, e: Event, room: int)
    requires room in w.lobby.rooms
    ensures Forward(w.lobby, Step(cfg, w, e).lobby, room)
  {
    if InLobby(e) {
      hide Members, WithTasks, FreshIds, ActiveTasks;
    } else if ChangeOf(cfg, w, e).Persisted? {
      PersistLobby(cfg, w, e.lease, e.verdict);
      hide PersistStep, Award, Effective, RecordResult, Forward;
      var attempts := PersistStep(cfg, w, e.lease, e.verdict).0.attempts;
      if attempts[e.lease.id].submission.context.Battle? && attempts[e.lease.id].correct.Some? {
        RecordForward(w.lobby, cfg.score, attempts, e.lease.id, room);
      } else {
        StandingStill(w.lobby, room);
      }
    } else {
      LobbyUnchanged(cfg, w, e);
      hide Step;
    }
  }

  lemma {:induction false} StandingStill(l: Lobby, room: int)
    requires room in l.rooms
    ensures Forward(l, l, room)
  {
  }

  /** Along every run from any state a room only goes from waiting to started to finished, one at a time. */
  lemma {:induction false} RoomsOnlyGoForward(cfg: Config, w: World, events: seq<Event>, room: int)
    requires room in w.lobby.rooms
    ensures room in Run(cfg, w, events).lobby.rooms
    ensures Rank(w.lobby.rooms[room].status) <= Rank(Run(cfg, w, events).lobby.rooms[room].status)
    ensures events != [] ==> room in Run(cfg, w, events[..|events| - 1]).lobby.rooms
                             && Forward(Run(cfg, w, events[..|events| - 1]).lobby, Run(cfg, w, events).lobby, room)
  {
    if events != [] {
      RoomsOnlyGoForward(cfg, w, events[..|events| - 1], room);
      StepForward(cfg, Run(cfg, w, events[..|events| - 1]), events[|events| - 1], room);
      RunLast(cfg, w, events);
      hide Run, Step;
    }
  }
}
