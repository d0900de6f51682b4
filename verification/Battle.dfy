/** Battle rooms, after app/modules/battle/service.py. */
module Battle {
  import opened Common
  import opened Attempts
  import opened FiniteSets

  datatype RoomStatus = Waiting | Started | Finished

  datatype Room = Room(host: int, status: RoomStatus, maxParticipants: int)

  datatype Participant = Participant(score: int, ready: bool)

  datatype RoomTask = RoomTask(room: int, task: int)

  /** The tables: rooms, participants by room and user, room tasks by row id. */
  datatype Lobby = Lobby(rooms: map<int, Room>, participants: map<(int, int), Participant>,
                         roomTasks: map<int, RoomTask>)

  datatype BattleReply = Refused | Ok

  /** The participants of a room. */
  function Members(l: Lobby, room: int): set<int> {
    set k | k in l.participants && k.0 == room :: k.1
  }

  function TasksOf(l: Lobby, room: int): set<int> {
    set t | t in l.roomTasks && l.roomTasks[t].room == room
  }

  // ----- Before a battle -----

  function CreateRoomStep(l: Lobby, user: int, room: int, maxParticipants: int): (Lobby, BattleReply) {
    if room in l.rooms || maxParticipants <= 0 then (l, Refused)
    else
      (l.(rooms := l.rooms[room := Room(user, Waiting, maxParticipants)],
          participants := l.participants[(room, user) := Participant(0, true)]), Ok)
  }

  function JoinRoomStep(l: Lobby, user: int, room: int): (Lobby, BattleReply) {
    if room !in l.rooms || l.rooms[room].status != Waiting then (l, Refused)
    else if (room, user) in l.participants then (l, Ok)
    else if |Members(l, room)| >= l.rooms[room].maxParticipants then (l, Refused)
    else (l.(participants := l.participants[(room, user) := Participant(0, false)]), Ok)
  }

  function SetReadyStep(l: Lobby, user: int, room: int, ready: bool): (Lobby, BattleReply) {
    if room !in l.rooms || (room, user) !in l.participants || l.rooms[room].status != Waiting then (l, Refused)
    else (l.(participants := l.participants[(room, user) := l.participants[(room, user)].(ready := ready)]), Ok)
  }

  predicate Distinct(tasks: seq<int>) {
    forall i, j :: 0 <= i < j < |tasks| ==> tasks[i] != tasks[j]
  }

  /** Room tasks get new row ids, one for each task. */
  predicate FreshIds(l: Lobby, ids: seq<int>, n: nat) {
    |ids| == n && Distinct(ids) && forall i :: 0 <= i < n ==> ids[i] !in l.roomTasks
  }

  function WithTasks(roomTasks: map<int, RoomTask>, room: int, tasks: seq<int>, ids: seq<int>,
                     n: nat): map<int, RoomTask>
    requires n <= |tasks| && n <= |ids|
  {
    if n == 0 then roomTasks
        else WithTasks(roomTasks, room, tasks, ids, n - 1)[ids[n - 1] := RoomTask(room, tasks[n - 1])]
  }

  function StartRoomStep(l: Lobby, score: Option<nat>, active: set<int>, user: int, room: int, tasks: seq<int>,
                         ids: seq<int>): (Lobby, BattleReply) {
    if score.None? then (l, Refused)
    else if room !in l.rooms || l.rooms[room].host != user || l.rooms[room].status != Waiting then (l, Refused)
    else if |Members(l, room)| < 2 || exists u :: u in Members(l, room) && !l.participants[(room, u)].ready
        then (l, Refused)
    else if tasks == [] || !Distinct(tasks) then (l, Refused)
    else if exists i :: 0 <= i < |tasks| && tasks[i] !in active then (l, Refused)
    else if !FreshIds(l, ids, |tasks|) then (l, Refused)
    else
      (l.(roomTasks := WithTasks(l.roomTasks, room, tasks, ids, |tasks|),
          rooms := l.rooms[room := l.rooms[room].(status := Started)]), Ok)
  }

  // ----- Results -----

  predicate OnRoomTask(a: Attempt, roomTask: int) {
    a.submission.context == Battle(roomTask)
  }

  /** An attempt that counts as submitted for its room task. */
  predicate Counts(a: Attempt) {
    a.submission.context.Battle? && a.status == Completed
  }

  predicate Scores(a: Attempt) {
    Counts(a) && a.correct == Some(true)
  }

  /** The different (user, room task) pairs with a completed attempt in the room. */
  function Submitted(l: Lobby, attempts: seq<Attempt>, room: int): set<(int, int)> {
    set a | a in attempts && Counts(a)
        && a.submission.context.roomTask in TasksOf(l, room) :: (a.user, a.submission.context.roomTask)
  }

  function FinishIfComplete(l: Lobby, attempts: seq<Attempt>, room: int): Lobby {
    if room !in l.rooms || l.rooms[room].status != Started then l
    else if |Members(l, room)| > 0 && |TasksOf(l, room)| > 0
        && |Submitted(l, attempts, room)| >= |Members(l, room)| * |TasksOf(l, room)| then
      l.(rooms := l.rooms[room := l.rooms[room].(status := Finished)])
    else l
  }

  /** Another attempt of the same user on the same room task was correct. */
  predicate ScoredBefore(attempts: seq<Attempt>, id: nat)
    requires id < |attempts| && attempts[id].submission.context.Battle?
  {
    exists j :: 0 <= j < |attempts| && j != id && Scores(attempts[j]) && attempts[j].user == attempts[id].user
                && attempts[j].submission.context == attempts[id].submission.context
  }

  /** The points a result adds: the configured score for the first correct attempt on the task. */
  function AddPoints(l: Lobby, score: Option<nat>, attempts: seq<Attempt>, id: nat, room: int): Option<Lobby>
    requires id < |attempts| && attempts[id].submission.context.Battle?
  {
    var a := attempts[id];
    if a.correct != Some(true) || score.None? then Some(l)
    else if (room, a.user) !in l.participants then None
    else if ScoredBefore(attempts, id) then Some(l)
    else
      var p := l.participants[(room, a.user)];
      Some(l.(participants := l.participants[(room, a.user) := p.(score := p.score + score.value)]))
  }

  /** None when the room task or the participant is missing; the attempts already hold the new result. */
  function RecordResult(l: Lobby, score: Option<nat>, attempts: seq<Attempt>, id: nat): Option<Lobby>
    requires id < |attempts| && attempts[id].submission.context.Battle?
  {
    var roomTask := attempts[id].submission.context.roomTask;
    if roomTask !in l.roomTasks then None
    else
      var room := l.roomTasks[roomTask].room;
      var scored := AddPoints(l, score, attempts, id, room);
      if scored.None? then None else Some(FinishIfComplete(scored.value, attempts, room))
  }

  // ----- Counting pairs -----

  /** Counting distinct pairs decides completeness: as many as participants times tasks means every pair. */
  lemma {:induction false} CountIsComplete<A, B>(users: set<A>, tasks: set<B>, submitted: set<(A, B)>)
    requires submitted <= Product(users, tasks)
    ensures |submitted| >= |users| * |tasks| <==> submitted == Product(users, tasks)
  {
    var all := Product(users, tasks);
    ProductSize(users, tasks);
    assert all == submitted + (all - submitted);
    if |submitted| >= |users| * |tasks| {
      assert |all - submitted| == 0;
      assert all - submitted == {};
    }
  }
}
