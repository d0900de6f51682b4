/** The battle tables, updated in place as app/modules/battle/service.py does. */
module BattleService {
  import opened Common
  import opened Attempts
  import opened Battle

  class BattleRooms {
    var rooms: map<int, Room>
    var participants: map<(int, int), Participant>
    var roomTasks: map<int, RoomTask>

    constructor ()
      ensures Value() == Lobby(map[], map[], map[])
    {
      rooms, participants, roomTasks := map[], map[], map[];
    }

    function Value(): Lobby
      reads this
    {
      Lobby(rooms, participants, roomTasks)
    }

    method CreateRoom(user: int, room: int, maxParticipants: int) returns (r: BattleReply)
      modifies this
      ensures (Value(), r) == CreateRoomStep(old(Value()), user, room, maxParticipants)
    {
      if room in rooms || maxParticipants <= 0 {
        return Refused;
      }
      rooms := rooms[room := Room(user, Waiting, maxParticipants)];
      participants := participants[(room, user) := Participant(0, true)];
      r := Ok;
    }

    method JoinRoom(user: int, room: int) returns (r: BattleReply)
      modifies this`participants
      ensures (Value(), r) == JoinRoomStep(old(Value()), user, room)
    {
      if room !in rooms || rooms[room].status != Waiting {
        return Refused;
      }
      if (room, user) !in participants {
        if |Members(Value(), room)| >= rooms[room].maxParticipants {
          return Refused;
        }
        participants := participants[(room, user) := Participant(0, false)];
      }
      r := Ok;
    }

    method SetReady(user: int, room: int, ready: bool) returns (r: BattleReply)
      modifies this`participants
      ensures (Value(), r) == SetReadyStep(old(Value()), user, room, ready)
    {
      if room !in rooms || (room, user) !in participants || rooms[room].status != Waiting {
        return Refused;
      }
      participants := participants[(room, user) := participants[(room, user)].(ready := ready)];
      r := Ok;
    }

    method StartRoom(score: Option<nat>, active: set<int>, user: int, room: int, tasks: seq<int>, ids: seq<int>)
      returns (r: BattleReply)
      modifies this
      ensures (Value(), r) == StartRoomStep(old(Value()), score, active, user, room, tasks, ids)
    {
      if score.None? {
        return Refused;
      }
      if room !in rooms || rooms[room].host != user || rooms[room].status != Waiting {
        return Refused;
      }
      var members := Members(Value(), room);
      if |members| < 2 || exists u :: u in members && !participants[(room, u)].ready {
        return Refused;
      }
      if tasks == [] || !Distinct(tasks) {
        return Refused;
      }
      if exists i :: 0 <= i < |tasks| && tasks[i] !in active {
        return Refused;
      }
      if !FreshIds(Value(), ids, |tasks|) {
        return Refused;
      }
      for n := 0 to |tasks|
        invariant roomTasks == WithTasks(old(roomTasks), room, tasks, ids, n)
        invariant rooms == old(rooms) && participants == old(participants)
      {
        roomTasks := roomTasks[ids[n] := RoomTask(room, tasks[n])];
      }
      rooms := rooms[room := rooms[room].(status := Started)];
      r := Ok;
    }

    /** Finishes the room when as many different pairs of user and task are completed as there are. */
    method FinishRoomIfComplete(attempts: seq<Attempt>, room: int)
      modifies this`rooms
      ensures Value() == FinishIfComplete(old(Value()), attempts, room)
    {
      hide Members, TasksOf, Submitted;
      if room !in rooms || rooms[room].status != Started {
        return;
      }
      var participantCount := |Members(Value(), room)|;
      var taskCount := |TasksOf(Value(), room)|;
      var submitted := |Submitted(Value(), attempts, room)|;
      if participantCount != 0 && taskCount != 0 && submitted >= participantCount * taskCount {
        rooms := rooms[room := rooms[room].(status := Finished)];
      }
    }

    /**
     Scores the first correct attempt on a room task, then looks whether the room is finished. False when a
     row is missing.
     */
    method RecordAttemptResult(score: Option<nat>, attempts: seq<Attempt>, id: nat) returns (ok: bool)
      requires id < |attempts| && attempts[id].submission.context.Battle?
      modifies this
      ensures ok <==> RecordResult(old(Value()), score, attempts, id).Some?
      ensures Value() == if ok then RecordResult(old(Value()), score, attempts, id).value else old(Value())
    {
      hide ScoredBefore, FinishIfComplete;
      var attempt := attempts[id];
      var roomTask := attempt.submission.context.roomTask;
      if roomTask !in roomTasks {
        return false;
      }
      var room := roomTasks[roomTask].room;
      if attempt.correct == Some(true) && score.Some? {
        var key := (room, attempt.user);
        if key !in participants {
          return false;
        }
        if !ScoredBefore(attempts, id) {
          participants := participants[key := participants[key].(score := participants[key].score + score.value)];
        }
      }
      FinishRoomIfComplete(attempts, room);
      ok := true;
    }

    /** Puts back what a rolled back transaction had changed. */
    method Restore(saved: Lobby)
      modifies this
      ensures Value() == saved
    {
      rooms, participants, roomTasks := saved.rooms, saved.participants, saved.roomTasks;
    }
  }
}
