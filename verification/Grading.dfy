/**
 The grading protocol as atomic steps on the tables, after app/modules/grading/service.py, with the
 steps around it that it depends on: submission, learning reset, battle rooms, and catalogue and
 balance changes made elsewhere. A step that fails changes nothing, as its transaction is rolled back.
 */
module Grading {
  import opened Common
  import opened Attempts
  import opened Battle

  const SECOND: int := 1_000_000
  const DAY: int := 86_400 * SECOND
  /** The game calendar follows Asia/Seoul, nine hours ahead of UTC. */
  const GAME_OFFSET: int := 9 * 3_600 * SECOND

  function GameDate(moment: int): int {
    (moment + GAME_OFFSET) / DAY
  }

  datatype Config = Config(leaseTime: nat, score: Option<nat>)

  datatype User = User(balance: int, resetAt: Option<int>, version: nat)

  /** How a problem is answered. */
  datatype Form = CodeForm | ChoiceForm

  /** No options is an empty list. */
  datatype Task = Task(reward: nat, active: bool, form: Form, options: seq<string>)

  datatype Completion = Completion(user: int, task: int, date: int, attempt: nat, coins: nat)

  datatype Kind = LearningKind | DailyKind | BattleKind

  datatype Presentation = Presentation(user: int, task: int, kind: Kind, form: Form, options: seq<string>,
                                       completed: bool)

  datatype DailyTask = DailyTask(user: int, date: int, task: int, done: bool)

  datatype World = World(
    attempts: seq<Attempt>, nextToken: nat,
    users: map<int, User>, tasks: map<int, Task>, completions: seq<Completion>,
    presentations: map<int, Presentation>, dailies: map<int, DailyTask>, lobby: Lobby)

  datatype Error =
    | TaskNotFound | TierLocked | PresentationRequired | PresentationNotFound | ContentRefused
    | DailyNotFound | BattleNotFound | UserNotFound | RequestConflict

  datatype Created = CreateError(error: Error) | AttemptId(id: nat)

  // ----- Submission -----

  function KindOf(c: Context): Kind {
    match c
    case Learning => LearningKind
    case Daily(_) => DailyKind
    case Battle(_) => BattleKind
  }

  function FindRequest(attempts: seq<Attempt>, request: int): (r: Option<nat>)
    ensures r.Some? ==> r.value < |attempts| && attempts[r.value].request == request
    ensures r.None? ==> forall i :: 0 <= i < |attempts| ==> attempts[i].request != request
  {
    if attempts == [] then None
    else if attempts[|attempts| - 1].request == request then Some(|attempts| - 1)
    else FindRequest(attempts[..|attempts| - 1], request)
  }

  predicate PresentationFits(w: World, user: int, s: Submission) {
    s.presentation.Some? ==>
      && s.presentation.value in w.presentations
      && var p := w.presentations[s.presentation.value];
         p.user == user && p.task == s.task && p.kind == KindOf(s.context) && !p.completed
  }

  predicate DailyFits(w: World, user: int, s: Submission, now: int) {
    s.context.Daily? ==>
      && s.context.attendanceTask in w.dailies
      && var d := w.dailies[s.context.attendanceTask];
         d.user == user && d.date == GameDate(now) && d.task == s.task && !d.done
  }

  predicate BattleFits(w: World, user: int, s: Submission) {
    s.context.Battle? ==>
      && s.context.roomTask in w.lobby.roomTasks
      && var rt := w.lobby.roomTasks[s.context.roomTask];
         && (rt.room, user) in w.lobby.participants
         && rt.room in w.lobby.rooms && w.lobby.rooms[rt.room].status == Started
         && rt.task == s.task
  }

  /** The answer has the form asked for: of the presentation if there is one, of the problem itself otherwise. */
  predicate ContentFits(w: World, s: Submission)
    requires s.task in w.tasks
  {
    var shown := s.presentation.Some? && s.presentation.value in w.presentations;
    var form := if shown then w.presentations[s.presentation.value].form else w.tasks[s.task].form;
    var options := if shown then w.presentations[s.presentation.value].options else w.tasks[s.task].options;
    match form
    case CodeForm => s.code.Some?
    case ChoiceForm => s.option.Some? && s.option.value in options
  }

  function SubmissionError(w: World, user: int, s: Submission, now: int, unlocked: bool): Option<Error> {
    if s.task !in w.tasks || !w.tasks[s.task].active then Some(TaskNotFound)
    else if s.context.Learning? && !unlocked then Some(TierLocked)
    else if s.context.Learning? && w.tasks[s.task].options != [] && s.presentation.None? then Some(PresentationRequired)
    else if !PresentationFits(w, user, s) then Some(PresentationNotFound)
    else if !ContentFits(w, s) then Some(ContentRefused)
    else if !DailyFits(w, user, s, now) then Some(DailyNotFound)
    else if !BattleFits(w, user, s) then Some(BattleNotFound)
    else if user !in w.users then Some(UserNotFound)
    else None
  }

  /** unlocked is whether the user's tier, if the problem's concept has one, reaches the difficulty. */
  function CreateStep(w: World, request: int, user: int, s: Submission, now: int, unlocked: bool): (World, Created) {
    var existing := FindRequest(w.attempts, request);
    if existing.Some? then
      var a := w.attempts[existing.value];
      (w, if a.user != user || a.submission != s then CreateError(RequestConflict) else AttemptId(existing.value))
    else
      var error := SubmissionError(w, user, s, now, unlocked);
      if error.Some? then (w, CreateError(error.value))
      else
        (w.(attempts := w.attempts + [NewAttempt(request, user, s, now)],
            users := w.users[user := w.users[user].(version := w.users[user].version + 1)]), AttemptId(|w.attempts|))
  }

  // ----- Leasing -----

  function LeaseStep(w: World, id: nat, now: int): World
    requires id < |w.attempts|
  {
    w.(attempts := w.attempts[id := Leased(w.attempts[id], now, w.nextToken)], nextToken := w.nextToken + 1)
  }

  function ClaimNextStep(cfg: Config, w: World, now: int, locked: set<nat>): (World, Option<Lease>) {
    var id := Oldest(w.attempts, now, cfg.leaseTime, locked);
    if id.None? then (w, None) else (LeaseStep(w, id.value, now), Some(Lease(id.value, w.nextToken)))
  }

  function ClaimOneStep(cfg: Config, w: World, id: nat, now: int): (World, Option<Lease>) {
    if id < |w.attempts| && Claimable(w.attempts[id], now, cfg.leaseTime)
    then (LeaseStep(w, id, now), Some(Lease(id, w.nextToken))) else (w, None)
  }

  // ----- Persisting a result -----

  /** A missing task cannot be graded. */
  function Effective(w: World, a: Attempt, verdict: Verdict): Verdict {
    if a.submission.task in w.tasks then verdict else SystemError
  }

  /** The correctness a verdict stands for; none for a system failure. */
  function Correctness(v: Verdict): Option<bool> {
    if v == SystemError then None else Some(v == Accepted)
  }

  function Graded(a: Attempt, v: Verdict, awarded: Option<nat>): Attempt {
    a.(status := if v == SystemError then Failed else Completed, correct := Correctness(v), detail := Some(v),
       coins := if awarded.Some? then awarded.value else a.coins, startedAt := None, token := None)
  }

  predicate AfterReset(u: User, a: Attempt) {
    u.resetAt.None? || a.attemptedAt >= u.resetAt.value
  }

  predicate HasCompletion(completions: seq<Completion>, user: int, task: int, date: int) {
    exists i :: 0 <= i < |completions| && completions[i].user == user && completions[i].task == task
        && completions[i].date == date
  }

  /** A correct attempt made since the reset, the first of its user and task on its game date. */
  predicate Pays(w: World, a: Attempt, verdict: Verdict) {
    && Effective(w, a, verdict) == Accepted
    && a.user in w.users && AfterReset(w.users[a.user], a)
    && !HasCompletion(w.completions, a.user, a.submission.task, GameDate(a.attemptedAt))
  }

  function Award(w: World, a: Attempt, verdict: Verdict): Option<nat> {
    if Pays(w, a, verdict) then Some(w.tasks[a.submission.task].reward) else None
  }

  function Coins(award: Option<nat>): nat {
    if award.Some? then award.value else 0
  }

  function WithPresentation(w: World, a: Attempt): map<int, Presentation> {
    var p := a.submission.presentation;
    if p.Some? && p.value in w.presentations
        then w.presentations[p.value := w.presentations[p.value].(completed := true)]
    else w.presentations
  }

  function WithDaily(w: World, a: Attempt): Option<map<int, DailyTask>> {
    if !a.submission.context.Daily? then Some(w.dailies)
    else if a.submission.context.attendanceTask !in w.dailies then None
    else Some(w.dailies[a.submission.context.attendanceTask :=
        w.dailies[a.submission.context.attendanceTask].(done := true)])
  }

  function WithBattle(cfg: Config, w: World, attempts: seq<Attempt>, id: nat): Option<Lobby>
    requires id < |attempts|
  {
    if !attempts[id].submission.context.Battle? || attempts[id].correct.None? then Some(w.lobby)
    else RecordResult(w.lobby, cfg.score, attempts, id)
  }

  /** The completion row, inserted unless the user has one for the task and game date. */
  function WithCompletion(w: World, a: Attempt, id: nat, award: Option<nat>): seq<Completion> {
    if award.Some? then w.completions
        + [Completion(a.user, a.submission.task, GameDate(a.attemptedAt), id, award.value)]
    else w.completions
  }

  function PersistStep(cfg: Config, w: World, lease: Lease, verdict: Verdict): (World, bool) {
    if !Current(w.attempts, lease) then (w, false)
    else
      var a := w.attempts[lease.id];
      var v := Effective(w, a, verdict);
      if a.user !in w.users then (w, false)
      else
        var user, award := w.users[a.user], Award(w, a, verdict);
        var attempts := w.attempts[lease.id := Graded(a, v, award)];
        var dailies := if v == Accepted then WithDaily(w, a) else Some(w.dailies);
        var lobby := WithBattle(cfg, w, attempts, lease.id);
        if dailies.None? || lobby.None? then (w, false)
        else
          (w.(attempts := attempts,
              users := w.users[a.user := user.(balance := user.balance + Coins(award), version := user.version + 1)],
              completions := WithCompletion(w, a, lease.id, award),
              presentations := if v == Accepted then WithPresentation(w, a) else w.presentations,
              dailies := dailies.value,
              lobby := lobby.value), true)
  }

  // ----- Everything else -----

  function Undone(dailies: map<int, DailyTask>, user: int): map<int, DailyTask> {
    map d | d in dailies :: if dailies[d].user == user then dailies[d].(done := false) else dailies[d]
  }

  function ResetStep(w: World, user: int, now: int): World {
    if user !in w.users then w
    else w.(users := w.users[user := w.users[user].(resetAt := Some(now), version := w.users[user].version + 1)],
            dailies := Undone(w.dailies, user))
  }

  /** Changes made by code outside this model; none of them touches attempts, completions or rooms. */
  datatype Outside =
    | AddUser(user: int)
    | Credit(user: int, amount: int)
    | PutTask(task: int, info: Task)
    | PutDaily(daily: int, row: DailyTask)
    | PutPresentation(presentation: int, shown: Presentation)

  function OutsideStep(w: World, o: Outside): World {
    match o
    case AddUser(user) => if user in w.users then w else w.(users := w.users[user := User(0, None, 1)])
    case Credit(user, amount) =>
      if user in w.users && w.users[user].balance + amount >= 0
      then w.(users := w.users[user := w.users[user].(balance := w.users[user].balance + amount)]) else w
    case PutTask(task, info) => w.(tasks := w.tasks[task := info])
    case PutDaily(daily, row) => if daily in w.dailies then w else w.(dailies := w.dailies[daily := row])
    case PutPresentation(presentation, shown) =>
      if presentation in w.presentations then w else w.(presentations := w.presentations[presentation := shown])
  }

  function ActiveTasks(tasks: map<int, Task>): set<int> {
    set t | t in tasks && tasks[t].active
  }

  datatype Event =
    | Create(request: int, user: int, submission: Submission, createdAt: int, unlocked: bool)
    | ClaimNext(claimedAt: int, locked: set<nat>)
    | ClaimOne(id: nat, claimedOneAt: int)
    | Grade(lease: Lease, verdict: Verdict)
    | Reset(resetUser: int, resetAt: int)
    | CreateRoom(host: int, newRoom: int, maxParticipants: int)
    | JoinRoom(joiner: int, joined: int)
    | SetReady(member: int, readyRoom: int, ready: bool)
    | StartRoom(starter: int, started: int, tasks: seq<int>, ids: seq<int>)
    | FromOutside(change: Outside)

  function Step(cfg: Config, w: World, e: Event): World {
    match e
    case Create(request, user, submission, now, unlocked) => CreateStep(w, request, user, submission, now, unlocked).0
    case ClaimNext(now, locked) => ClaimNextStep(cfg, w, now, locked).0
    case ClaimOne(id, now) => ClaimOneStep(cfg, w, id, now).0
    case Grade(lease, verdict) => PersistStep(cfg, w, lease, verdict).0
    case Reset(user, now) => ResetStep(w, user, now)
    case CreateRoom(user, room, max) => w.(lobby := CreateRoomStep(w.lobby, user, room, max).0)
    case JoinRoom(user, room) => w.(lobby := JoinRoomStep(w.lobby, user, room).0)
    case SetReady(user, room, ready) => w.(lobby := SetReadyStep(w.lobby, user, room, ready).0)
    case StartRoom(user, room, tasks, ids) =>
        w.(lobby := StartRoomStep(w.lobby, cfg.score, ActiveTasks(w.tasks), user, room, tasks, ids).0)
    case FromOutside(change) => OutsideStep(w, change)
  }

  const EMPTY: World := World([], 0, map[], map[], [], map[], map[], Lobby(map[], map[], map[]))

  function Run(cfg: Config, w: World, events: seq<Event>): World {
    if events == [] then w else Step(cfg, Run(cfg, w, events[..|events| - 1]), events[|events| - 1])
  }

  lemma {:induction false} RunLast(cfg: Config, w: World, events: seq<Event>)
    requires events != []
    ensures Run(cfg, w, events) == Step(cfg, Run(cfg, w, events[..|events| - 1]), events[|events| - 1])
  {
  }
}
