/**
 Attendance streaks and the payments tied to attendance rows, after claim_attendance in
 app/modules/game/commands.py and app/modules/daily_mission/service.py. Dates are day numbers.
 */
module Attendance {
  import opened Common

  const DAILY_COINS: int := 100

  /** One user's attendance row; `claimed` is whether its reward timestamp is set. */
  datatype Row = Row(date: int, streak: int, claimed: bool)

  function Dates(rows: seq<Row>): set<int> {
    set r | r in rows :: r.date
  }

  /** The row of a date, the first if there were several. */
  function RowOf(rows: seq<Row>, date: int): (r: Option<Row>)
    ensures r.Some? <==> date in Dates(rows)
    ensures r.Some? ==> r.value in rows && r.value.date == date
  {
    if rows == [] then None
    else if rows[0].date == date then Some(rows[0])
    else
      assert rows == [rows[0]] + rows[1..];
      RowOf(rows[1..], date)
  }

  /** The row of the latest date. */
  function Latest(rows: seq<Row>): (r: Option<Row>)
    ensures r.None? <==> rows == []
    ensures r.Some? ==> r.value in rows && forall x :: x in rows ==> x.date <= r.value.date
  {
    if rows == [] then None
    else
      var before := Latest(rows[..|rows| - 1]);
      var last := rows[|rows| - 1];
      assert rows == rows[..|rows| - 1] + [last];
      if before.Some? && before.value.date >= last.date then before else Some(last)
  }

  function Bonus(streak: int): int {
    var cycleDay := (streak - 1) % 7 + 1;
    if cycleDay == 3 then 150 else if cycleDay == 7 then 500 else 0
  }

  function Award(streak: int): int {
    DAILY_COINS + Bonus(streak)
  }

  /** What a call did: an error leaves everything as it was. */
  datatype Reply =
    | AlreadyClaimed
    | DuplicateDate
    | Claimed(streak: int, bonus: int, awarded: int)
    | Opened(row: Row)
    | NotEnoughTasks
    | NotFound
    | NotComplete
    | Paid(amount: int)

  datatype Event =
    | Claim(today: int)
    | Open(today: int, enoughTasks: bool)
    | Reward(date: int, tasksDone: bool, amount: nat)

  function ClaimStreak(rows: seq<Row>, today: int): int {
    var latest := Latest(rows);
    if latest.Some? && latest.value.date == today - 1 then latest.value.streak + 1 else 1
  }

  function OpenStreak(rows: seq<Row>, today: int): int {
    var previous := RowOf(rows, today - 1);
    if previous.Some? then previous.value.streak + 1 else 1
  }

  function MarkClaimed(rows: seq<Row>, date: int): seq<Row> {
    if rows == [] then []
    else [if rows[0].date == date then rows[0].(claimed := true) else rows[0]] + MarkClaimed(rows[1..], date)
  }

  /** One call on the rows: the new rows and the reply. */
  function Step(rows: seq<Row>, e: Event): (seq<Row>, Reply) {
    match e
    case Claim(today) =>
      var latest := Latest(rows);
      if latest.Some? && latest.value.date == today then (rows, AlreadyClaimed)
      else if today in Dates(rows) then (rows, DuplicateDate)
      else
        var streak := ClaimStreak(rows, today);
        (rows + [Row(today, streak, true)], Claimed(streak, Bonus(streak), Award(streak)))
    case Open(today, enoughTasks) =>
      var existing := RowOf(rows, today);
      if existing.Some? then (rows, Opened(existing.value))
      else if !enoughTasks then (rows, NotEnoughTasks)
      else
        var row := Row(today, OpenStreak(rows, today), false);
        (rows + [row], Opened(row))
    case Reward(date, tasksDone, amount) =>
      var row := RowOf(rows, date);
      if row.None? then (rows, NotFound)
      else if row.value.claimed then (rows, Paid(0))
      else if !tasksDone then (rows, NotComplete)
      else (MarkClaimed(rows, date), Paid(amount))
  }

  function Payment(r: Reply): int {
    match r
    case Claimed(_, _, awarded) => awarded
    case Paid(amount) => amount
    case _ => 0
  }

  // ----- The calls, updating one user's rows and balance -----

  class Player {
    var rows: seq<Row>
    var balance: int
    var stateVersion: nat

    constructor (balance: int)
      ensures rows == [] && this.balance == balance && stateVersion == 0
    {
      rows, this.balance, stateVersion := [], balance, 0;
    }

    method ClaimAttendance(today: int) returns (r: Reply)
      modifies this
      ensures (rows, r) == Step(old(rows), Claim(today))
      ensures balance == old(balance) + Payment(r)
      ensures stateVersion == old(stateVersion) + if r.Claimed? then 1 else 0
    {
      var latest := Latest(rows);
      if latest.Some? && latest.value.date == today {
        return AlreadyClaimed;
      }
      var yesterday := today - 1;
      var streak := if latest.Some? && latest.value.date == yesterday then latest.value.streak + 1 else 1;
      var bonus := Bonus(streak);
      var awarded := DAILY_COINS + bonus;
      // The unique (user, date) constraint; the transaction is rolled back.
      if today in Dates(rows) {
        return DuplicateDate;
      }
      rows := rows + [Row(today, streak, true)];
      balance := balance + awarded;
      stateVersion := stateVersion + 1;
      r := Claimed(streak, bonus, awarded);
    }

    method GetOrCreateDaily(today: int, enoughTasks: bool) returns (r: Reply)
      modifies this`rows
      ensures (rows, r) == Step(old(rows), Open(today, enoughTasks))
    {
      var existing := RowOf(rows, today);
      if existing.Some? {
        return Opened(existing.value);
      }
      var previous := RowOf(rows, today - 1);
      var row := Row(today, if previous.Some? then previous.value.streak + 1 else 1, false);
      if !enoughTasks {
        return NotEnoughTasks;
      }
      rows := rows + [row];
      r := Opened(row);
    }

    method ClaimReward(date: int, tasksDone: bool, amount: nat) returns (r: Reply)
      modifies this`rows, this`balance
      ensures (rows, r) == Step(old(rows), Reward(date, tasksDone, amount))
      ensures balance == old(balance) + Payment(r)
    {
      var row := RowOf(rows, date);
      if row.None? {
        return NotFound;
      }
      if row.value.claimed {
        return Paid(0);
      }
      if !tasksDone {
        return NotComplete;
      }
      balance := balance + amount;
      rows := MarkClaimed(rows, date);
      r := Paid(amount);
    }
  }

  // ----- Runs -----

  function Run(rows: seq<Row>, events: seq<Event>): seq<Row> {
    if events == [] then rows else Step(Run(rows, events[..|events| - 1]), events[|events| - 1]).0
  }

  /** The total paid over a run. */
  function PaidOver(rows: seq<Row>, events: seq<Event>): int {
    if events == [] then 0
    else
      var earlier := events[..|events| - 1];
      PaidOver(rows, earlier) + Payment(Step(Run(rows, earlier), events[|events| - 1]).1)
  }

  /** What a run paid for one date. */
  function PaymentsFor(rows: seq<Row>, events: seq<Event>, date: int): nat {
    if events == [] then 0
    else
      var earlier, e := events[..|events| - 1], events[|events| - 1];
      PaymentsFor(rows, earlier, date)
      + if !e.Open? && EventDate(e) == date && Pays(Run(rows, earlier), e) then 1 else 0
  }

  function EventDate(e: Event): int {
    match e
    case Claim(today) => today
    case Open(today, _) => today
    case Reward(date, _, _) => date
  }

  /** The call is one that pays: a new claim, or the first reward of a finished mission. */
  predicate Pays(rows: seq<Row>, e: Event) {
    match e
    case Claim(_) => Step(rows, e).1.Claimed?
    case Open(_, _) => false
    case Reward(date, tasksDone, _) => RowOf(rows, date).Some? && !RowOf(rows, date).value.claimed && tasksDone
  }

  /** The days of claims and daily visits do not go back. */
  ghost predicate InOrder(events: seq<Event>) {
    forall i, j :: 0 <= i < j < |events| && !events[i].Reward? && !events[j].Reward? ==>
        EventDate(events[i]) <= EventDate(events[j])
  }

  /** n is the length of the longest run of consecutive attended days that ends on day d. */
  ghost predicate MaximalRun(dates: set<int>, d: int, n: int) {
    n >= 1 && (forall x :: d - n < x <= d ==> x in dates) && d - n !in dates
  }

  ghost predicate Increasing(rows: seq<Row>) {
    forall i, j :: 0 <= i < j < |rows| ==> rows[i].date < rows[j].date
  }

  ghost predicate RowsOk(rows: seq<Row>) {
    Increasing(rows) && forall i :: 0 <= i < |rows| ==> MaximalRun(Dates(rows), rows[i].date, rows[i].streak)
  }

  lemma {:induction false} MarkClaimedKeeps(rows: seq<Row>, date: int)
    ensures |MarkClaimed(rows, date)| == |rows|
    ensures forall i :: 0 <= i < |rows| ==>
                            MarkClaimed(rows, date)[i] == if rows[i].date == date then rows[i].(claimed := true)
                                else rows[i]
    ensures Dates(MarkClaimed(rows, date)) == Dates(rows)
  {
    if rows != [] {
      MarkClaimedKeeps(rows[1..], date);
      assert rows == [rows[0]] + rows[1..];
    }
  }

  lemma {:induction false} DatesAppend(rows: seq<Row>, row: Row)
    ensures Dates(rows + [row]) == Dates(rows) + {row.date}
  {
  }

  lemma {:induction false} LaterDayKeepsRun(dates: set<int>, day: int, d: int, n: int)
    requires MaximalRun(dates, d, n) && d < day
    ensures MaximalRun(dates + {day}, d, n)
  {
  }

  /** A day after a run extends it; a day after a gap starts one. */
  lemma {:induction false} NewDayRun(dates: set<int>, day: int, previous: Option<int>)
    requires day !in dates
    requires previous.None? ==> day - 1 !in dates
    requires previous.Some? ==> MaximalRun(dates, day - 1, previous.value)
    ensures MaximalRun(dates + {day}, day, if previous.Some? then previous.value + 1 else 1)
  {
  }

  /** A day later than all others, with yesterday's streak plus one, keeps every streak exact. */
  lemma {:induction false} AppendKeeps(rows: seq<Row>, row: Row, previous: Option<Row>)
    requires RowsOk(rows) && forall r :: r in rows ==> r.date < row.date
    requires previous.Some? <==> row.date - 1 in Dates(rows)
    requires previous.Some? ==> previous.value in rows && previous.value.date == row.date - 1
    requires row.streak == if previous.Some? then previous.value.streak + 1 else 1
    ensures RowsOk(rows + [row])
  {
    var after := rows + [row];
    var dates := Dates(rows);
    DatesAppend(rows, row);
    assert row.date !in dates;
    hide Dates, MaximalRun;
    if previous.Some? {
      var i :| 0 <= i < |rows| && rows[i] == previous.value;
      NewDayRun(dates, row.date, Some(rows[i].streak));
    } else {
      NewDayRun(dates, row.date, None);
    }
    forall i | 0 <= i < |after|
      ensures MaximalRun(Dates(after), after[i].date, after[i].streak)
    {
      if i < |rows| {
        assert after[i] == rows[i] && rows[i] in rows;
        LaterDayKeepsRun(dates, row.date, rows[i].date, rows[i].streak);
      }
    }
  }

  /** With nothing dated after today, both paths give the streak of the run that today extends. */
  lemma {:induction false} StepKeeps(rows: seq<Row>, e: Event)
    requires RowsOk(rows)
    requires !e.Reward? ==> forall r :: r in rows ==> r.date <= EventDate(e)
    ensures RowsOk(Step(rows, e).0)
    ensures forall r :: r in Step(rows, e).0 ==> r.date in Dates(rows) || (!e.Reward? && r.date == EventDate(e))
  {
    hide RowsOk;
    match e
    case Claim(today) =>
      var latest := Latest(rows);
      if today !in Dates(rows) {
        LatestIsYesterday(rows, today);
        var previous := if latest.Some? && latest.value.date == today - 1 then latest else None;
        AppendKeeps(rows, Row(today, ClaimStreak(rows, today), true), previous);
      }
    case Open(today, enoughTasks) =>
      if today !in Dates(rows) {
        AppendKeeps(rows, Row(today, OpenStreak(rows, today), false), RowOf(rows, today - 1));
      }
    case Reward(date, _, _) =>
      MarkKeeps(rows, date);
  }

  lemma {:induction false} LatestIsYesterday(rows: seq<Row>, today: int)
    requires today !in Dates(rows) && forall r :: r in rows ==> r.date <= today
    ensures forall r :: r in rows ==> r.date < today
    ensures (Latest(rows).Some? && Latest(rows).value.date == today - 1) <==> today - 1 in Dates(rows)
  {
  }

  lemma {:induction false} MarkKeeps(rows: seq<Row>, date: int)
    requires RowsOk(rows)
    ensures RowsOk(MarkClaimed(rows, date))
    ensures forall r :: r in MarkClaimed(rows, date) ==> r.date in Dates(rows)
  {
    MarkClaimedKeeps(rows, date);
    forall i | 0 <= i < |rows|
      ensures MaximalRun(Dates(rows), rows[i].date, rows[i].streak)
    {
    }
    forall r | r in MarkClaimed(rows, date)
      ensures r.date in Dates(rows)
    {
      assert r.date in Dates(MarkClaimed(rows, date));
    }
  }

  /**
   Over any run of claims, daily visits and mission rewards in which days do not go back, each
   row's streak is the length of the longest run of consecutive days that ends on its date.
   */
  lemma {:induction false} StreaksAreMaximalRuns(events: seq<Event>)
    requires InOrder(events)
    ensures RowsOk(Run([], events))
    ensures forall r :: r in Run([], events) ==>
            exists i :: 0 <= i < |events| && !events[i].Reward? && EventDate(events[i]) == r.date
  {
    if events != [] {
      var earlier, e := events[..|events| - 1], events[|events| - 1];
      StreaksAreMaximalRuns(earlier);
      var rows := Run([], earlier);
      hide RowsOk, Step, Run;
      forall r | r in rows
        ensures exists i :: 0 <= i < |events| && !events[i].Reward? && EventDate(events[i]) == r.date
        ensures !e.Reward? ==> r.date <= EventDate(e)
      {
        var i :| 0 <= i < |earlier| && !earlier[i].Reward? && EventDate(earlier[i]) == r.date;
        assert events[i] == earlier[i];
      }
      StepKeeps(rows, e);
      assert Run([], events) == Step(rows, e).0 by {
        RunLast([], events);
      }
      forall r | r in Run([], events)
        ensures exists i :: 0 <= i < |events| && !events[i].Reward? && EventDate(events[i]) == r.date
      {
        if r.date in Dates(rows) {
          var x :| x in rows && x.date == r.date;
        } else {
          assert events[|events| - 1] == e;
        }
      }
    }
  }

  lemma {:induction false} RunLast(rows: seq<Row>, events: seq<Event>)
    requires events != []
    ensures Run(rows, events) == Step(Run(rows, events[..|events| - 1]), events[|events| - 1]).0
  {
  }

  lemma {:induction false} BonusIs(streak: int)
    ensures Bonus(streak) == if streak % 7 == 3 then 150 else if streak % 7 == 0 then 500 else 0
  {
  }

  /** A claim succeeds exactly on a day without a row, and pays by the length of the run of days it completes. */
  lemma {:induction false} ClaimPaysByRun(events: seq<Event>, today: int)
    requires InOrder(events + [Claim(today)])
    ensures Step(Run([], events), Claim(today)).1.Claimed? <==> today !in Dates(Run([], events))
    ensures var (rows, reply) := Step(Run([], events), Claim(today));
            reply.Claimed? ==> MaximalRun(Dates(rows), today, reply.streak)
                               && reply.awarded == 100
                                 + (if reply.streak % 7 == 3 then 150 else if reply.streak % 7 == 0 then 500 else 0)
  {
    var all := events + [Claim(today)];
    assert all[..|all| - 1] == events;
    StreaksAreMaximalRuns(all);
    RunLast([], all);
    hide Run, InOrder;
    var rows := Run([], events);
    if today !in Dates(rows) {
      var streak := ClaimStreak(rows, today);
      BonusIs(streak);
      assert Run([], all) == rows + [Row(today, streak, true)];
      assert Run([], all)[|rows|] == Row(today, streak, true);
    }
  }

  // ----- Payments -----

  /** Each day pays at most once, by attendance or by mission reward, and exactly the claimed rows have paid. */
  lemma {:induction false} OnePaymentPerDay(events: seq<Event>, date: int)
    requires InOrder(events)
    ensures PaymentsFor([], events, date) <= 1
    ensures PaymentsFor([], events, date) == 1
            <==> (RowOf(Run([], events), date).Some? && RowOf(Run([], events), date).value.claimed)
  {
    if events != [] {
      var earlier, e := events[..|events| - 1], events[|events| - 1];
      OnePaymentPerDay(earlier, date);
      StreaksAreMaximalRuns(earlier);
      RunLast([], events);
      PaymentStep(Run([], earlier), e, date);
    }
  }

  lemma {:induction false} RowOfAppend(rows: seq<Row>, row: Row, date: int)
    ensures RowOf(rows + [row], date)
            == if RowOf(rows, date).Some? then RowOf(rows, date) else if row.date == date then Some(row) else None
  {
    if rows != [] {
      assert (rows + [row])[1..] == rows[1..] + [row];
      RowOfAppend(rows[1..], row, date);
    }
  }

  lemma {:induction false} RowOfMarked(rows: seq<Row>, marked: int, date: int)
    ensures RowOf(rows, date).None? ==> RowOf(MarkClaimed(rows, marked), date).None?
    ensures RowOf(rows, date).Some? ==>
              RowOf(MarkClaimed(rows, marked), date)
              == Some(if date == marked then RowOf(rows, date).value.(claimed := true) else RowOf(rows, date).value)
  {
    if rows != [] {
      RowOfMarked(rows[1..], marked, date);
    }
  }

  lemma {:induction false} PaymentStep(rows: seq<Row>, e: Event, date: int)
    ensures var before, after := RowOf(rows, date), RowOf(Step(rows, e).0, date);
            (after.Some? && after.value.claimed)
            <==> ((before.Some? && before.value.claimed) || (!e.Open? && EventDate(e) == date && Pays(rows, e)))
    ensures !e.Open? && EventDate(e) == date && Pays(rows, e) ==>
            !(RowOf(rows, date).Some? && RowOf(rows, date).value.claimed)
  {
    match e
    case Claim(today) =>
      RowOfAppend(rows, Row(today, ClaimStreak(rows, today), true), date);
      if Latest(rows).Some? && Latest(rows).value.date == today {
        assert today in Dates(rows);
      }
    case Open(today, _) =>
      RowOfAppend(rows, Row(today, OpenStreak(rows, today), false), date);
    case Reward(paid, _, _) =>
      RowOfMarked(rows, paid, date);
  }

  // ----- Consecutive claims -----

  function ConsecutiveClaims(first: int, n: nat): seq<Event> {
    seq(n, i => Claim(first + i))
  }

  /** The coins of n days of a streak that starts at one. */
  function StreakTotal(n: nat): int {
    if n == 0 then 0 else StreakTotal(n - 1) + Award(n)
  }

  lemma {:induction false} NextDay(n: int)
    ensures (n + 4) / 7 == (n + 3) / 7 + if n % 7 == 3 then 1 else 0
    ensures n / 7 == (n - 1) / 7 + if n % 7 == 0 then 1 else 0
  {
  }

  lemma {:induction false} StreakTotalIs(n: nat)
    ensures StreakTotal(n) == 100 * n + 150 * ((n + 4) / 7) + 500 * (n / 7)
  {
    if n > 0 {
      StreakTotalIs(n - 1);
      NextDay(n);
      BonusIs(n);
      hide Bonus;
    }
  }

  /** The rows end with a streak of n whose last day is `last`, and nothing else is that late. */
  ghost predicate EndsWithStreak(rows: seq<Row>, last: int, n: nat) {
    && rows != [] && rows[|rows| - 1].date == last && rows[|rows| - 1].streak == n
    && forall i :: 0 <= i < |rows| - 1 ==> rows[i].date < last
  }

  lemma {:induction false} ConsecutiveRun(rows: seq<Row>, first: int, n: nat)
    requires forall r :: r in rows ==> r.date < first - 1
    ensures PaidOver(rows, ConsecutiveClaims(first, n)) == StreakTotal(n)
    ensures if n == 0 then Run(rows, ConsecutiveClaims(first, n)) == rows
            else EndsWithStreak(Run(rows, ConsecutiveClaims(first, n)), first + n - 1, n)
  {
    hide *;
    if n == 0 {
      NoClaims(rows, first);
    } else {
      ConsecutiveRun(rows, first, n - 1);
      OneClaimMore(rows, first, n);
      if n == 1 {
        NoClaims(rows, first);
        FirstClaim(rows, first);
      } else {
        NextClaim(Run(rows, ConsecutiveClaims(first, n - 1)), first + n - 2, n - 1);
      }
    }
  }

  lemma {:induction false} NoClaims(rows: seq<Row>, first: int)
    ensures Run(rows, ConsecutiveClaims(first, 0)) == rows
    ensures PaidOver(rows, ConsecutiveClaims(first, 0)) == StreakTotal(0) == 0
  {
  }

  /** The last claim of a streak, after the others. */
  lemma {:induction false} OneClaimMore(rows: seq<Row>, first: int, n: nat)
    requires n > 0
    ensures var (before, claim) := (ConsecutiveClaims(first, n - 1), Claim(first + n - 1));
            && Run(rows, ConsecutiveClaims(first, n)) == Step(Run(rows, before), claim).0
            && PaidOver(rows, ConsecutiveClaims(first, n))
               == PaidOver(rows, before) + Payment(Step(Run(rows, before), claim).1)
    ensures StreakTotal(n) == StreakTotal(n - 1) + Payment(Claimed(n, Bonus(n), Award(n)))
  {
    hide *;
    LastClaim(first, n);
    RunLast(rows, ConsecutiveClaims(first, n));
    PaidLast(rows, ConsecutiveClaims(first, n));
    StreakLast(n);
  }

  lemma {:induction false} LastClaim(first: int, n: nat)
    requires n > 0
    ensures var events := ConsecutiveClaims(first, n);
            && |events| == n && events[n - 1] == Claim(first + n - 1)
            && events[..n - 1] == ConsecutiveClaims(first, n - 1)
  {
  }

  lemma {:induction false} PaidLast(rows: seq<Row>, events: seq<Event>)
    requires events != []
    ensures var (earlier, e) := (events[..|events| - 1], events[|events| - 1]);
            PaidOver(rows, events) == PaidOver(rows, earlier) + Payment(Step(Run(rows, earlier), e).1)
  {
  }

  lemma {:induction false} StreakLast(n: nat)
    requires n > 0
    ensures StreakTotal(n) == StreakTotal(n - 1) + Payment(Claimed(n, Bonus(n), Award(n)))
  {
    hide Award, Bonus;
  }

  lemma {:induction false} FirstClaim(rows: seq<Row>, day: int)
    requires forall r :: r in rows ==> r.date < day - 1
    ensures Step(rows, Claim(day)).1 == Claimed(1, Bonus(1), Award(1))
    ensures EndsWithStreak(Step(rows, Claim(day)).0, day, 1)
  {
  }

  lemma {:induction false} NextClaim(rows: seq<Row>, last: int, n: nat)
    requires EndsWithStreak(rows, last, n)
    ensures Step(rows, Claim(last + 1)).1 == Claimed(n + 1, Bonus(n + 1), Award(n + 1))
    ensures EndsWithStreak(Step(rows, Claim(last + 1)).0, last + 1, n + 1)
  {
  }

  /**
   n claims on consecutive days, after a gap, award exactly this much, with every third and seventh day of a
   week paying more.
   */
  lemma {:induction false} ConsecutiveAwards(rows: seq<Row>, first: int, n: nat)
    requires forall r :: r in rows ==> r.date < first - 1
    ensures PaidOver(rows, ConsecutiveClaims(first, n)) == 100 * n + 150 * ((n + 4) / 7) + 500 * (n / 7)
  {
    ConsecutiveRun(rows, first, n);
    StreakTotalIs(n);
  }

  // ----- Single calls -----

  /** A reward pays its amount exactly when the day has an unpaid row and the mission is done, and once. */
  lemma {:induction false} RewardExactly(rows: seq<Row>, date: int, tasksDone: bool, amount: nat)
    requires Increasing(rows)
    ensures var (after, reply) := Step(rows, Reward(date, tasksDone, amount));
            && (date !in Dates(rows) ==> reply == NotFound && after == rows)
            && forall i :: 0 <= i < |rows| && rows[i].date == date ==>
                 if rows[i].claimed then reply == Paid(0) && after == rows
                 else if !tasksDone then reply == NotComplete && after == rows
                 else reply == Paid(amount) && after == rows[i := rows[i].(claimed := true)]
  {
    var row := RowOf(rows, date);
    MarkClaimedKeeps(rows, date);
    hide Dates, MarkClaimed;
    forall i | 0 <= i < |rows| && rows[i].date == date
      ensures row == Some(rows[i])
      ensures MarkClaimed(rows, date) == rows[i := rows[i].(claimed := true)]
    {
      assert rows[i] in rows;
      RowIsIt(rows, date, i);
    }
  }

  lemma {:induction false} RowIsIt(rows: seq<Row>, date: int, i: nat)
    requires Increasing(rows) && i < |rows| && rows[i].date == date
    ensures RowOf(rows, date) == Some(rows[i])
  {
    var row := RowOf(rows, date);
    assert date in Dates(rows);
    var k :| 0 <= k < |rows| && rows[k] == row.value;
  }

  /** With days in order, a claim on a day with a row is told so; a visit finds that row, or opens one. */
  lemma {:induction false} CallsOnADay(rows: seq<Row>, today: int, enoughTasks: bool)
    requires Increasing(rows) && forall r :: r in rows ==> r.date <= today
    ensures today in Dates(rows) ==> Step(rows, Claim(today)) == (rows, AlreadyClaimed)
    ensures var (after, reply) := Step(rows, Open(today, enoughTasks));
            && (today in Dates(rows) ==>
                  after == rows && exists i :: 0 <= i < |rows| && rows[i].date == today && reply == Opened(rows[i]))
            && (today !in Dates(rows) && !enoughTasks ==> reply == NotEnoughTasks && after == rows)
            && (today !in Dates(rows) && enoughTasks ==>
                  && reply.Opened? && reply.row.date == today && !reply.row.claimed
                  && after == rows + [reply.row])
  {
    var latest := Latest(rows);
    if today in Dates(rows) {
      var r :| r in rows && r.date == today;
    }
  }
}
