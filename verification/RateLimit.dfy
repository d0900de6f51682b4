/**
 Authentication rate limiting, after app/modules/identity/rate_limit.py: tumbling windows, blocks,
 and the bound they put on recorded login failures over any sliding interval. Times are in microseconds.
 */
module RateLimit {
  import opened Common

  const SECOND: int := 1_000_000

  /** Window and block lengths in seconds; both are at least 60 in the source's configuration. */
  datatype Settings = Settings(windowSeconds: nat, blockSeconds: nat) {

    predicate Valid() {
      windowSeconds >= 1 && blockSeconds >= 1
    }

    function Window(): int {
      windowSeconds * SECOND
    }

    function Block(): int {
      blockSeconds * SECOND
    }
  }

  datatype Bucket = Bucket(attempts: nat, windowStart: int, blockedUntil: Option<int>, updatedAt: int)

  function Cleared(now: int): Bucket {
    Bucket(0, now, None, now)
  }

  /** Seconds from now to later, rounded up. */
  function CeilSeconds(micros: int): int {
    -((-micros) / SECOND)
  }

  function Refresh(s: Settings, b: Bucket, now: int): Bucket {
    if b.blockedUntil.Some? && b.blockedUntil.value <= now then Cleared(now)
    else if b.windowStart + s.Window() > now then b
    else Cleared(now)
  }

  /** One bucket of blocked_retry_after: its new value and the wait it asks for, 0 for none. */
  function Check(s: Settings, b: Bucket, limit: nat, now: int): (Bucket, int) {
    var r := Refresh(s, b, now);
    if r.blockedUntil.Some? && r.blockedUntil.value > now then (r, CeilSeconds(r.blockedUntil.value - now))
    else if r.attempts >= limit then (r.(blockedUntil := Some(now + s.Block())), s.blockSeconds)
    else (r, 0)
  }

  function RecordFailure(s: Settings, b: Bucket, limit: nat, now: int): Bucket {
    var counted := b.(attempts := b.attempts + 1, updatedAt := now);
    if counted.attempts >= limit then counted.(blockedUntil := Some(now + s.Block())) else counted
  }

  function RecordRequest(b: Bucket, now: int): Bucket {
    b.(attempts := b.attempts + 1, updatedAt := now)
  }

  // ----- The rows, updated in place -----

  class AuthRateLimit {
    var attempts: nat
    var windowStartedAt: int
    var blockedUntil: Option<int>
    var updatedAt: int

    constructor (now: int)
      ensures Value() == Cleared(now)
    {
      attempts, windowStartedAt, blockedUntil, updatedAt := 0, now, None, now;
    }

    function Value(): Bucket
      reads this
    {
      Bucket(attempts, windowStartedAt, blockedUntil, updatedAt)
    }

    method RefreshWindow(s: Settings, now: int)
      modifies this
      ensures Value() == Refresh(s, old(Value()), now)
    {
      if blockedUntil.Some? && blockedUntil.value <= now {
        attempts, blockedUntil, windowStartedAt, updatedAt := 0, None, now, now;
        return;
      }
      if windowStartedAt + s.Window() > now {
        return;
      }
      attempts, blockedUntil, windowStartedAt, updatedAt := 0, None, now, now;
    }

    /** One turn of the loop of blocked_retry_after. */
    method CheckRow(s: Settings, limit: nat, now: int) returns (wait: int)
      modifies this
      ensures Value() == Check(s, old(Value()), limit, now).0
      ensures wait == Check(s, old(Value()), limit, now).1
    {
      RefreshWindow(s, now);
      if blockedUntil.Some? && blockedUntil.value > now {
        return CeilSeconds(blockedUntil.value - now);
      }
      if attempts >= limit {
        blockedUntil := Some(now + s.Block());
        return s.blockSeconds;
      }
      wait := 0;
    }

    /** One login as its IP row sees it: refresh, check, and count a failure only when no wait was asked for. */
    method Login(s: Settings, limit: nat, e: LoginCall) returns (counted: bool)
      modifies this
      ensures Value() == LoginStep(s, old(Value()), limit, e).0
      ensures counted == LoginStep(s, old(Value()), limit, e).1
    {
      RefreshWindow(s, e.lockAt);
      var wait := CheckRow(s, limit, e.checkAt);
      if wait != 0 || e.outcome != Failed {
        return false;
      }
      attempts := attempts + 1;
      updatedAt := e.recordAt;
      if attempts >= limit {
        blockedUntil := Some(e.recordAt + s.Block());
      }
      counted := true;
    }

    method ResetRateBucket(now: int)
      modifies this
      ensures Value() == Cleared(now)
    {
      attempts := 0;
      blockedUntil := None;
      windowStartedAt := now;
      updatedAt := now;
    }
  }

  ghost predicate DistinctRows(rows: seq<AuthRateLimit>) {
    forall i, j :: 0 <= i < j < |rows| ==> rows[i] != rows[j]
  }

  /** The largest wait any of the buckets asks for. */
  function LongestWait(s: Settings, buckets: seq<Bucket>, limit: nat, now: int): int {
    if buckets == [] then 0
    else Max(LongestWait(s, buckets[..|buckets| - 1], limit, now), Check(s, buckets[|buckets| - 1], limit, now).1)
  }

  function Values(rows: seq<AuthRateLimit>): (vs: seq<Bucket>)
    reads rows
    ensures |vs| == |rows| && forall i :: 0 <= i < |rows| ==> vs[i] == rows[i].Value()
  {
    if rows == [] then [] else Values(rows[..|rows| - 1]) + [rows[|rows| - 1].Value()]
  }

  method BlockedRetryAfter(s: Settings, rows: seq<AuthRateLimit>, limit: nat, now: int)
    returns (retryAfter: Option<int>)
    requires DistinctRows(rows)
    modifies rows
    ensures forall i :: 0 <= i < |rows| ==> rows[i].Value() == Check(s, old(rows[i].Value()), limit, now).0
    ensures var wait := LongestWait(s, old(Values(rows)), limit, now);
            retryAfter == if wait == 0 then None else Some(wait)
  {
    hide Check;
    ghost var before := Values(rows);
    var wait := 0;
    for i := 0 to |rows|
      invariant wait == LongestWait(s, before[..i], limit, now)
      invariant forall k :: 0 <= k < i ==> rows[k].Value() == Check(s, before[k], limit, now).0
      invariant forall k :: i <= k < |rows| ==> rows[k].Value() == before[k]
    {
      assert before[..i + 1][..i] == before[..i];
      var rowWait := rows[i].CheckRow(s, limit, now);
      wait := Max(wait, rowWait);
    }
    assert before[..|rows|] == before;
    retryAfter := if wait == 0 then None else Some(wait);
  }

  lemma {:induction false} WaitNotNegative(s: Settings, buckets: seq<Bucket>, limit: nat, now: int)
    ensures LongestWait(s, buckets, limit, now) >= 0
    ensures forall i :: 0 <= i < |buckets| ==> Check(s, buckets[i], limit, now).1 <= LongestWait(s, buckets, limit, now)
  {
    hide Check;
    if buckets != [] {
      WaitNotNegative(s, buckets[..|buckets| - 1], limit, now);
    }
  }

  method RecordFailedAttempts(s: Settings, rows: seq<AuthRateLimit>, limit: nat, now: int)
    returns (retryAfter: Option<int>)
    requires DistinctRows(rows)
    modifies rows
    ensures forall i :: 0 <= i < |rows| ==> rows[i].Value() == RecordFailure(s, old(rows[i].Value()), limit, now)
    ensures retryAfter == if exists i :: 0 <= i < |rows| && old(rows[i].attempts) + 1 >= limit then Some(s.blockSeconds)
            else None
  {
    var blocked := false;
    for i := 0 to |rows|
      invariant blocked <==> exists k :: 0 <= k < i && old(rows[k].attempts) + 1 >= limit
      invariant forall k :: 0 <= k < i ==> rows[k].Value() == RecordFailure(s, old(rows[k].Value()), limit, now)
      invariant forall k :: i <= k < |rows| ==> rows[k].Value() == old(rows[k].Value())
    {
      var row := rows[i];
      assert row.Value() == old(rows[i].Value());
      row.attempts := row.attempts + 1;
      row.updatedAt := now;
      if row.attempts >= limit {
        row.blockedUntil := Some(now + s.Block());
        blocked := true;
      }
    }
    retryAfter := if blocked then Some(s.blockSeconds) else None;
  }

  method RecordRequestAttempt(rows: seq<AuthRateLimit>, now: int)
    requires DistinctRows(rows)
    modifies rows
    ensures forall i :: 0 <= i < |rows| ==> rows[i].Value() == RecordRequest(old(rows[i].Value()), now)
  {
    for i := 0 to |rows|
      invariant forall k :: 0 <= k < i ==> rows[k].Value() == RecordRequest(old(rows[k].Value()), now)
      invariant forall k :: i <= k < |rows| ==> rows[k].Value() == old(rows[k].Value())
    {
      assert rows[i].Value() == old(rows[i].Value());
      rows[i].attempts := rows[i].attempts + 1;
      rows[i].updatedAt := now;
    }
  }

  /** dict.fromkeys: each hash once, in order of first occurrence. */
  function Unique(hashes: seq<string>): seq<string> {
    if hashes == [] then []
    else
      var before, last := Unique(hashes[..|hashes| - 1]), hashes[|hashes| - 1];
      if last in before then before else before + [last]
  }

  lemma {:induction false} UniqueIsDistinct(hashes: seq<string>)
    ensures forall i, j :: 0 <= i < j < |Unique(hashes)| ==> Unique(hashes)[i] != Unique(hashes)[j]
    ensures forall h :: h in Unique(hashes) <==> h in hashes
  {
    if hashes != [] {
      UniqueIsDistinct(hashes[..|hashes| - 1]);
      assert forall h :: h in hashes <==> h in hashes[..|hashes| - 1] || h == hashes[|hashes| - 1];
    }
  }

  /** Hashes stand in the order of their first occurrences. */
  lemma {:induction false} UniqueInOrder(hashes: seq<string>, i: nat, j: nat)
    requires i < j < |Unique(hashes)|
    ensures exists p :: 0 <= p < |hashes| && hashes[p] == Unique(hashes)[i] && Unique(hashes)[j] !in hashes[..p + 1]
  {
    var n := |hashes| - 1;
    var before := Unique(hashes[..n]);
    UniqueIsDistinct(hashes[..n]);
    if j < |before| {
      UniqueInOrder(hashes[..n], i, j);
      var p :| 0 <= p < n && hashes[..n][p] == before[i] && before[j] !in hashes[..n][..p + 1];
      assert hashes[..n][..p + 1] == hashes[..p + 1];
    } else {
      assert before[i] in hashes[..n];
      var p :| 0 <= p < n && hashes[..n][p] == before[i];
      assert hashes[n] !in hashes[..n];
      assert hashes[..p + 1] <= hashes[..n];
    }
  }

  class RateTable {
    var rows: map<string, AuthRateLimit>

    /** One row per hash. */
    ghost predicate Valid()
      reads this
    {
      forall h, k :: h in rows && k in rows && h != k ==> rows[h] != rows[k]
    }

    constructor ()
      ensures Valid() && rows == map[]
    {
      rows := map[];
    }

    method CreateMissing(hashes: seq<string>, now: int)
      requires Valid()
      modifies this
      ensures Valid()
      ensures rows.Keys == old(rows.Keys) + (set h | h in hashes)
      ensures forall h :: h in old(rows) ==> rows[h] == old(rows[h])
      ensures forall h :: h in rows && h !in old(rows) ==> fresh(rows[h]) && rows[h].Value() == Cleared(now)
    {
      for i := 0 to |hashes|
        invariant Valid()
        invariant rows.Keys == old(rows.Keys) + (set k | 0 <= k < i :: hashes[k])
        invariant forall h :: h in old(rows) ==> rows[h] == old(rows[h])
        invariant forall h :: h in rows && h !in old(rows) ==> fresh(rows[h]) && rows[h].Value() == Cleared(now)
        invariant forall h :: h in rows ==> allocated(rows[h])
      {
        if hashes[i] !in rows {
          var row := new AuthRateLimit(now);
          rows := rows[hashes[i] := row];
        }
      }
    }

    /** Create the missing rows, then bring every requested one up to date. */
    method LockRateBuckets(s: Settings, hashes: seq<string>, now: int) returns (locked: seq<AuthRateLimit>)
      requires Valid()
      modifies this, rows.Values
      ensures Valid() && DistinctRows(locked)
      ensures rows.Keys == old(rows.Keys) + (set h | h in hashes)
      ensures forall h :: h in old(rows) ==> rows[h] == old(rows[h])
      ensures |locked| == |Unique(hashes)|
      ensures forall i :: 0 <= i < |locked| ==> Unique(hashes)[i] in rows && locked[i] == rows[Unique(hashes)[i]]
      ensures forall h :: h in hashes ==>
                            rows[h].Value() == Refresh(s, if h in old(rows) then old(rows[h].Value())
                                else Cleared(now), now)
      ensures forall h :: h in old(rows) && h !in hashes ==> rows[h].Value() == old(rows[h].Value())
    {
      var unique := Unique(hashes);
      UniqueIsDistinct(hashes);
      hide Refresh, Unique;
      CreateMissing(unique, now);
      assert (set h | h in unique) == (set h | h in hashes);
      locked := seq(|unique|, i requires 0 <= i < |unique| && unique[i] in rows reads this => rows[unique[i]]);
      RefreshRows(s, locked, now);
      forall h | h in hashes
        ensures rows[h].Value() == Refresh(s, if h in old(rows) then old(rows[h].Value()) else Cleared(now), now)
      {
        var i :| 0 <= i < |unique| && unique[i] == h;
        assert locked[i] == rows[h];
      }
    }
  }

  method RefreshRows(s: Settings, locked: seq<AuthRateLimit>, now: int)
    requires DistinctRows(locked)
    modifies locked
    ensures forall i :: 0 <= i < |locked| ==> locked[i].Value() == Refresh(s, old(locked[i].Value()), now)
  {
    hide Refresh;
    for i := 0 to |locked|
      invariant forall k :: 0 <= k < i ==> locked[k].Value() == Refresh(s, old(locked[k].Value()), now)
      invariant forall k :: i <= k < |locked| ==> locked[k].Value() == old(locked[k].Value())
    {
      locked[i].RefreshWindow(s, now);
    }
  }

  // ----- Login attempts on one bucket -----

  datatype Outcome = AccountBlocked | Failed | Succeeded

  /**
   One login as its IP bucket sees it: the clock is read once per call, the first time before the row lock is
   granted.
   */
  datatype LoginCall = LoginCall(lockAt: int, checkAt: int, recordAt: int, outcome: Outcome) {
    predicate Timed() {
      lockAt <= checkAt <= recordAt
    }
  }

  /** Check, then record: a failure is recorded only when the check asked for no wait. */
  function LoginStep(s: Settings, b: Bucket, limit: nat, e: LoginCall): (Bucket, bool) {
    var (checked, wait) := Check(s, Refresh(s, b, e.lockAt), limit, e.checkAt);
    if wait != 0 || e.outcome != Failed then (checked, false)
    else (RecordFailure(s, checked, limit, e.recordAt), true)
  }

  /**
   A recorded failure: when it was checked and recorded, and in which epoch, counting the times the counter
   was cleared.
   */
  datatype Failure = Failure(checked: int, time: int, epoch: nat)

  /** A run: the bucket, the start of every epoch so far, the recorded failures. */
  datatype Trace = Trace(bucket: Bucket, starts: seq<int>, failures: seq<Failure>)

  function StartTrace(now: int): Trace {
    Trace(Cleared(now), [now], [])
  }

  /** A refresh that clears the counter opens an epoch. */
  function TraceRefresh(s: Settings, t: Trace, now: int): Trace {
    var r := Refresh(s, t.bucket, now);
    if r == t.bucket then t else Trace(r, t.starts + [now], t.failures)
  }

  function TraceLogin(s: Settings, t: Trace, limit: nat, e: LoginCall): (r: Trace)
    requires t.starts != []
    ensures r.starts != []
  {
    var checked := TraceRefresh(s, TraceRefresh(s, t, e.lockAt), e.checkAt);
    var after := LoginStep(s, t.bucket, limit, e);
    Trace(after.0, checked.starts,
          if after.1 then checked.failures + [Failure(e.checkAt, e.recordAt, |checked.starts| - 1)]
              else checked.failures)
  }

  /** Logins on one bucket are serialised by its row lock: each is checked after the one before was recorded. */
  ghost predicate Serial(events: seq<LoginCall>, from: int) {
    events != [] ==>
      && events[0].Timed() && from <= events[0].checkAt
      && Serial(events[1..], events[0].recordAt)
  }

  /** Serialised logins whose first clock reading is never more than `lag` older than the login before. */
  ghost predicate Lagging(events: seq<LoginCall>, from: int, lag: nat) {
    events != [] ==>
      && events[0].Timed() && from <= events[0].checkAt && from - lag <= events[0].lockAt
      && Lagging(events[1..], events[0].recordAt, lag)
  }

  function Run(s: Settings, t: Trace, limit: nat, events: seq<LoginCall>): Trace
    requires t.starts != []
    decreases |events|
  {
    if events == [] then t else Run(s, TraceLogin(s, t, limit, events[0]), limit, events[1..])
  }

  /** The shorter of the window and the block: every epoch lasts at least this long. */
  function Span(s: Settings): int {
    Min(s.Window(), s.Block())
  }

  /** Bucket facts: the counter stays at the limit only under a block, and a block outlasts its epoch's span. */
  ghost predicate BucketOk(s: Settings, b: Bucket, limit: nat) {
    && b.attempts <= limit
    && (b.attempts == limit ==> b.blockedUntil.Some?)
    && (b.blockedUntil.Some? ==> b.blockedUntil.value >= b.windowStart + s.Block())
  }

  /** Epochs are a span apart, and the failures of one were checked between its start and the next one's. */
  ghost predicate EpochsOk(s: Settings, starts: seq<int>, failures: seq<Failure>) {
    && (forall k :: 0 < k < |starts| ==> starts[k] >= starts[k - 1] + Span(s))
    && (forall i :: 0 <= i < |failures| ==>
          failures[i].epoch < |starts| && starts[failures[i].epoch] <= failures[i].checked <= failures[i].time)
    && (forall i :: 0 <= i < |failures| && failures[i].epoch + 1 < |starts| ==>
        failures[i].checked <= starts[failures[i].epoch + 1])
  }

  /** The failures of the open epoch were checked inside its window, and a block counts from the last of them. */
  ghost predicate OpenOk(s: Settings, b: Bucket, failures: seq<Failure>, epoch: nat) {
    forall i :: 0 <= i < |failures| && failures[i].epoch == epoch ==>
      && failures[i].checked < b.windowStart + s.Window()
      && (b.blockedUntil.Some? ==> failures[i].time + s.Block() <= b.blockedUntil.value)
  }

  /** Failures one after another, at most `limit` in a row from one epoch; the counter counts the open epoch's. */
  ghost predicate CountsOk(failures: seq<Failure>, limit: nat, attempts: nat, epoch: nat) {
    && (forall i, j :: 0 <= i < j < |failures| ==>
        failures[i].epoch <= failures[j].epoch && failures[i].time <= failures[j].checked)
    && (forall i :: 0 <= i < |failures| - limit ==> failures[i].epoch < failures[i + limit].epoch)
    && attempts <= |failures|
    && (forall i :: 0 <= i < |failures| ==> failures[i].epoch <= epoch)
    && (forall i :: 0 <= i < |failures| - attempts ==> failures[i].epoch < epoch)
  }

  ghost predicate NotAfter(failures: seq<Failure>, now: int) {
    forall i :: 0 <= i < |failures| ==> failures[i].time <= now
  }

  ghost predicate TraceOk(s: Settings, t: Trace, limit: nat, now: int) {
    && t.starts != [] && t.bucket.windowStart == t.starts[|t.starts| - 1] <= now
    && BucketOk(s, t.bucket, limit)
    && EpochsOk(s, t.starts, t.failures)
    && OpenOk(s, t.bucket, t.failures, |t.starts| - 1)
    && CountsOk(t.failures, limit, t.bucket.attempts, |t.starts| - 1)
    && NotAfter(t.failures, now)
  }

  lemma {:induction false} NotAfterLater(failures: seq<Failure>, before: int, now: int)
    requires NotAfter(failures, before) && before <= now
    ensures NotAfter(failures, now)
  {
  }

  lemma {:induction false} NewEpochCounts(failures: seq<Failure>, limit: nat, attempts: nat, epoch: nat)
    requires CountsOk(failures, limit, attempts, epoch)
    ensures CountsOk(failures, limit, 0, epoch + 1)
  {
  }

  lemma {:induction false} NewEpochOk(s: Settings, starts: seq<int>, failures: seq<Failure>, now: int)
    requires EpochsOk(s, starts, failures) && starts != [] && now >= starts[|starts| - 1] + Span(s)
    requires forall i :: 0 <= i < |failures| && failures[i].epoch == |starts| - 1 ==> failures[i].checked <= now
    ensures EpochsOk(s, starts + [now], failures)
  {
  }

  lemma {:induction false} NothingOpen(s: Settings, failures: seq<Failure>, epoch: nat, limit: nat, attempts: nat,
                                       now: int)
    requires limit >= 1 && CountsOk(failures, limit, attempts, epoch)
    ensures OpenOk(s, Cleared(now), failures, epoch + 1) && BucketOk(s, Cleared(now), limit)
  {
  }

  /**
   Clearing happens at the end of the window or of a block: not before the epoch's span is over, nor before
   its checks.
   */
  lemma {:induction false} ClearedLate(s: Settings, t: Trace, limit: nat, now: int)
    requires s.Valid() && t.starts != [] && BucketOk(s, t.bucket, limit) && Refresh(s, t.bucket, now) != t.bucket
    requires OpenOk(s, t.bucket, t.failures, |t.starts| - 1) && EpochsOk(s, t.starts, t.failures)
    ensures Refresh(s, t.bucket, now) == Cleared(now) && now >= t.bucket.windowStart + Span(s)
    ensures forall i :: 0 <= i < |t.failures| && t.failures[i].epoch == |t.starts| - 1 ==> t.failures[i].checked <= now
  {
  }

  lemma {:induction false} ClearKeeps(s: Settings, t: Trace, limit: nat, before: int, now: int)
    requires s.Valid() && limit >= 1 && TraceOk(s, t, limit, before) && Refresh(s, t.bucket, now) != t.bucket
    ensures Refresh(s, t.bucket, now) == Cleared(now)
    ensures TraceOk(s, Trace(Cleared(now), t.starts + [now], t.failures), limit, Max(before, now))
  {
    ClearedLate(s, t, limit, now);
    hide Refresh, EpochsOk, CountsOk, OpenOk, BucketOk, NotAfter, Span;
    NewEpochOk(s, t.starts, t.failures, now);
    NewEpochCounts(t.failures, limit, t.bucket.attempts, |t.starts| - 1);
    NothingOpen(s, t.failures, |t.starts| - 1, limit, t.bucket.attempts, now);
    NotAfterLater(t.failures, before, Max(before, now));
  }

  /** A refresh at any clock reading, older than the last login or not. */
  lemma {:induction false} RefreshKeeps(s: Settings, t: Trace, limit: nat, before: int, now: int)
    requires s.Valid() && limit >= 1 && TraceOk(s, t, limit, before)
    ensures TraceOk(s, TraceRefresh(s, t, now), limit, Max(before, now))
    ensures TraceRefresh(s, t, now).bucket == Refresh(s, t.bucket, now)
  {
    hide TraceOk, Refresh;
    if Refresh(s, t.bucket, now) != t.bucket {
      ClearKeeps(s, t, limit, before, now);
    } else {
      LaterIsFine(s, t, limit, before, Max(before, now));
    }
  }

  /** After a refresh the counter is below the limit or a block is running, and the window is open. */
  lemma {:induction false} RefreshOpens(s: Settings, t: Trace, limit: nat, before: int, now: int)
    requires s.Valid() && limit >= 1 && TraceOk(s, t, limit, before)
    ensures var r := Refresh(s, t.bucket, now);
            && (r.attempts < limit || (r.blockedUntil.Some? && r.blockedUntil.value > now))
            && now < r.windowStart + s.Window()
            && (r.blockedUntil.Some? ==> r.blockedUntil.value > now)
  {
  }

  /** In a reachable bucket the check never has to start a block itself: recording already did. */
  lemma {:induction false} CheckOnlyReports(s: Settings, t: Trace, limit: nat, before: int, now: int)
    requires s.Valid() && limit >= 1 && TraceOk(s, t, limit, before)
    ensures Check(s, t.bucket, limit, now).0 == Refresh(s, t.bucket, now)
    ensures Check(s, t.bucket, limit, now).1 == 0 <==> Refresh(s, t.bucket, now).blockedUntil.None?
    ensures Check(s, t.bucket, limit, now).1 == 0 ==> Refresh(s, t.bucket, now).attempts < limit
  {
  }

  lemma {:induction false} RecordCounts(failures: seq<Failure>, limit: nat, attempts: nat, epoch: nat, checked: int,
                                        now: int)
    requires CountsOk(failures, limit, attempts, epoch) && attempts < limit && NotAfter(failures, checked)
    ensures CountsOk(failures + [Failure(checked, now, epoch)], limit, attempts + 1, epoch)
  {
  }

  lemma {:induction false} RecordEpochs(s: Settings, starts: seq<int>, failures: seq<Failure>, checked: int, now: int)
    requires EpochsOk(s, starts, failures) && starts != [] && starts[|starts| - 1] <= checked <= now
    ensures EpochsOk(s, starts, failures + [Failure(checked, now, |starts| - 1)])
  {
  }

  lemma {:induction false} RecordOpen(s: Settings, b: Bucket, limit: nat, failures: seq<Failure>, epoch: nat,
                                      checked: int, now: int)
    requires OpenOk(s, b, failures, epoch) && NotAfter(failures, now)
    requires b.blockedUntil.None? && checked < b.windowStart + s.Window()
    ensures OpenOk(s, RecordFailure(s, b, limit, now), failures + [Failure(checked, now, epoch)], epoch)
  {
  }

  lemma {:induction false} RecordKeeps(s: Settings, t: Trace, limit: nat, checked: int, now: int)
    requires s.Valid() && limit >= 1 && checked <= now && TraceOk(s, t, limit, checked)
    requires t.bucket.attempts < limit && t.bucket.blockedUntil.None? && checked < t.bucket.windowStart + s.Window()
    ensures TraceOk(s, Trace(RecordFailure(s, t.bucket, limit, now), t.starts, t.failures
            + [Failure(checked, now, |t.starts| - 1)]), limit, now)
  {
    hide CountsOk, EpochsOk, OpenOk, BucketOk, NotAfter, RecordFailure;
    var n := |t.starts| - 1;
    NotAfterLater(t.failures, checked, now);
    RecordBucket(s, t.bucket, limit, t.failures, n, checked, now);
    RecordCounts(t.failures, limit, t.bucket.attempts, n, checked, now);
    RecordEpochs(s, t.starts, t.failures, checked, now);
    RecordOpen(s, t.bucket, limit, t.failures, n, checked, now);
  }

  lemma {:induction false} RecordBucket(s: Settings, b: Bucket, limit: nat, failures: seq<Failure>, epoch: nat,
                                        checked: int, now: int)
    requires BucketOk(s, b, limit) && b.attempts < limit && NotAfter(failures, now) && b.windowStart <= now
    ensures BucketOk(s, RecordFailure(s, b, limit, now), limit)
    ensures RecordFailure(s, b, limit, now).attempts == b.attempts + 1
    ensures RecordFailure(s, b, limit, now).windowStart == b.windowStart
    ensures NotAfter(failures + [Failure(checked, now, epoch)], now)
  {
  }

  lemma {:induction false} LaterIsFine(s: Settings, t: Trace, limit: nat, before: int, now: int)
    requires TraceOk(s, t, limit, before) && before <= now
    ensures TraceOk(s, t, limit, now)
  {
  }

  /** The trace after a login in terms of the refreshed ones. */
  lemma {:induction false} LoginKeeps(s: Settings, t: Trace, limit: nat, before: int, e: LoginCall)
    requires s.Valid() && limit >= 1 && TraceOk(s, t, limit, before) && e.Timed() && before <= e.checkAt
    requires t.starts != []
    ensures TraceOk(s, TraceLogin(s, t, limit, e), limit, e.recordAt)
  {
    hide TraceOk, RecordFailure, Refresh;
    var locked := TraceRefresh(s, t, e.lockAt);
    RefreshKeeps(s, t, limit, before, e.lockAt);
    RefreshKeeps(s, locked, limit, Max(before, e.lockAt), e.checkAt);
    RefreshOpens(s, locked, limit, Max(before, e.lockAt), e.checkAt);
    CheckOnlyReports(s, locked, limit, Max(before, e.lockAt), e.checkAt);
    var checked := TraceRefresh(s, locked, e.checkAt);
    hide TraceRefresh, Check;
    if Check(s, locked.bucket, limit, e.checkAt).1 == 0 && e.outcome == Failed {
      RecordKeeps(s, checked, limit, e.checkAt, e.recordAt);
    } else {
      LaterIsFine(s, checked, limit, e.checkAt, e.recordAt);
    }
  }

  /** The clock of the last call of a run. */
  function End(events: seq<LoginCall>, from: int): int
    decreases |events|
  {
    if events == [] then from else End(events[1..], events[0].recordAt)
  }

  lemma {:induction false} RunKeeps(s: Settings, t: Trace, limit: nat, from: int, events: seq<LoginCall>)
    requires t.starts != []
    requires s.Valid() && limit >= 1 && TraceOk(s, t, limit, from) && Serial(events, from)
    ensures TraceOk(s, Run(s, t, limit, events), limit, End(events, from))
    decreases |events|
  {
    hide TraceOk, TraceLogin, TraceRefresh, Refresh, Check, LoginStep;
    if events != [] {
      LoginKeeps(s, t, limit, from, events[0]);
      RunKeeps(s, TraceLogin(s, t, limit, events[0]), limit, events[0].recordAt, events[1..]);
    }
  }

  // ----- How far apart failures are -----

  lemma {:induction false} StartsGrow(s: Settings, starts: seq<int>, a: nat, b: nat)
    requires s.Valid() && a <= b < |starts|
    requires forall k :: 0 < k < |starts| ==> starts[k] >= starts[k - 1] + Span(s)
    ensures starts[a] <= starts[b]
  {
    if a < b {
      StartsGrow(s, starts, a, b - 1);
    }
  }

  /**
   A failure and the 2*limit-th one after it: the later was checked a span after the epoch of the earlier was
   over.
   */
  lemma {:induction false} TwoEpochsLater(s: Settings, t: Trace, limit: nat, now: int, i: nat)
    requires s.Valid() && limit >= 1 && TraceOk(s, t, limit, now) && i + 2 * limit < |t.failures|
    ensures t.failures[i].epoch + 1 < |t.starts|
    ensures t.failures[i + 2 * limit].checked >= t.starts[t.failures[i].epoch + 1] + Span(s)
    ensures t.failures[i].checked <= t.starts[t.failures[i].epoch + 1]
  {
    var f, g, h := t.failures[i], t.failures[i + limit], t.failures[i + 2 * limit];
    assert f.epoch < g.epoch < h.epoch by {
      assert t.failures[(i + limit) + limit] == h;
    }
    StartsGrow(s, t.starts, f.epoch + 2, h.epoch);
    assert t.starts[f.epoch + 2] >= t.starts[f.epoch + 1] + Span(s);
  }

  /**
   Any failure and the (2*limit+1)-th one after it are at least a span apart, however long logins waited for
   the lock.
   */
  lemma {:induction false} FarApart(s: Settings, t: Trace, limit: nat, now: int, i: nat)
    requires s.Valid() && limit >= 1 && TraceOk(s, t, limit, now) && i + 2 * limit + 1 < |t.failures|
    ensures t.failures[i + 2 * limit + 1].time >= t.failures[i].time + Span(s)
  {
    TwoEpochsLater(s, t, limit, now, i + 1);
    hide Span;
    assert t.failures[i + 1 + 2 * limit] == t.failures[i + 2 * limit + 1];
    assert t.failures[i].time <= t.failures[i + 1].checked;
  }

  // ----- Counting in an interval -----

  /** How many failures were recorded in the half-open interval [from, from + length). */
  function CountIn(failures: seq<Failure>, from: int, length: int): nat {
    if failures == [] then 0
    else (if from <= failures[0].time < from + length then 1 else 0) + CountIn(failures[1..], from, length)
  }

  /** In time order, and any two failures `bound` places apart are at least `length` apart in time. */
  ghost predicate Spread(failures: seq<Failure>, length: int, bound: nat) {
    && (forall i, j :: 0 <= i < j < |failures| ==> failures[i].time <= failures[j].time)
    && (forall i, j :: 0 <= i < |failures| && j == i + bound && j < |failures| ==>
        failures[j].time >= failures[i].time + length)
  }

  lemma {:induction false} CountAtMost(failures: seq<Failure>, from: int, length: int, bound: nat)
    requires Spread(failures, length, bound) && bound >= 1
    ensures CountIn(failures, from, length) <= bound
  {
    if failures != [] {
      var rest := failures[1..];
      assert Spread(rest, length, bound) by {
        forall i, j | 0 <= i < |rest| && j == i + bound && j < |rest|
          ensures rest[j].time >= rest[i].time + length
        {
          assert rest[i] == failures[i + 1] && rest[j] == failures[j + 1];
        }
      }
      CountAtMost(rest, from, length, bound);
      if from <= failures[0].time < from + length {
        forall k | bound - 1 <= k < |rest|
          ensures rest[k].time >= from + length
        {
          assert rest[k] == failures[k + 1];
          assert failures[k + 1].time >= failures[bound].time >= failures[0].time + length;
        }
        CountFew(rest, from, length, Min(|rest|, bound - 1));
      }
    }
  }

  /** If everything from position k on is past the interval, at most k are in it. */
  lemma {:induction false} CountFew(failures: seq<Failure>, from: int, length: int, k: nat)
    requires k <= |failures| && forall i :: k <= i < |failures| ==> failures[i].time >= from + length
    ensures CountIn(failures, from, length) <= k
  {
    if failures != [] {
      CountFew(failures[1..], from, length, if k == 0 then 0 else k - 1);
    }
  }

  lemma {:induction false} TimesGrow(s: Settings, t: Trace, limit: nat, now: int, i: nat, j: nat)
    requires TraceOk(s, t, limit, now) && i < j < |t.failures|
    ensures t.failures[i].time <= t.failures[j].time
  {
  }

  /**
   Serialised logins: starting from a new bucket, the counter is always within the limit, and any
   half-open interval as long as the shorter of the window and the block holds at most 2*limit + 1
   recorded failures, even when logins read the clock before they got the row lock.
   */
  lemma {:induction false} SerialBound(s: Settings, created: int, limit: nat, events: seq<LoginCall>, from: int)
    requires s.Valid() && limit >= 1 && Serial(events, created)
    ensures var t := Run(s, StartTrace(created), limit, events);
            t.bucket.attempts <= limit && CountIn(t.failures, from, Span(s)) <= 2 * limit + 1
  {
    var t := Run(s, StartTrace(created), limit, events);
    assert TraceOk(s, StartTrace(created), limit, created);
    RunKeeps(s, StartTrace(created), limit, created, events);
    hide Run, Serial;
    var now := End(events, created);
    hide End, CountIn, Span;
    assert Spread(t.failures, Span(s), 2 * limit + 1) by {
      hide TraceOk;
      forall i, j | 0 <= i < |t.failures| && j == i + (2 * limit + 1) && j < |t.failures|
        ensures t.failures[j].time >= t.failures[i].time + Span(s)
      {
        FarApart(s, t, limit, now, i);
      }
      forall i, j | 0 <= i < j < |t.failures|
        ensures t.failures[i].time <= t.failures[j].time
      {
        TimesGrow(s, t, limit, now, i, j);
      }
    }
    hide Spread;
    CountAtMost(t.failures, from, Span(s), 2 * limit + 1);
  }

  // ----- How old the first clock reading may be -----

  /** How old it may be for the bound 2*limit: what the window is longer than the block. */
  function AllowedLag(s: Settings): int {
    Max(0, s.Window() - s.Block())
  }

  /** An epoch ended a window after it started, or a block after one of its failures. */
  ghost predicate ClosedBy(s: Settings, starts: seq<int>, failures: seq<Failure>, k: nat)
    requires 0 < k < |starts|
  {
    || starts[k] >= starts[k - 1] + s.Window()
    || exists i :: 0 <= i < |failures| && failures[i].epoch == k - 1 && failures[i].time + s.Block() <= starts[k]
  }

  /**
   Failures are recorded at most `lag` after their epoch is over; a block was started by the open epoch's last
   failure.
   */
  ghost predicate LagOk(s: Settings, t: Trace, lag: nat) {
    && (forall k :: 0 < k < |t.starts| ==> ClosedBy(s, t.starts, t.failures, k))
    && (t.bucket.blockedUntil.Some? ==> t.failures != [] && t.failures[|t.failures| - 1].epoch == |t.starts| - 1)
    && (forall i :: 0 <= i < |t.failures| && t.failures[i].epoch + 1 < |t.starts| ==>
          t.failures[i].time <= t.starts[t.failures[i].epoch + 1] + lag)
  }

  /** The new epoch starts a window after the one before, or a block after its last failure. */
  lemma {:induction false} ClearCloses(s: Settings, t: Trace, lag: nat, now: int)
    requires t.starts != [] && t.bucket.windowStart == t.starts[|t.starts| - 1] && Refresh(s, t.bucket, now) != t.bucket
    requires LagOk(s, t, lag) && OpenOk(s, t.bucket, t.failures, |t.starts| - 1)
    ensures ClosedBy(s, t.starts + [now], t.failures, |t.starts|)
  {
  }

  lemma {:induction false} ClosedEarlier(s: Settings, starts: seq<int>, failures: seq<Failure>, k: nat, now: int)
    requires 0 < k < |starts| && ClosedBy(s, starts, failures, k)
    ensures ClosedBy(s, starts + [now], failures, k)
  {
  }

  lemma {:induction false} ClearLag(s: Settings, t: Trace, limit: nat, before: int, now: int, lag: nat)
    requires TraceOk(s, t, limit, before) && LagOk(s, t, lag) && before - lag <= now
    requires Refresh(s, t.bucket, now) != t.bucket
    ensures LagOk(s, Trace(Cleared(now), t.starts + [now], t.failures), lag)
  {
    ClearCloses(s, t, lag, now);
    hide CountsOk, BucketOk, OpenOk, ClosedBy, Refresh;
    forall k | 0 < k < |t.starts|
      ensures ClosedBy(s, t.starts + [now], t.failures, k)
    {
      ClosedEarlier(s, t.starts, t.failures, k, now);
    }
  }

  lemma {:induction false} RefreshLag(s: Settings, t: Trace, limit: nat, before: int, now: int, lag: nat)
    requires s.Valid() && limit >= 1 && TraceOk(s, t, limit, before) && LagOk(s, t, lag) && before - lag <= now
    ensures LagOk(s, TraceRefresh(s, t, now), lag)
  {
    hide TraceOk, LagOk, Refresh;
    if Refresh(s, t.bucket, now) != t.bucket {
      ClearKeeps(s, t, limit, before, now);
      ClearLag(s, t, limit, before, now, lag);
    }
  }

  lemma {:induction false} RecordLag(s: Settings, t: Trace, limit: nat, checked: int, now: int, lag: nat)
    requires t.starts != [] && LagOk(s, t, lag)
    ensures LagOk(s, Trace(RecordFailure(s, t.bucket, limit, now), t.starts,
                           t.failures + [Failure(checked, now, |t.starts| - 1)]), lag)
  {
    var failures := t.failures + [Failure(checked, now, |t.starts| - 1)];
    forall k | 0 < k < |t.starts|
      ensures ClosedBy(s, t.starts, failures, k)
    {
      assert ClosedBy(s, t.starts, t.failures, k);
      if i :| 0 <= i < |t.failures| && t.failures[i].epoch == k - 1 && t.failures[i].time + s.Block() <= t.starts[k] {
        assert failures[i] == t.failures[i];
      }
    }
  }

  lemma {:induction false} LoginLag(s: Settings, t: Trace, limit: nat, before: int, e: LoginCall, lag: nat)
    requires t.starts != [] && s.Valid() && limit >= 1 && TraceOk(s, t, limit, before) && LagOk(s, t, lag)
    requires e.Timed() && before <= e.checkAt && before - lag <= e.lockAt
    ensures LagOk(s, TraceLogin(s, t, limit, e), lag)
  {
    hide TraceOk, LagOk, RecordFailure, Refresh;
    var locked := TraceRefresh(s, t, e.lockAt);
    RefreshKeeps(s, t, limit, before, e.lockAt);
    RefreshLag(s, t, limit, before, e.lockAt, lag);
    var before' := Max(before, e.lockAt);
    RefreshKeeps(s, locked, limit, before', e.checkAt);
    RefreshLag(s, locked, limit, before', e.checkAt, lag);
    CheckOnlyReports(s, locked, limit, before', e.checkAt);
    var checked := TraceRefresh(s, locked, e.checkAt);
    hide TraceRefresh, Check;
    if Check(s, locked.bucket, limit, e.checkAt).1 == 0 && e.outcome == Failed {
      RecordLag(s, checked, limit, e.checkAt, e.recordAt, lag);
    }
  }

  lemma {:induction false} LagIsSerial(events: seq<LoginCall>, from: int, lag: nat)
    requires Lagging(events, from, lag)
    ensures Serial(events, from)
    decreases |events|
  {
    if events != [] {
      LagIsSerial(events[1..], events[0].recordAt, lag);
    }
  }

  lemma {:induction false} RunLag(s: Settings, t: Trace, limit: nat, from: int, events: seq<LoginCall>, lag: nat)
    requires t.starts != []
    requires s.Valid() && limit >= 1 && TraceOk(s, t, limit, from) && LagOk(s, t, lag) && Lagging(events, from, lag)
    ensures LagOk(s, Run(s, t, limit, events), lag)
    decreases |events|
  {
    hide TraceOk, TraceLogin, TraceRefresh, Refresh, Check, LoginStep, LagOk;
    if events != [] {
      LoginKeeps(s, t, limit, from, events[0]);
      LoginLag(s, t, limit, from, events[0], lag);
      RunLag(s, TraceLogin(s, t, limit, events[0]), limit, events[0].recordAt, events[1..], lag);
    }
  }

  /** An epoch that starts soon after a failure and ends as epochs do ends a span after it. */
  lemma {:induction false} SpanPassed(s: Settings, lag: nat, time: int, start: int, end: int)
    requires lag <= AllowedLag(s) && time <= start + lag
    requires end >= start + s.Window() || end >= time + s.Block()
    ensures end >= time + Span(s)
  {
  }

  /** Two epochs after a failure, a span has passed since it was recorded. */
  lemma {:induction false} NextEpochLate(s: Settings, t: Trace, limit: nat, now: int, i: nat, lag: nat)
    requires s.Valid() && TraceOk(s, t, limit, now) && LagOk(s, t, lag) && lag <= AllowedLag(s)
    requires i < |t.failures| && t.failures[i].epoch + 2 < |t.starts|
    ensures t.starts[t.failures[i].epoch + 2] >= t.failures[i].time + Span(s)
  {
    var k := t.failures[i].epoch + 2;
    assert ClosedBy(s, t.starts, t.failures, k);
    hide BucketOk, OpenOk, NotAfter, AllowedLag, Span;
    if t.starts[k] < t.starts[k - 1] + s.Window() {
      var j :| 0 <= j < |t.failures| && t.failures[j].epoch == k - 1 && t.failures[j].time + s.Block() <= t.starts[k];
      assert i < j;
    }
    SpanPassed(s, lag, t.failures[i].time, t.starts[k - 1], t.starts[k]);
  }

  lemma {:induction false} FarApartLagging(s: Settings, t: Trace, limit: nat, now: int, i: nat, lag: nat)
    requires s.Valid() && limit >= 1 && TraceOk(s, t, limit, now) && LagOk(s, t, lag) && lag <= AllowedLag(s)
    requires i + 2 * limit < |t.failures|
    ensures t.failures[i + 2 * limit].time >= t.failures[i].time + Span(s)
  {
    var f, g, h := t.failures[i], t.failures[i + limit], t.failures[i + 2 * limit];
    assert f.epoch < g.epoch < h.epoch by {
      assert t.failures[(i + limit) + limit] == h;
    }
    NextEpochLate(s, t, limit, now, i, lag);
    StartsGrow(s, t.starts, f.epoch + 2, h.epoch);
    hide Span, LagOk, BucketOk, OpenOk, NotAfter, CountsOk;
  }

  lemma {:induction false} SpreadLagging(s: Settings, t: Trace, limit: nat, now: int, lag: nat)
    requires s.Valid() && limit >= 1 && TraceOk(s, t, limit, now) && LagOk(s, t, lag) && lag <= AllowedLag(s)
    ensures Spread(t.failures, Span(s), 2 * limit)
  {
    hide TraceOk, Span, LagOk, AllowedLag;
    forall i, j | 0 <= i < |t.failures| && j == i + 2 * limit && j < |t.failures|
      ensures t.failures[j].time >= t.failures[i].time + Span(s)
    {
      FarApartLagging(s, t, limit, now, i, lag);
    }
    forall i, j | 0 <= i < j < |t.failures|
      ensures t.failures[i].time <= t.failures[j].time
    {
      TimesGrow(s, t, limit, now, i, j);
    }
  }

  /**
   Sliding bound: when no first clock reading is older than allowed, any half-open interval as long
   as the shorter of the window and the block holds at most 2*limit recorded failures.
   */
  lemma {:induction false} SlidingBound(s: Settings, created: int, limit: nat, lag: nat, events: seq<LoginCall>,
                                        from: int)
    requires s.Valid() && limit >= 1 && Lagging(events, created, lag) && lag <= AllowedLag(s)
    ensures CountIn(Run(s, StartTrace(created), limit, events).failures, from, Span(s)) <= 2 * limit
  {
    var t := Run(s, StartTrace(created), limit, events);
    assert TraceOk(s, StartTrace(created), limit, created);
    assert LagOk(s, StartTrace(created), lag);
    hide *;
    LagIsSerial(events, created, lag);
    RunKeeps(s, StartTrace(created), limit, created, events);
    RunLag(s, StartTrace(created), limit, created, events, lag);
    SpreadLagging(s, t, limit, End(events, created), lag);
    CountAtMost(t.failures, from, Span(s), 2 * limit);
  }

  // ----- One microsecond more -----

  function Repeat<T>(x: T, n: nat): (r: seq<T>)
    ensures |r| == n
  {
    if n == 0 then [] else [x] + Repeat(x, n - 1)
  }

  function FailAt(x: int): LoginCall {
    LoginCall(x, x, x, Failed)
  }

  lemma {:induction false} RunConcat(s: Settings, t: Trace, limit: nat, a: seq<LoginCall>, b: seq<LoginCall>)
    requires t.starts != []
    ensures Run(s, t, limit, a).starts != []
    ensures Run(s, t, limit, a + b) == Run(s, Run(s, t, limit, a), limit, b)
    decreases |a|
  {
    hide TraceLogin;
    if a == [] {
      assert a + b == b;
    } else {
      assert (a + b)[1..] == a[1..] + b;
      RunConcat(s, TraceLogin(s, t, limit, a[0]), limit, a[1..], b);
    }
  }

  lemma {:induction false} CountConcat(a: seq<Failure>, b: seq<Failure>, from: int, length: int)
    ensures CountIn(a + b, from, length) == CountIn(a, from, length) + CountIn(b, from, length)
  {
    if a == [] {
      assert a + b == b;
    } else {
      assert (a + b)[1..] == a[1..] + b;
      CountConcat(a[1..], b, from, length);
    }
  }

  lemma {:induction false} CountRepeat(f: Failure, n: nat, from: int, length: int)
    requires from <= f.time < from + length
    ensures CountIn(Repeat(f, n), from, length) == n
  {
    if n > 0 {
      assert Repeat(f, n)[1..] == Repeat(f, n - 1);
      CountRepeat(f, n - 1, from, length);
    }
  }

  lemma {:induction false} CountTwo(f: Failure, g: Failure, from: int, length: int)
    requires from <= f.time < from + length && from <= g.time < from + length
    ensures CountIn([f, g], from, length) == 2
  {
    assert [f, g][1..] == [g] && [g][1..] == [];
    assert CountIn([g], from, length) == 1;
  }

  lemma {:induction false} LaggingCons(e: LoginCall, rest: seq<LoginCall>, from: int, lag: nat)
    requires e.Timed() && from <= e.checkAt && from - lag <= e.lockAt && Lagging(rest, e.recordAt, lag)
    ensures Lagging([e] + rest, from, lag)
  {
    assert ([e] + rest)[1..] == rest;
  }

  lemma {:induction false} LaggingRepeat(x: int, n: nat, rest: seq<LoginCall>, from: int, lag: nat)
    requires Lagging(rest, x, lag) && from <= x && (n == 0 ==> from == x)
    ensures Lagging(Repeat(FailAt(x), n) + rest, from, lag)
  {
    if n == 0 {
      assert Repeat(FailAt(x), n) + rest == rest;
    } else {
      LaggingRepeat(x, n - 1, rest, x, lag);
      hide Lagging;
      assert Repeat(FailAt(x), n) + rest == [FailAt(x)] + (Repeat(FailAt(x), n - 1) + rest);
      LaggingCons(FailAt(x), Repeat(FailAt(x), n - 1) + rest, from, lag);
    }
  }

  lemma {:induction false} WiderLag(events: seq<LoginCall>, from: int, lag: nat, wider: nat)
    requires Lagging(events, from, lag) && lag <= wider
    ensures Lagging(events, from, wider)
    decreases |events|
  {
    if events != [] {
      WiderLag(events[1..], events[0].recordAt, lag, wider);
    }
  }

  /** A failed login that needs no refresh and is not blocked. */
  lemma {:induction false} PlainFailure(s: Settings, t: Trace, limit: nat, x: int)
    requires t.starts != [] && t.bucket.blockedUntil.None?
    requires t.bucket.attempts < limit && t.bucket.windowStart + s.Window() > x
    ensures var b := t.bucket;
            TraceLogin(s, t, limit, FailAt(x))
            == Trace(Bucket(b.attempts + 1, b.windowStart,
                            if b.attempts + 1 >= limit then Some(x + s.Block()) else None, x),
                     t.starts, t.failures + [Failure(x, x, |t.starts| - 1)])
  {
  }

  /** Failed logins at one moment, up to the limit, all in the open epoch. */
  lemma {:induction false} FailuresAt(s: Settings, t: Trace, limit: nat, x: int, n: nat)
    requires t.starts != [] && t.bucket.windowStart + s.Window() > x && t.bucket.attempts + n == limit
    requires n > 0 ==> t.bucket.blockedUntil.None?
    ensures var r := Run(s, t, limit, Repeat(FailAt(x), n));
            && r.starts == t.starts && r.bucket.windowStart == t.bucket.windowStart && r.bucket.attempts == limit
            && r.bucket.blockedUntil == (if n == 0 then t.bucket.blockedUntil else Some(x + s.Block()))
            && r.failures == t.failures + Repeat(Failure(x, x, |t.starts| - 1), n)
    decreases n
  {
    hide *;
    var f := Failure(x, x, |t.starts| - 1);
    if n == 0 {
      NoFailures(s, t, limit, x, f);
    } else {
      var after := TraceLogin(s, t, limit, FailAt(x));
      PlainFailure(s, t, limit, x);
      FailuresAt(s, after, limit, x, n - 1);
      RepeatCons(FailAt(x), n);
      RepeatCons(f, n);
      RunCons(s, t, limit, FailAt(x), Repeat(FailAt(x), n - 1), after);
      assert t.failures + [f] + Repeat(f, n - 1) == t.failures + ([f] + Repeat(f, n - 1));
    }
  }

  lemma {:induction false} NoFailures(s: Settings, t: Trace, limit: nat, x: int, f: Failure)
    requires t.starts != []
    ensures Run(s, t, limit, Repeat(FailAt(x), 0)) == t && t.failures + Repeat(f, 0) == t.failures
  {
  }

  lemma {:induction false} RepeatCons<T>(x: T, n: nat)
    requires n > 0
    ensures Repeat(x, n) == [x] + Repeat(x, n - 1)
  {
  }

  /** One microsecond more than allowed. */
  function TooLate(s: Settings): (lag: nat)
    requires s.Valid()
    ensures lag == AllowedLag(s) + 1 && lag < s.Window()
  {
    AllowedLag(s) + 1
  }

  /**
   The login that is recorded late, and the one that waited for it with its clock already read; w is the end
   of the window.
   */
  function LateLogin(s: Settings, w: int): LoginCall
    requires s.Valid()
  {
    LoginCall(w - 1, w - 1, w + TooLate(s), Failed)
  }

  function WaitingLogin(s: Settings, w: int): LoginCall
    requires s.Valid()
  {
    LoginCall(w, w + TooLate(s), w + TooLate(s), Failed)
  }

  /** These two, then as many failures as the limit lets through in the window opened and in the next one. */
  function LateRun(s: Settings, limit: nat, w: int): seq<LoginCall>
    requires s.Valid() && limit >= 1
  {
    [LateLogin(s, w)] + ([WaitingLogin(s, w)]
    + (Repeat(FailAt(w + TooLate(s)), limit - 1) + (Repeat(FailAt(w + s.Window()), limit) + [])))
  }

  lemma {:induction false} LateRunLags(s: Settings, limit: nat, w: int)
    requires s.Valid() && limit >= 1
    ensures Lagging(LateRun(s, limit, w), w - s.Window(), TooLate(s))
  {
    var x, y := w + TooLate(s), w + s.Window();
    assert Lagging([], y, TooLate(s));
    hide Lagging, TooLate, Repeat;
    LaggingRepeat(y, limit, [], x, TooLate(s));
    LaggingRepeat(x, limit - 1, Repeat(FailAt(y), limit) + [], x, TooLate(s));
    LaggingCons(WaitingLogin(s, w), Repeat(FailAt(x), limit - 1) + (Repeat(FailAt(y), limit) + []), x, TooLate(s));
    LaggingCons(LateLogin(s, w), [WaitingLogin(s, w)]
        + (Repeat(FailAt(x), limit - 1) + (Repeat(FailAt(y), limit) + [])),
                w - s.Window(), TooLate(s));
  }

  /** The trace after the first two logins: one failure in the first epoch, one in the second. */
  lemma {:induction false} FirstTwo(s: Settings, limit: nat, w: int)
    requires s.Valid() && limit >= 1
    ensures var x := w + TooLate(s);
            var t := TraceLogin(s, TraceLogin(s, StartTrace(w - s.Window()), limit, LateLogin(s, w)), limit,
                                WaitingLogin(s, w));
            && t.starts == [w - s.Window(), w]
            && t.bucket == Bucket(1, w, if limit == 1 then Some(x + s.Block()) else None, x)
            && t.failures == [Failure(w - 1, x, 0), Failure(x, x, 1)]
  {
    var x := w + TooLate(s);
    var first := TraceLogin(s, StartTrace(w - s.Window()), limit, LateLogin(s, w));
    assert first == Trace(Bucket(1, w - s.Window(), if limit == 1 then Some(x + s.Block()) else None, x),
                          [w - s.Window()], [Failure(w - 1, x, 0)]);
  }

  /** At the end of the second window the block is still on, and the window clears it. */
  lemma {:induction false} ThirdEpoch(s: Settings, t: Trace, limit: nat, w: int)
    requires s.Valid() && limit >= 1 && t.starts != []
    requires t.bucket.windowStart == w && t.bucket.blockedUntil == Some(w + TooLate(s) + s.Block())
    ensures var y := w + s.Window();
            TraceLogin(s, t, limit, FailAt(y))
                == TraceLogin(s, Trace(Cleared(y), t.starts + [y], t.failures), limit, FailAt(y))
  {
  }

  /** From the open second epoch on: it fills up, and then the third does. */
  lemma {:induction false} LastTwoEpochs(s: Settings, t: Trace, limit: nat, w: int)
    requires s.Valid() && limit >= 1 && |t.starts| == 2
    requires t.bucket == Bucket(1, w, if limit == 1 then Some(w + TooLate(s) + s.Block()) else None, w + TooLate(s))
    ensures var x, y := w + TooLate(s), w + s.Window();
            Run(s, t, limit, Repeat(FailAt(x), limit - 1) + (Repeat(FailAt(y), limit) + [])).failures
            == t.failures + Repeat(Failure(x, x, 1), limit - 1) + Repeat(Failure(y, y, 2), limit)
  {
    hide *;
    var x, y := w + TooLate(s), w + s.Window();
    var second, third := Repeat(FailAt(x), limit - 1), Repeat(FailAt(y), limit);
    assert third + [] == third;
    RunConcat(s, t, limit, second, third);
    FailuresAt(s, t, limit, x, limit - 1);
    LastEpoch(s, Run(s, t, limit, second), limit, w);
  }

  lemma {:induction false} LateFailures(s: Settings, limit: nat, w: int)
    requires s.Valid() && limit >= 1
    ensures var x, y := w + TooLate(s), w + s.Window();
            Run(s, StartTrace(w - s.Window()), limit, LateRun(s, limit, w)).failures
            == [Failure(w - 1, x, 0), Failure(x, x, 1)] + Repeat(Failure(x, x, 1), limit - 1)
                + Repeat(Failure(y, y, 2), limit)
  {
    var t0 := StartTrace(w - s.Window());
    var t1 := TraceLogin(s, t0, limit, LateLogin(s, w));
    var t2 := TraceLogin(s, t1, limit, WaitingLogin(s, w));
    FirstTwo(s, limit, w);
    hide TraceLogin, Run, Repeat, TooLate, LateLogin, WaitingLogin;
    var rest := Repeat(FailAt(w + TooLate(s)), limit - 1) + (Repeat(FailAt(w + s.Window()), limit) + []);
    RunCons(s, t0, limit, LateLogin(s, w), [WaitingLogin(s, w)] + rest, t1);
    RunCons(s, t1, limit, WaitingLogin(s, w), rest, t2);
    LastTwoEpochs(s, t2, limit, w);
  }

  lemma {:induction false} LastEpoch(s: Settings, t: Trace, limit: nat, w: int)
    requires s.Valid() && limit >= 1 && t.starts != []
    requires t.bucket.windowStart == w && t.bucket.blockedUntil == Some(w + TooLate(s) + s.Block())
    ensures var y := w + s.Window();
            Run(s, t, limit, Repeat(FailAt(y), limit)).failures == t.failures + Repeat(Failure(y, y, |t.starts|), limit)
  {
    hide *;
    var y := w + s.Window();
    var cleared := Trace(Cleared(y), t.starts + [y], t.failures);
    ClearedIs(s, y);
    var after := TraceLogin(s, cleared, limit, FailAt(y));
    ThirdEpoch(s, t, limit, w);
    FailuresAt(s, cleared, limit, y, limit);
    RepeatCons(FailAt(y), limit);
    RunCons(s, t, limit, FailAt(y), Repeat(FailAt(y), limit - 1), after);
    RunCons(s, cleared, limit, FailAt(y), Repeat(FailAt(y), limit - 1), after);
  }

  lemma {:induction false} ClearedIs(s: Settings, now: int)
    requires s.Valid()
    ensures Cleared(now).attempts == 0 && Cleared(now).windowStart == now && Cleared(now).blockedUntil.None?
    ensures now + s.Window() > now
  {
  }

  lemma {:induction false} RunCons(s: Settings, t: Trace, limit: nat, e: LoginCall, rest: seq<LoginCall>, after: Trace)
    requires t.starts != [] && after.starts != [] && TraceLogin(s, t, limit, e) == after
    ensures Run(s, t, limit, [e] + rest) == Run(s, after, limit, rest)
  {
    hide TraceLogin;
    assert ([e] + rest)[1..] == rest;
  }

  lemma {:induction false} TooLateRange(s: Settings)
    requires s.Valid()
    ensures TooLate(s) <= s.Window() < TooLate(s) + Span(s)
  {
  }

  lemma {:induction false} CountLate(f: Failure, g: Failure, h: Failure, n: nat, m: nat, from: int, length: int)
    requires from <= f.time < from + length && from <= g.time < from + length && from <= h.time < from + length
    ensures CountIn([f, g] + Repeat(g, n) + Repeat(h, m), from, length) == 2 + n + m
  {
    hide CountIn, Repeat;
    CountConcat([f, g] + Repeat(g, n), Repeat(h, m), from, length);
    CountConcat([f, g], Repeat(g, n), from, length);
    CountTwo(f, g, from, length);
    CountRepeat(g, n, from, length);
    CountRepeat(h, m, from, length);
  }

  /**
   For every setting and limit, a login that waited for the row lock one microsecond longer than
   allowed lets 2*limit + 1 failures into one interval: it closes the window as of its old reading,
   before the failure it waited for.
   */
  lemma {:induction false} WaitingForTheLockAddsOne(s: Settings, created: int, limit: nat)
    requires s.Valid() && limit >= 1
    ensures Lagging(LateRun(s, limit, created + s.Window()), created, TooLate(s))
    ensures var w := created + s.Window();
            var failures := Run(s, StartTrace(created), limit, LateRun(s, limit, w)).failures;
            CountIn(failures, w + TooLate(s), Span(s)) == 2 * limit + 1
  {
    hide *;
    var w := created + s.Window();
    var x, y := w + TooLate(s), w + s.Window();
    TooLateRange(s);
    LateRunLags(s, limit, w);
    LateFailures(s, limit, w);
    CountLate(Failure(w - 1, x, 0), Failure(x, x, 1), Failure(y, y, 2), limit - 1, limit, x, Span(s));
  }

  /**
   Exactly when the bound 2*limit holds of all serialised logins whose first clock reading is at most
   `lag` old: when the lag is within what the window is longer than the block, and not at all beyond
   the reading of the login before when the block is as long as the window.
   */
  lemma {:induction false} BoundHoldsIff(s: Settings, created: int, limit: nat, lag: nat)
    requires s.Valid() && limit >= 1
    ensures (forall events, from :: Lagging(events, created, lag) ==>
               CountIn(Run(s, StartTrace(created), limit, events).failures, from, Span(s)) <= 2 * limit)
       <==> lag <= Max(0, s.Window() - s.Block())
  {
    assert AllowedLag(s) == Max(0, s.Window() - s.Block());
    if lag <= AllowedLag(s) {
      forall events, from | Lagging(events, created, lag)
        ensures CountIn(Run(s, StartTrace(created), limit, events).failures, from, Span(s)) <= 2 * limit
      {
        SlidingBound(s, created, limit, lag, events, from);
      }
    } else {
      var w := created + s.Window();
      WaitingForTheLockAddsOne(s, created, limit);
      hide Run, CountIn, LateRun, Span;
      WiderLag(LateRun(s, limit, w), created, TooLate(s), lag);
    }
  }

  // ----- Waiting -----

  /** Waiting out the returned time suffices, for every bucket checked, if nothing else touches them. */
  lemma {:induction false} WaitSuffices(s: Settings, b: Bucket, limit: nat, now: int, later: int, wait: int)
    requires s.Valid() && limit >= 1 && Check(s, b, limit, now).1 <= wait && later >= now + wait * SECOND && wait >= 0
    ensures Check(s, Check(s, b, limit, now).0, limit, later).1 == 0
  {
  }

  /**
   The wait a bucket asks for is the time to the end of its block, in whole seconds rounded up. It asks
   for one again, when nothing else touches it, exactly while the block is on and its window open: a
   block that outlasts the window of its bucket ends with the window, before the wait is over.
   */
  lemma {:induction false} WaitIsExact(s: Settings, b: Bucket, limit: nat, now: int, later: int)
    requires s.Valid() && limit >= 1 && now <= later && Check(s, b, limit, now).1 > 0
    ensures var (r, wait) := Check(s, b, limit, now);
            && r.blockedUntil.Some?
            && (wait - 1) * SECOND < r.blockedUntil.value - now <= wait * SECOND
            && (Check(s, r, limit, later).1 > 0
                <==> later < r.blockedUntil.value && later < r.windowStart + s.Window())
  {
  }

  lemma {:induction false} LongestWaitSuffices(s: Settings, buckets: seq<Bucket>, limit: nat, now: int, later: int)
    requires s.Valid() && limit >= 1 && later >= now + LongestWait(s, buckets, limit, now) * SECOND
    ensures LongestWait(s, seq(|buckets|, i requires 0 <= i < |buckets| => Check(s, buckets[i], limit, now).0), limit,
                        later) == 0
  {
    hide Check;
    var after := seq(|buckets|, i requires 0 <= i < |buckets| => Check(s, buckets[i], limit, now).0);
    var wait := LongestWait(s, buckets, limit, now);
    WaitNotNegative(s, buckets, limit, now);
    forall i | 0 <= i < |after|
      ensures Check(s, after[i], limit, later).1 == 0
    {
      WaitSuffices(s, buckets[i], limit, now, later, wait);
    }
    AllZero(s, after, limit, later);
  }

  lemma {:induction false} AllZero(s: Settings, buckets: seq<Bucket>, limit: nat, now: int)
    requires forall i :: 0 <= i < |buckets| ==> Check(s, buckets[i], limit, now).1 == 0
    ensures LongestWait(s, buckets, limit, now) == 0
  {
    hide Check;
    if buckets != [] {
      AllZero(s, buckets[..|buckets| - 1], limit, now);
    }
  }

  // ----- Registrations on one bucket -----

  /** Registrations one after another: each is counted if the check asks for no wait. */
  function Registered(s: Settings, b: Bucket, limit: nat, times: seq<int>): Bucket {
    if times == [] then b
    else
      var before, now := Registered(s, b, limit, times[..|times| - 1]), times[|times| - 1];
      var (checked, wait) := Check(s, before, limit, now);
      if wait != 0 then checked else RecordRequest(checked, now)
  }

  /** A bucket lets exactly `limit` registrations through in one window; the next is asked to wait for a block. */
  lemma {:induction false} RegistrationsInWindow(s: Settings, start: int, limit: nat, times: seq<int>, now: int)
    requires s.Valid() && limit >= 1 && |times| <= limit && start <= now < start + s.Window()
    requires forall i :: 0 <= i < |times| ==> start <= times[i] < start + s.Window()
    ensures var b := Registered(s, Cleared(start), limit, times);
            && b.attempts == |times| && b.windowStart == start && b.blockedUntil.None?
            && Check(s, b, limit, now).1 == if |times| < limit then 0 else s.blockSeconds
  {
    if times != [] {
      RegistrationsInWindow(s, start, limit, times[..|times| - 1], times[|times| - 1]);
    }
  }
}
