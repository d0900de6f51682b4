/**
 Cat memories, after app/modules/cats/service.py: a list that keeps only the newest memory of each
 summary, and only the newest few of those.
 */
module CatMemory {
  import opened Common

  /** A stored memory; lists of memories are in the order they were made, oldest first. */
  datatype Memory = Memory(id: nat, summary: string) {

    /** Summaries that differ in surrounding whitespace only count as the same. */
    function Key(): string {
      Strip(summary)
    }
  }

  function KeySet(ms: seq<Memory>): set<string> {
    set m | m in ms :: m.Key()
  }

  function Ids(ms: seq<Memory>): set<nat> {
    set m | m in ms :: m.id
  }

  ghost predicate DistinctIds(ms: seq<Memory>) {
    forall i, j :: 0 <= i < j < |ms| ==> ms[i].id != ms[j].id
  }

  ghost predicate DistinctKeys(ms: seq<Memory>) {
    forall i, j :: 0 <= i < j < |ms| ==> ms[i].Key() != ms[j].Key()
  }

  // ----- What is kept -----

  /** The newest memory of each summary, in order. */
  function Newest(ms: seq<Memory>): seq<Memory> {
    if ms == [] then []
    else if ms[0].Key() in KeySet(ms[1..]) then Newest(ms[1..])
    else [ms[0]] + Newest(ms[1..])
  }

  /** The others. */
  function Older(ms: seq<Memory>): seq<Memory> {
    if ms == [] then []
    else if ms[0].Key() in KeySet(ms[1..]) then [ms[0]] + Older(ms[1..])
    else Older(ms[1..])
  }

  function Last<T>(s: seq<T>, n: nat): seq<T> {
    if |s| <= n then s else s[|s| - n..]
  }

  function Kept(ms: seq<Memory>, limit: nat): seq<Memory> {
    Last(Newest(ms), limit)
  }

  /** The list after storing a summary: unchanged apart from the trimming if the summary is there already. */
  function Stored(ms: seq<Memory>, limit: nat, summary: string, id: nat): seq<Memory>
    requires limit >= 1
  {
    var kept := Kept(ms, limit);
    if Strip(summary) in KeySet(kept) then kept else Last(kept, limit - 1) + [Memory(id, Strip(summary))]
  }

  /** The list without the memories of the given ids. */
  function Minus(ms: seq<Memory>, gone: set<nat>): seq<Memory> {
    if ms == [] then []
    else if ms[0].id in gone then Minus(ms[1..], gone)
    else [ms[0]] + Minus(ms[1..], gone)
  }

  // ----- Facts about the newest memories -----

  lemma {:induction false} HeadAndTail(ms: seq<Memory>)
    requires ms != []
    ensures KeySet(ms) == {ms[0].Key()} + KeySet(ms[1..])
    ensures Ids(ms) == {ms[0].id} + Ids(ms[1..])
  {
  }

  lemma {:induction false} NewestKeySet(ms: seq<Memory>)
    ensures KeySet(Newest(ms)) == KeySet(ms)
    ensures |Newest(ms)| == |KeySet(ms)|
  {
    if ms != [] {
      NewestKeySet(ms[1..]);
      HeadAndTail(ms);
      if ms[0].Key() !in KeySet(ms[1..]) {
        var newest := [ms[0]] + Newest(ms[1..]);
        assert Newest(ms) == newest;
        hide Newest, KeySet;
        HeadAndTail(newest);
        assert newest[1..] == Newest(ms[1..]);
      }
    }
  }

  lemma {:induction false} NewestDistinct(ms: seq<Memory>)
    ensures DistinctKeys(Newest(ms))
  {
    if ms != [] {
      NewestDistinct(ms[1..]);
      NewestKeySet(ms[1..]);
      if ms[0].Key() !in KeySet(ms[1..]) {
        PrependNew(ms[0], Newest(ms[1..]));
      }
    }
  }

  lemma {:induction false} PrependNew(m: Memory, ms: seq<Memory>)
    requires DistinctKeys(ms) && m.Key() !in KeySet(ms)
    ensures DistinctKeys([m] + ms)
  {
  }

  lemma {:induction false} NewestMembers(ms: seq<Memory>)
    ensures forall m :: m in Newest(ms) ==> m in ms
  {
    if ms != [] {
      NewestMembers(ms[1..]);
    }
  }

  lemma {:induction false} NewestKeys(ms: seq<Memory>)
    ensures KeySet(Newest(ms)) == KeySet(ms)
    ensures |Newest(ms)| == |KeySet(ms)|
    ensures DistinctKeys(Newest(ms))
    ensures forall m :: m in Newest(ms) ==> m in ms
  {
    hide *;
    NewestKeySet(ms);
    NewestDistinct(ms);
    NewestMembers(ms);
  }

  /** A list of distinct summaries has nothing to drop. */
  lemma {:induction false} NewestOfDistinct(ms: seq<Memory>)
    requires DistinctKeys(ms)
    ensures Newest(ms) == ms
  {
    if ms != [] {
      assert ms[0].Key() !in KeySet(ms[1..]);
      NewestOfDistinct(ms[1..]);
    }
  }

  lemma {:induction false} DistinctSuffix(ms: seq<Memory>, n: nat)
    requires DistinctKeys(ms)
    ensures DistinctKeys(Last(ms, n))
  {
  }

  /** The newest memories of a list end with those of its tail. */
  lemma {:induction false} NewestTail(ms: seq<Memory>)
    requires ms != []
    ensures Newest(ms) == Newest(ms[1..]) || Newest(ms) == [ms[0]] + Newest(ms[1..])
  {
  }

  /** The newest memories of a list end with those of each of its suffixes. */
  lemma {:induction false} NewestSuffix(ms: seq<Memory>, i: nat)
    requires i <= |ms|
    ensures |Newest(ms[i..])| <= |Newest(ms)|
    ensures Newest(ms)[|Newest(ms)| - |Newest(ms[i..])|..] == Newest(ms[i..])
  {
    hide Newest;
    if i == 0 {
      assert ms[0..] == ms;
    } else {
      assert ms[1..][i - 1..] == ms[i..];
      NewestSuffix(ms[1..], i - 1);
      NewestTail(ms);
    }
  }

  /**
   Exactly which memories are kept: those after which their own summary does not occur again and
   fewer than `limit` different summaries occur.
   */
  lemma {:induction false} KeptExactly(ms: seq<Memory>, limit: nat, i: nat)
    requires DistinctIds(ms) && i < |ms|
    ensures ms[i] in Kept(ms, limit)
       <==> (ms[i].Key() !in KeySet(ms[i + 1..]) && |KeySet(ms[i + 1..])| < limit)
  {
    var all, from, after := Newest(ms), Newest(ms[i..]), Newest(ms[i + 1..]);
    assert ms[i..][1..] == ms[i + 1..];
    NewestSuffix(ms, i);
    NewestKeys(ms[i + 1..]);
    if ms[i].Key() in KeySet(ms[i + 1..]) {
      DroppedForGood(ms, i);
    } else {
      assert from == [ms[i]] + after;
      var at := |all| - |from|;
      assert all[at] == all[at..][0] == ms[i];
      if |after| < limit {
        assert ms[i] == Kept(ms, limit)[at - (|all| - |Kept(ms, limit)|)];
      } else {
        NewestIdsDistinct(ms);
        assert ms[i] !in all[|all| - limit..];
      }
    }
  }

  lemma {:induction false} NewestIdsDistinct(ms: seq<Memory>)
    requires DistinctIds(ms)
    ensures DistinctIds(Newest(ms))
  {
    if ms != [] {
      var newest := Newest(ms[1..]);
      NewestIdsDistinct(ms[1..]);
      NewestMembers(ms[1..]);
      forall j | 0 <= j < |newest|
        ensures newest[j].id != ms[0].id
      {
        assert newest[j] in ms[1..];
      }
    }
  }

  lemma {:induction false} DroppedForGood(ms: seq<Memory>, i: nat)
    requires DistinctIds(ms) && i < |ms| && ms[i].Key() in KeySet(ms[i + 1..])
    ensures ms[i] !in Newest(ms)
  {
    if i == 0 {
      NewestMembers(ms[1..]);
    } else {
      NewestTail(ms);
      assert ms[1..][i..] == ms[i + 1..] && ms[1..][i - 1] == ms[i];
      hide Newest, KeySet;
      DroppedForGood(ms[1..], i - 1);
    }
  }

  // ----- Storing keeps the list small and distinct -----

  lemma {:induction false} StoredIsBounded(ms: seq<Memory>, limit: nat, summary: string, id: nat)
    requires limit >= 1
    ensures |Stored(ms, limit, summary, id)| <= limit
    ensures DistinctKeys(Stored(ms, limit, summary, id))
    ensures Strip(summary) in KeySet(Stored(ms, limit, summary, id))
  {
    NewestKeys(ms);
    DistinctSuffix(Newest(ms), limit);
    var kept := Kept(ms, limit);
    if Strip(summary) !in KeySet(kept) {
      StripIdempotent(summary);
      DistinctSuffix(kept, limit - 1);
      AppendNew(Last(kept, limit - 1), Memory(id, Strip(summary)), kept);
    }
  }

  lemma {:induction false} AppendNew(ms: seq<Memory>, m: Memory, within: seq<Memory>)
    requires DistinctKeys(ms) && m.Key() !in KeySet(within) && forall x :: x in ms ==> x in within
    ensures DistinctKeys(ms + [m]) && m.Key() in KeySet(ms + [m])
  {
  }

  lemma {:induction false} LastOfLast(ms: seq<Memory>, m: nat, n: nat)
    requires n <= m
    ensures Last(Last(ms, m), n) == Last(ms, n)
  {
  }

  /**
   What storing keeps, exactly: a memory stays when its summary does not occur again later and fewer
   different summaries than there is room for do, one less when the summary stored is new; and a new
   summary is added last.
   */
  lemma {:induction false} StoredExactly(ms: seq<Memory>, limit: nat, summary: string, id: nat, i: nat)
    requires limit >= 1 && DistinctIds(ms) && i < |ms| && id !in Ids(ms)
    ensures var known := exists k :: 0 <= k < |ms| && ms[k].Key() == Strip(summary) && |KeySet(ms[k + 1..])| < limit
                                     && Strip(summary) !in KeySet(ms[k + 1..]);
            var after := Stored(ms, limit, summary, id);
            && (ms[i] in after
                <==> ms[i].Key() !in KeySet(ms[i + 1..])
                     && |KeySet(ms[i + 1..])| < if known then limit else limit - 1)
            && (known ==> after == Kept(ms, limit))
            && (!known ==> after == Kept(ms, limit - 1) + [Memory(id, Strip(summary))])
  {
    KnownMeans(ms, limit, summary);
    KeptExactly(ms, limit, i);
    KeptExactly(ms, limit - 1, i);
    LastOfLast(Newest(ms), limit, limit - 1);
    assert ms[i].id in Ids(ms);
    hide Newest, Strip, KeySet, Ids, DistinctIds;
  }

  lemma {:induction false} KnownMeans(ms: seq<Memory>, limit: nat, summary: string)
    requires DistinctIds(ms)
    ensures Strip(summary) in KeySet(Kept(ms, limit))
            <==> exists k :: 0 <= k < |ms| && ms[k].Key() == Strip(summary) && |KeySet(ms[k + 1..])| < limit
                             && Strip(summary) !in KeySet(ms[k + 1..])
  {
    NewestMembers(ms);
    hide Newest, Strip, DistinctIds;
    forall k | 0 <= k < |ms|
      ensures ms[k] in Kept(ms, limit) <==> ms[k].Key() !in KeySet(ms[k + 1..]) && |KeySet(ms[k + 1..])| < limit
    {
      KeptExactly(ms, limit, k);
    }
    if Strip(summary) in KeySet(Kept(ms, limit)) {
      var m :| m in Kept(ms, limit) && m.Key() == Strip(summary);
      assert m in Newest(ms);
      var k :| 0 <= k < |ms| && ms[k] == m;
    }
  }

  /** Storing the same summary again, under any limit at least as large, changes nothing. */
  lemma {:induction false} StoringAgain(ms: seq<Memory>, limit: nat, summary: string, id: nat, limit': nat, id': nat)
    requires 1 <= limit <= limit'
    ensures Stored(Stored(ms, limit, summary, id), limit', summary, id') == Stored(ms, limit, summary, id)
  {
    var once := Stored(ms, limit, summary, id);
    StoredIsBounded(ms, limit, summary, id);
    hide Stored;
    NewestOfDistinct(once);
    assert Kept(once, limit') == once;
    StoredWhenPresent(once, limit', summary, id');
  }

  lemma {:induction false} StoredWhenPresent(ms: seq<Memory>, limit: nat, summary: string, id: nat)
    requires limit >= 1 && Strip(summary) in KeySet(Kept(ms, limit))
    ensures Stored(ms, limit, summary, id) == Kept(ms, limit)
  {
  }

  // ----- Removing by id -----

  lemma {:induction false} MinusNothing(ms: seq<Memory>, gone: set<nat>)
    requires Ids(ms) !! gone
    ensures Minus(ms, gone) == ms
  {
    if ms != [] {
      HeadAndTail(ms);
      MinusNothing(ms[1..], gone);
    }
  }

  lemma {:induction false} MinusAll(ms: seq<Memory>, gone: set<nat>)
    requires Ids(ms) <= gone
    ensures Minus(ms, gone) == []
  {
    if ms != [] {
      HeadAndTail(ms);
      MinusAll(ms[1..], gone);
    }
  }

  lemma {:induction false} MinusTwice(ms: seq<Memory>, first: set<nat>, second: set<nat>)
    ensures Minus(Minus(ms, first), second) == Minus(ms, first + second)
  {
    if ms != [] {
      MinusTwice(ms[1..], first, second);
    }
  }

  lemma {:induction false} MinusConcat(a: seq<Memory>, b: seq<Memory>, gone: set<nat>)
    ensures Minus(a + b, gone) == Minus(a, gone) + Minus(b, gone)
  {
    if a == [] {
      assert a + b == b;
    } else {
      assert (a + b)[1..] == a[1..] + b;
      MinusConcat(a[1..], b, gone);
    }
  }

  lemma {:induction false} MinusMembers(ms: seq<Memory>, gone: set<nat>)
    ensures forall m :: m in Minus(ms, gone) <==> m in ms && m.id !in gone
  {
    if ms != [] {
      assert ms == [ms[0]] + ms[1..];
      MinusMembers(ms[1..], gone);
    }
  }

  lemma {:induction false} MinusDistinctIds(ms: seq<Memory>, gone: set<nat>)
    requires DistinctIds(ms)
    ensures DistinctIds(Minus(ms, gone))
  {
    if ms != [] {
      MinusDistinctIds(ms[1..], gone);
      MinusMembers(ms[1..], gone);
    }
  }

  lemma {:induction false} MinusDistinctKeys(ms: seq<Memory>, gone: set<nat>)
    requires DistinctKeys(ms)
    ensures DistinctKeys(Minus(ms, gone)) && |Minus(ms, gone)| <= |ms|
  {
    if ms != [] {
      MinusDistinctKeys(ms[1..], gone);
      MinusMembers(ms[1..], gone);
    }
  }

  lemma {:induction false} OlderMembers(ms: seq<Memory>)
    ensures forall m :: m in Older(ms) ==> m in ms
    ensures multiset(Newest(ms)) + multiset(Older(ms)) == multiset(ms)
  {
    if ms != [] {
      OlderMembers(ms[1..]);
      assert ms == [ms[0]] + ms[1..];
      hide KeySet;
    }
  }

  /** Dropping the older repeats one by one leaves the newest. */
  lemma {:induction false} NewestByRemoval(ms: seq<Memory>)
    requires DistinctIds(ms)
    ensures Minus(ms, Ids(Older(ms))) == Newest(ms)
  {
    if ms != [] {
      var rest := ms[1..];
      NewestByRemoval(rest);
      OlderMembers(rest);
      assert ms[0].id !in Ids(rest) && ms[0].id !in Ids(Older(rest));
      if ms[0].Key() in KeySet(rest) {
        assert Older(ms) == [ms[0]] + Older(rest);
        HeadAndTail([ms[0]] + Older(rest));
        hide KeySet;
        MinusTwice(rest, {ms[0].id}, Ids(Older(rest)));
        MinusNothing(rest, {ms[0].id});
      }
    }
  }

  /** Dropping the oldest ones as well leaves the last few. */
  lemma {:induction false} LastByRemoval(ms: seq<Memory>, n: nat)
    requires DistinctIds(ms) && n <= |ms|
    ensures Minus(ms, Ids(ms[..n])) == ms[n..]
  {
    assert ms == ms[..n] + ms[n..];
    MinusConcat(ms[..n], ms[n..], Ids(ms[..n]));
    MinusAll(ms[..n], Ids(ms[..n]));
    MinusNothing(ms[n..], Ids(ms[..n]));
  }

  // ----- The operations -----

  function Reverse<T>(s: seq<T>): seq<T> {
    if s == [] then [] else Reverse(s[1..]) + [s[0]]
  }

  lemma {:induction false} ReverseConcat<T>(a: seq<T>, b: seq<T>)
    ensures Reverse(a + b) == Reverse(b) + Reverse(a)
  {
    if a == [] {
      assert a + b == b;
    } else {
      assert (a + b)[1..] == a[1..] + b;
      ReverseConcat(a[1..], b);
    }
  }

  lemma {:induction false} ReverseTwice<T>(s: seq<T>)
    ensures Reverse(Reverse(s)) == s
  {
    if s != [] {
      ReverseConcat(Reverse(s[1..]), [s[0]]);
      ReverseTwice(s[1..]);
    }
  }

  lemma {:induction false} ReverseIds(ms: seq<Memory>)
    ensures Ids(Reverse(ms)) == Ids(ms)
  {
    if ms != [] {
      var rest := Reverse(ms[1..]);
      ReverseIds(ms[1..]);
      HeadAndTail(ms);
      assert Ids(rest + [ms[0]]) == Ids(rest) + {ms[0].id};
      hide Ids;
    }
  }

  lemma {:induction false} ReverseMembers(ms: seq<Memory>)
    ensures multiset(Reverse(ms)) == multiset(ms)
    ensures |Reverse(ms)| == |ms|
  {
    if ms != [] {
      ReverseMembers(ms[1..]);
      assert ms == [ms[0]] + ms[1..];
    }
  }

  /** Newest first: the first memory met of a summary is retained, every later one is removed. */
  method ScanNewestFirst(memories: seq<Memory>) returns (retained: seq<Memory>, removed: seq<Memory>)
    ensures retained == Reverse(Newest(memories))
    ensures removed == Reverse(Older(memories))
  {
    var seen: set<string> := {};
    retained, removed := [], [];
    var i := |memories|;
    assert memories[i..] == [];
    while i > 0
      invariant 0 <= i <= |memories|
      invariant seen == KeySet(memories[i..])
      invariant retained == Reverse(Newest(memories[i..]))
      invariant removed == Reverse(Older(memories[i..]))
    {
      i := i - 1;
      HeadAndTail(memories[i..]);
      assert memories[i..][1..] == memories[i + 1..];
      var memory := memories[i];
      if memory.Key() in seen {
        removed := removed + [memory];
      } else {
        seen := seen + {memory.Key()};
        retained := retained + [memory];
      }
    }
    assert memories[0..] == memories;
  }

  method DropOldest(newest: seq<Memory>, limit: nat) returns (retained: seq<Memory>, dropped: seq<Memory>)
    ensures retained == Last(newest, limit)
    ensures newest == dropped + retained
  {
    retained, dropped := newest, [];
    while |retained| > limit
      invariant |retained| >= Min(|newest|, limit)
      invariant newest == dropped + retained
    {
      dropped := dropped + [retained[0]];
      retained := retained[1..];
    }
    assert retained == newest[|dropped|..];
  }

  /** The newest memory of the given summary. */
  method FindDuplicate(retained: seq<Memory>, key: string) returns (duplicate: Option<Memory>)
    ensures duplicate.Some? <==> key in KeySet(retained)
    ensures duplicate.Some? ==> duplicate.value in retained && duplicate.value.Key() == key
  {
    var i := |retained|;
    while i > 0
      invariant 0 <= i <= |retained|
      invariant forall j :: i <= j < |retained| ==> retained[j].Key() != key
    {
      i := i - 1;
      if retained[i].Key() == key {
        return Some(retained[i]);
      }
    }
    duplicate := None;
  }

  datatype StoreResult =
    | LimitNotPositive
    | Done(memory: Memory, added: bool, changed: bool, count: nat)

  datatype CommandError = BlankSummary | MemoryNotFound | BadLimit

  class MemoryStore {
    var memories: seq<Memory>
    var nextId: nat

    ghost predicate Valid()
      reads this
    {
      DistinctIds(memories) && forall m :: m in memories ==> m.id < nextId
    }

    constructor ()
      ensures Valid() && memories == []
    {
      memories, nextId := [], 0;
    }

    method Remove(memory: Memory)
      modifies this`memories
      ensures memories == Minus(old(memories), {memory.id})
    {
      memories := Minus(memories, {memory.id});
    }

    method RemoveEach(removed: seq<Memory>)
      modifies this`memories
      ensures memories == Minus(old(memories), Ids(removed))
    {
      MinusNothing(memories, Ids(removed[..0]));
      for i := 0 to |removed|
        invariant memories == Minus(old(memories), Ids(removed[..i]))
      {
        Remove(removed[i]);
        MinusTwice(old(memories), Ids(removed[..i]), {removed[i].id});
        assert Ids(removed[..i + 1]) == Ids(removed[..i]) + {removed[i].id};
      }
      assert removed[..|removed|] == removed;
    }

    method Add(summary: string) returns (memory: Memory)
      requires Valid()
      modifies this
      ensures Valid()
      ensures memory == Memory(old(nextId), summary)
      ensures memories == old(memories) + [memory]
      ensures nextId == old(nextId) + 1
    {
      memory := Memory(nextId, summary);
      memories := memories + [memory];
      nextId := nextId + 1;
    }

    /** Reduce the list to its newest distinct summaries; `removed` is what went. */
    method Trim(limit: nat) returns (retained: seq<Memory>, removed: seq<Memory>)
      requires Valid()
      modifies this`memories
      ensures Valid()
      ensures memories == retained == Kept(old(memories), limit)
      ensures multiset(retained) + multiset(removed) == multiset(old(memories))
      ensures retained == Minus(old(memories), Ids(removed))
    {
      ghost var before := memories;
      var newestFirst, older := ScanNewestFirst(memories);
      var newest := Reverse(newestFirst);
      ReverseTwice(Newest(before));
      var dropped;
      retained, dropped := DropOldest(newest, limit);
      removed := older + dropped;
      RemovedIds(before, limit, older, dropped);
      RemoveEach(removed);
      MinusMembers(before, Ids(removed));
      MinusDistinctIds(before, Ids(removed));
    }

    /** Appends a memory, dropping the oldest first when the list is full. */
    method AppendBounded(key: string, limit: nat) returns (memory: Memory)
      requires Valid() && limit >= 1 && |memories| <= limit
      modifies this
      ensures Valid()
      ensures memory == Memory(old(nextId), key)
      ensures memories == Last(old(memories), limit - 1) + [memory]
      ensures nextId == old(nextId) + 1
    {
      if |memories| == limit {
        var oldest := memories[0];
        RemoveFirst(memories);
        Remove(oldest);
      }
      memory := Add(key);
    }

    method StoreBounded(summary: string, limit: int) returns (r: StoreResult)
      requires Valid()
      modifies this
      ensures Valid()
      ensures r.LimitNotPositive? <==> limit < 1
      ensures r.LimitNotPositive? ==> memories == old(memories) && nextId == old(nextId)
      ensures nextId >= old(nextId)
      ensures r.Done? ==>
                && memories == Stored(old(memories), limit, summary, old(nextId))
                && r.memory in memories && r.memory.Key() == Strip(summary)
                && (r.added <==> r.memory !in old(memories))
                && (r.changed <==> memories != old(memories))
                && r.count == |memories|
    {
      if limit < 1 {
        return LimitNotPositive;
      }
      ghost var before := memories;
      var retained, removed := Trim(limit);
      var key := Strip(summary);
      StripIdempotent(summary);
      hide Kept, Minus, Strip, DistinctIds, KeySet;
      var duplicate := FindDuplicate(retained, key);
      if duplicate.Some? {
        ChangedIffRemoved(before, retained, removed);
        MinusMembers(before, Ids(removed));
        return Done(duplicate.value, false, removed != [], |retained|);
      }
      KeptSize(before, limit);
      var memory := AppendBounded(key, limit);
      assert memories[|memories| - 1] == memory;
      r := Done(memory, true, true, |memories|);
    }

    /** The add command: a blank summary is refused before anything is read. */
    method AddCatMemory(summary: string, limit: int) returns (r: Option<CommandError>)
      requires Valid()
      modifies this
      ensures Valid()
      ensures memories == CommandStep(old(memories), AddSummary(summary, limit, old(nextId)))
      ensures r == if Strip(summary) == [] then Some(BlankSummary) else if limit < 1 then Some(BadLimit) else None
      ensures nextId >= old(nextId)
    {
      if Strip(summary) == [] {
        return Some(BlankSummary);
      }
      StripIdempotent(summary);
      var stored := StoreBounded(Strip(summary), limit);
      r := if stored.LimitNotPositive? then Some(BadLimit) else None;
    }

    method DeleteCatMemory(id: nat) returns (r: Option<CommandError>)
      requires Valid()
      modifies this`memories
      ensures Valid()
      ensures memories == CommandStep(old(memories), DeleteOne(id))
      ensures r.Some? <==> id !in Ids(old(memories))
    {
      MinusMembers(memories, {id});
      MinusDistinctIds(memories, {id});
      if id !in Ids(memories) {
        MinusNothing(memories, {id});
        return Some(MemoryNotFound);
      }
      memories := Minus(memories, {id});
      r := None;
    }

    method DeleteAllCatMemories()
      modifies this`memories
      ensures memories == CommandStep(old(memories), DeleteAll)
    {
      memories := [];
    }
  }

  lemma {:induction false} KeptSize(ms: seq<Memory>, limit: nat)
    ensures |Kept(ms, limit)| <= limit
  {
  }

  lemma {:induction false} RemoveFirst(ms: seq<Memory>)
    requires DistinctIds(ms) && ms != []
    ensures Minus(ms, {ms[0].id}) == ms[1..]
  {
    LastByRemoval(ms, 1);
    assert Ids(ms[..1]) == {ms[0].id};
  }

  lemma {:induction false} RemovedIds(ms: seq<Memory>, limit: nat, older: seq<Memory>, dropped: seq<Memory>)
    requires DistinctIds(ms) && older == Reverse(Older(ms)) && Newest(ms) == dropped + Kept(ms, limit)
    ensures Minus(ms, Ids(older + dropped)) == Kept(ms, limit)
    ensures multiset(Kept(ms, limit)) + multiset(older + dropped) == multiset(ms)
  {
    hide Newest, Older, Reverse, Minus, Kept;
    NewestByRemoval(ms);
    OlderMembers(ms);
    NewestIdsDistinct(ms);
    ReverseMembers(Older(ms));
    ReverseIds(Older(ms));
    PrefixByRemoval(dropped, Kept(ms, limit));
    MinusTwice(ms, Ids(older), Ids(dropped));
    assert Ids(older + dropped) == Ids(older) + Ids(dropped);
  }

  lemma {:induction false} PrefixByRemoval(dropped: seq<Memory>, kept: seq<Memory>)
    requires DistinctIds(dropped + kept)
    ensures Minus(dropped + kept, Ids(dropped)) == kept
    ensures multiset(dropped + kept) == multiset(dropped) + multiset(kept)
  {
    hide Minus;
    assert (dropped + kept)[..|dropped|] == dropped;
    assert (dropped + kept)[|dropped|..] == kept;
    LastByRemoval(dropped + kept, |dropped|);
  }

  lemma {:induction false} ChangedIffRemoved(before: seq<Memory>, retained: seq<Memory>, removed: seq<Memory>)
    requires multiset(retained) + multiset(removed) == multiset(before)
    requires retained == Minus(before, Ids(removed))
    ensures removed != [] <==> retained != before
  {
    if removed == [] {
      MinusNothing(before, Ids(removed));
    } else {
      assert |before| == |multiset(before)| == |multiset(retained)| + |multiset(removed)|;
      assert |multiset(retained)| == |retained| && |multiset(removed)| == |removed|;
    }
  }

  // ----- Runs -----

  datatype Command =
    | AddSummary(summary: string, limit: int, id: nat)
    | DeleteOne(memoryId: nat)
    | DeleteAll

  function CommandStep(ms: seq<Memory>, c: Command): seq<Memory> {
    match c
    case AddSummary(summary, limit, id) =>
        if Strip(summary) == [] || limit < 1 then ms else Stored(ms, limit, Strip(summary), id)
    case DeleteOne(id) => Minus(ms, {id})
    case DeleteAll => []
  }

  function Run(ms: seq<Memory>, commands: seq<Command>): seq<Memory> {
    if commands == [] then ms else CommandStep(Run(ms, commands[..|commands| - 1]), commands[|commands| - 1])
  }

  /**
   After any run of commands no two memories share a summary, none is blank, and their number is within the
   largest limit used.
   */
  lemma {:induction false} RunStaysBounded(commands: seq<Command>, limit: nat)
    requires forall k :: 0 <= k < |commands| && commands[k].AddSummary? ==> commands[k].limit <= limit
    ensures |Run([], commands)| <= limit
    ensures DistinctKeys(Run([], commands))
    ensures [] !in KeySet(Run([], commands))
  {
    if commands != [] {
      var before := Run([], commands[..|commands| - 1]);
      RunStaysBounded(commands[..|commands| - 1], limit);
      hide Run;
      match commands[|commands| - 1]
      case AddSummary(summary, bound, id) =>
        if Strip(summary) != [] && bound >= 1 {
          StoredIsBounded(before, bound, Strip(summary), id);
          StoredKeys(before, bound, Strip(summary), id);
          StripIdempotent(summary);
        }
      case DeleteOne(id) =>
        MinusMembers(before, {id});
        MinusDistinctKeys(before, {id});
        assert KeySet(Minus(before, {id})) <= KeySet(before);
      case DeleteAll =>
    }
  }

  lemma {:induction false} StoredFrom(ms: seq<Memory>, limit: nat, summary: string, id: nat, m: Memory)
    requires limit >= 1 && m in Stored(ms, limit, summary, id)
    ensures m in Newest(ms) || m == Memory(id, Strip(summary))
  {
  }

  lemma {:induction false} StoredKeys(ms: seq<Memory>, limit: nat, summary: string, id: nat)
    requires limit >= 1
    ensures KeySet(Stored(ms, limit, summary, id)) <= KeySet(ms) + {Strip(summary)}
  {
    NewestMembers(ms);
    StripIdempotent(summary);
    hide Newest, Stored, Strip;
    forall m | m in Stored(ms, limit, summary, id)
      ensures m.Key() in KeySet(ms) + {Strip(summary)}
    {
      StoredFrom(ms, limit, summary, id, m);
    }
  }

  /** Deleting takes exactly the memory of that id, and keeps the others in order; deleting all leaves none. */
  lemma {:induction false} DeletesExactly(ms: seq<Memory>, i: nat)
    requires DistinctIds(ms) && i < |ms|
    ensures CommandStep(ms, DeleteOne(ms[i].id)) == ms[..i] + ms[i + 1..]
    ensures forall id :: id !in Ids(ms) ==> CommandStep(ms, DeleteOne(id)) == ms
    ensures CommandStep(ms, DeleteAll) == []
  {
    MinusOne(ms, i);
    forall id | id !in Ids(ms)
      ensures Minus(ms, {id}) == ms
    {
      MinusNothing(ms, {id});
    }
  }

  lemma {:induction false} MinusOne(ms: seq<Memory>, i: nat)
    requires DistinctIds(ms) && i < |ms|
    ensures Minus(ms, {ms[i].id}) == ms[..i] + ms[i + 1..]
  {
    if i == 0 {
      assert ms[..0] + ms[1..] == ms[1..];
      RemoveFirst(ms);
    } else {
      MinusOne(ms[1..], i - 1);
      assert ms[..i] + ms[i + 1..] == [ms[0]] + (ms[1..][..i - 1] + ms[1..][i..]);
    }
  }
}
