/**
 Task identity and the date-rotated order of app/modules/learning/proficiency.py: problem keys,
 stable sorting, and the positions every task of a concept takes on a given date.
 */
module TaskOrder {
  import opened Common

  datatype Difficulty = Bronze | Silver | Gold

  datatype Domain = Python | Sql

  /** prompt is the normalised problem text of a seeded story variant; None for any other task. */
  datatype Task = Task(
    id: nat,
    concept: nat,
    difficulty: Difficulty,
    prompt: Option<string>,
    domain: Domain,
    active: bool)

  datatype ProblemKey =
    | SeedKey(concept: nat, difficulty: Difficulty, prompt: string)
    | TaskKey(id: nat)

  function KeyOf(t: Task): ProblemKey {
    match t.prompt
    case Some(prompt) => SeedKey(t.concept, t.difficulty, prompt)
    case None => TaskKey(t.id)
  }

  function Rank(t: Task): nat {
    match t.difficulty
    case Bronze => 1
    case Silver => 2
    case Gold => 3
  }

  /** Primary keys: no two rows share an id. */
  ghost predicate DistinctIds(tasks: seq<Task>) {
    forall a, b :: 0 <= a < b < |tasks| ==> tasks[a].id != tasks[b].id
  }

  /** Two rows pose the same problem: the same row, or two variants of one seeded story. */
  lemma {:induction false} SameProblem(t: Task, u: Task)
    ensures KeyOf(t) == KeyOf(u)
            <==> (|| (t.prompt == None && u.prompt == None && t.id == u.id)
                  || (t.prompt.Some? && t.prompt == u.prompt && t.concept == u.concept && t.difficulty == u.difficulty))
  {
  }

  // ----- Stable sorting, as Python's sorted with a key -----

  function InsertBy<T>(x: T, s: seq<T>, key: T -> int): seq<T> {
    if s == [] || key(x) <= key(s[0]) then [x] + s else [s[0]] + InsertBy(x, s[1..], key)
  }

  function SortBy<T>(s: seq<T>, key: T -> int): seq<T> {
    if s == [] then [] else InsertBy(s[0], SortBy(s[1..], key), key)
  }

  ghost predicate SortedBy<T>(s: seq<T>, key: T -> int) {
    forall a, b :: 0 <= a < b < |s| ==> key(s[a]) <= key(s[b])
  }

  lemma {:induction false} InsertByPermutes<T>(x: T, s: seq<T>, key: T -> int)
    ensures multiset(InsertBy(x, s, key)) == multiset{x} + multiset(s)
    ensures |InsertBy(x, s, key)| == |s| + 1
  {
    if s != [] && key(x) > key(s[0]) {
      InsertByPermutes(x, s[1..], key);
      assert s == [s[0]] + s[1..];
    }
  }

  lemma {:induction false} InsertByIsSorted<T>(x: T, s: seq<T>, key: T -> int)
    requires SortedBy(s, key)
    ensures SortedBy(InsertBy(x, s, key), key)
  {
    if s != [] && key(x) > key(s[0]) {
      InsertByIsSorted(x, s[1..], key);
      InsertByPermutes(x, s[1..], key);
      var r := InsertBy(x, s[1..], key);
      forall b | 0 <= b < |r|
        ensures key(s[0]) <= key(r[b])
      {
        assert r[b] in multiset(r);
        assert r[b] == x || r[b] in s[1..];
      }
    }
  }

  /** Sorting permutes and orders. */
  lemma {:induction false} SortByIsSorted<T>(s: seq<T>, key: T -> int)
    ensures SortedBy(SortBy(s, key), key)
    ensures multiset(SortBy(s, key)) == multiset(s)
    ensures |SortBy(s, key)| == |s|
  {
    if s != [] {
      SortByIsSorted(s[1..], key);
      InsertByIsSorted(s[0], SortBy(s[1..], key), key);
      InsertByPermutes(s[0], SortBy(s[1..], key), key);
      assert s == [s[0]] + s[1..];
    }
  }

  // ----- The order of one concept's tasks on one date -----

  function OfRank(tasks: seq<Task>, rank: nat): seq<Task> {
    if tasks == [] then []
    else
      var last := tasks[|tasks| - 1];
      OfRank(tasks[..|tasks| - 1], rank) + (if Rank(last) == rank then [last] else [])
  }

  function RankedBy(hash: nat -> nat, group: seq<Task>): seq<Task> {
    SortBy(group, (t: Task) => hash(t.id))
  }

  lemma {:induction false} RankedPermutes(hash: nat -> nat, group: seq<Task>)
    ensures multiset(RankedBy(hash, group)) == multiset(group)
    ensures |RankedBy(hash, group)| == |group|
  {
    SortByIsSorted(group, (t: Task) => hash(t.id));
  }

  /** What the rotation of one request depends on; hash is the user's fixed pseudo-random rank of a task id. */
  datatype Rotation = Rotation(user: nat, date: nat, hash: nat -> nat) {

    function Offset(concept: nat, length: nat): nat
      requires length > 0
    {
      (date + user + concept) % length
    }

    function Sorted(group: seq<Task>): seq<Task> {
      RankedBy(hash, group)
    }

    /** One difficulty group, sorted by the user's rank and rotated by the date. */
    function Rotate(concept: nat, group: seq<Task>): seq<Task> {
      var s := Sorted(group);
      if s == [] then [] else s[Offset(concept, |s|)..] + s[..Offset(concept, |s|)]
    }

    /** The whole concept: its difficulty groups in order, each rotated. */
    function Order(concept: nat, tasks: seq<Task>): seq<Task> {
      Rotate(concept, OfRank(tasks, 1)) + Rotate(concept, OfRank(tasks, 2)) + Rotate(concept, OfRank(tasks, 3))
    }
  }

  lemma {:induction false} OfRankFilters(tasks: seq<Task>, rank: nat)
    ensures forall k :: 0 <= k < |OfRank(tasks, rank)| ==> Rank(OfRank(tasks, rank)[k]) == rank
  {
    hide Rank;
    if tasks != [] {
      OfRankFilters(tasks[..|tasks| - 1], rank);
    }
  }

  lemma {:induction false} OfRankStep(init: seq<Task>, last: Task, rank: nat)
    ensures multiset(OfRank(init + [last], rank))
         == multiset(OfRank(init, rank)) + (if Rank(last) == rank then multiset{last} else multiset{})
  {
  }

  lemma {:induction false} OfRankPartitions(tasks: seq<Task>)
    ensures multiset(OfRank(tasks, 1)) + multiset(OfRank(tasks, 2)) + multiset(OfRank(tasks, 3)) == multiset(tasks)
  {
    if tasks != [] {
      var init, last := tasks[..|tasks| - 1], tasks[|tasks| - 1];
      assert tasks == init + [last];
      OfRankPartitions(init);
      OfRankStep(init, last, 1);
      OfRankStep(init, last, 2);
      OfRankStep(init, last, 3);
      assert Rank(last) in {1, 2, 3};
      hide Rank, OfRank;
    }
  }

  lemma {:induction false} RotatePermutes(r: Rotation, concept: nat, group: seq<Task>)
    ensures multiset(r.Rotate(concept, group)) == multiset(group)
    ensures |r.Rotate(concept, group)| == |group|
  {
    var s := r.Sorted(group);
    RankedPermutes(r.hash, group);
    if s != [] {
      var o := r.Offset(concept, |s|);
      assert s == s[..o] + s[o..];
    }
  }

  lemma {:induction false} SameElements<T>(a: seq<T>, b: seq<T>)
    requires multiset(a) == multiset(b)
    ensures forall t :: t in a <==> t in b
  {
    forall t
      ensures t in a <==> t in b
    {
      assert t in a <==> t in multiset(a);
      assert t in b <==> t in multiset(b);
    }
  }

  ghost predicate NoRepeats<T>(s: seq<T>) {
    forall a, b :: 0 <= a < b < |s| ==> s[a] != s[b]
  }

  lemma {:induction false} NoRepeatsOnce<T>(s: seq<T>, x: T)
    ensures NoRepeats(s) ==> multiset(s)[x] <= 1
  {
    if s != [] {
      assert s == [s[0]] + s[1..];
      NoRepeatsOnce(s[1..], x);
      assert NoRepeats(s) && x == s[0] ==> x !in s[1..];
    }
  }

  lemma {:induction false} RepeatsTwice<T>(s: seq<T>, a: nat, b: nat)
    requires a < b < |s| && s[a] == s[b]
    ensures multiset(s)[s[a]] >= 2
  {
    assert s == s[..b] + [s[b]] + s[b + 1..];
    assert s[a] == s[..b][a];
  }

  /** A permutation of a sequence without repeats has none either. */
  lemma {:induction false} PermutationNoRepeats<T>(a: seq<T>, b: seq<T>)
    requires NoRepeats(a) && multiset(a) == multiset(b)
    ensures NoRepeats(b)
  {
    forall i, j | 0 <= i < j < |b|
      ensures b[i] != b[j]
    {
      if b[i] == b[j] {
        RepeatsTwice(b, i, j);
        NoRepeatsOnce(a, b[i]);
      }
    }
  }

  lemma {:induction false} RotateKeepsRank(r: Rotation, concept: nat, tasks: seq<Task>, rank: nat)
    ensures forall k :: 0 <= k < |r.Rotate(concept, OfRank(tasks, rank))| ==>
                          Rank(r.Rotate(concept, OfRank(tasks, rank))[k]) == rank
  {
    var g := OfRank(tasks, rank);
    OfRankFilters(tasks, rank);
    RotatePermutes(r, concept, g);
    SameElements(g, r.Rotate(concept, g));
    forall k | 0 <= k < |r.Rotate(concept, g)|
      ensures Rank(r.Rotate(concept, g)[k]) == rank
    {
      assert r.Rotate(concept, g)[k] in g;
    }
  }

  /** A concept's order is a permutation of its tasks in which difficulty never decreases. */
  lemma {:induction false} OrderRespectsRank(r: Rotation, concept: nat, tasks: seq<Task>)
    ensures multiset(r.Order(concept, tasks)) == multiset(tasks)
    ensures forall a, b :: 0 <= a < b < |r.Order(concept, tasks)| ==>
                             Rank(r.Order(concept, tasks)[a]) <= Rank(r.Order(concept, tasks)[b])
  {
    var g1, g2, g3 := OfRank(tasks, 1), OfRank(tasks, 2), OfRank(tasks, 3);
    OfRankPartitions(tasks);
    RotatePermutes(r, concept, g1);
    RotatePermutes(r, concept, g2);
    RotatePermutes(r, concept, g3);
    RotateKeepsRank(r, concept, tasks, 1);
    RotateKeepsRank(r, concept, tasks, 2);
    RotateKeepsRank(r, concept, tasks, 3);
    RankOfConcat(r.Rotate(concept, g1), r.Rotate(concept, g2), r.Rotate(concept, g3));
    hide *;
    assert multiset(r.Rotate(concept, g1) + r.Rotate(concept, g2) + r.Rotate(concept, g3))
        == multiset(r.Rotate(concept, g1)) + multiset(r.Rotate(concept, g2)) + multiset(r.Rotate(concept, g3));
  }

  lemma {:induction false} RankOfConcat(a: seq<Task>, b: seq<Task>, c: seq<Task>)
    requires forall k :: 0 <= k < |a| ==> Rank(a[k]) == 1
    requires forall k :: 0 <= k < |b| ==> Rank(b[k]) == 2
    requires forall k :: 0 <= k < |c| ==> Rank(c[k]) == 3
    ensures forall i, j :: 0 <= i < j < |a + b + c| ==> Rank((a + b + c)[i]) <= Rank((a + b + c)[j])
  {
  }

  // ----- The rotation is a Latin square -----

  /** The place within its difficulty group that the rotation gives to the i-th task of the sorted group. */
  function Place(r: Rotation, concept: nat, length: nat, i: nat): nat
    requires i < length
  {
    var o := r.Offset(concept, length);
    if i >= o then i - o else i + length - o
  }

  lemma {:induction false} PlaceIsPosition(r: Rotation, concept: nat, group: seq<Task>, i: nat)
    requires i < |r.Sorted(group)|
    ensures var s := r.Sorted(group);
            var p := Place(r, concept, |s|, i);
            p < |s| && r.Rotate(concept, group)[p] == s[i]
  {
  }

  lemma {:induction false} ProductAtLeast(k: int, m: nat)
    requires k >= 1
    ensures k * m >= m
  {
  }

  /** A remainder is determined by any decomposition. */
  lemma {:induction false} ModIs(x: int, m: nat, q: int, rest: int)
    requires 0 <= rest < m && x == q * m + rest
    ensures x % m == rest
  {
    var q', rest' := x / m, x % m;
    assert x == q' * m + rest';
    assert (q' - q) * m == rest - rest';
    assert (q - q') * m == rest' - rest;
    if q' > q {
      ProductAtLeast(q' - q, m);
    } else if q' < q {
      ProductAtLeast(q - q', m);
    }
  }

  /** How many days after a date with the given offset the offset is `target`. */
  function DaysUntil(offset: nat, target: nat, length: nat): nat
    requires offset < length && target < length
  {
    if target >= offset then target - offset else target + length - offset
  }

  lemma {:induction false} OffsetLater(x: nat, days: nat, length: nat)
    requires days < length
    ensures (x + days) % length == if x % length + days < length then x % length + days else x % length + days - length
  {
    var q := x / length;
    assert x == q * length + x % length;
    if x % length + days < length {
      ModIs(x + days, length, q, x % length + days);
    } else {
      assert (q + 1) * length == q * length + length;
      ModIs(x + days, length, q + 1, x % length + days - length);
    }
  }

  function Later(r: Rotation, days: nat): Rotation {
    r.(date := r.date + days)
  }

  lemma {:induction false} OffsetOnDay(r: Rotation, concept: nat, length: nat, days: nat)
    requires days < length
    ensures var o := r.Offset(concept, length);
            Later(r, days).Offset(concept, length) == if o + days < length then o + days else o + days - length
  {
    var x := r.date + r.user + concept;
    assert r.date + days + r.user + concept == x + days;
    OffsetLater(x, days, length);
  }

  /**
   Latin square, as places: among any `length` consecutive dates there is exactly one on which the
   i-th task of an unchanged group of that size stands in place p.
   */
  lemma {:induction false} LatinSquare(r: Rotation, concept: nat, length: nat, i: nat, p: nat)
    requires i < length && p < length
    ensures exists day :: 0 <= day < length && Place(Later(r, day), concept, length, i) == p
    ensures forall day, day' ::
              (&& 0 <= day < length && Place(Later(r, day), concept, length, i) == p
               && 0 <= day' < length && Place(Later(r, day'), concept, length, i) == p)
              ==> day == day'
  {
    var o := r.Offset(concept, length);
    var target := if i >= p then i - p else i + length - p;
    var day := DaysUntil(o, target, length);
    OffsetOnDay(r, concept, length, day);
    hide Rotation.Offset;
    assert Place(Later(r, day), concept, length, i) == p;
    forall d, d' | 0 <= d < length && 0 <= d' < length
                && Place(Later(r, d), concept, length, i) == p && Place(Later(r, d'), concept, length, i) == p
      ensures d == d'
    {
      OffsetOnDay(r, concept, length, d);
      OffsetOnDay(r, concept, length, d');
    }
  }

  /** How many tasks of the concept stand before those of the given rank. */
  function Base(tasks: seq<Task>, rank: nat): nat {
    (if rank > 1 then |OfRank(tasks, 1)| else 0) + (if rank > 2 then |OfRank(tasks, 2)| else 0)
  }

  /** On every date the i-th task of a difficulty group stands at its place, counted from the group's base. */
  lemma {:induction false} OrderAtPlace(r: Rotation, concept: nat, tasks: seq<Task>, rank: nat, i: nat)
    requires 1 <= rank <= 3 && i < |OfRank(tasks, rank)|
    ensures var group := OfRank(tasks, rank);
            var at := Base(tasks, rank) + Place(r, concept, |group|, i);
            && |r.Sorted(group)| == |group| && at < |r.Order(concept, tasks)|
            && r.Order(concept, tasks)[at] == r.Sorted(group)[i]
  {
    hide *;
    PlaceInRotation(r, concept, OfRank(tasks, rank), i);
    InOrder(r, concept, tasks, rank, Place(r, concept, |OfRank(tasks, rank)|, i));
  }

  /** Where the rotated group of one rank stands in the concept's order. */
  lemma {:induction false} InOrder(r: Rotation, concept: nat, tasks: seq<Task>, rank: nat, p: nat)
    requires 1 <= rank <= 3 && p < |r.Rotate(concept, OfRank(tasks, rank))|
    ensures Base(tasks, rank) + p < |r.Order(concept, tasks)|
    ensures r.Order(concept, tasks)[Base(tasks, rank) + p] == r.Rotate(concept, OfRank(tasks, rank))[p]
  {
    hide *;
    RotateLength(r, concept, OfRank(tasks, 1));
    RotateLength(r, concept, OfRank(tasks, 2));
    OrderParts(r, concept, tasks, rank);
    IndexOfConcat(r.Rotate(concept, OfRank(tasks, 1)), r.Rotate(concept, OfRank(tasks, 2)),
                  r.Rotate(concept, OfRank(tasks, 3)), p);
  }

  lemma {:induction false} OrderParts(r: Rotation, concept: nat, tasks: seq<Task>, rank: nat)
    requires 1 <= rank <= 3
    ensures r.Order(concept, tasks) == r.Rotate(concept, OfRank(tasks, 1)) + r.Rotate(concept, OfRank(tasks, 2))
                                       + r.Rotate(concept, OfRank(tasks, 3))
    ensures Base(tasks, rank)
            == if rank == 1 then 0 else if rank == 2 then |OfRank(tasks, 1)|
               else |OfRank(tasks, 1)| + |OfRank(tasks, 2)|
  {
    hide OfRank, Rotation.Rotate;
  }

  lemma {:induction false} IndexOfConcat(a: seq<Task>, b: seq<Task>, c: seq<Task>, p: nat)
    ensures |a + b + c| == |a| + |b| + |c|
    ensures p < |a| ==> (a + b + c)[p] == a[p]
    ensures p < |b| ==> (a + b + c)[|a| + p] == b[p]
    ensures p < |c| ==> (a + b + c)[|a| + |b| + p] == c[p]
  {
  }

  lemma {:induction false} RotateLength(r: Rotation, concept: nat, group: seq<Task>)
    ensures |r.Rotate(concept, group)| == |group|
  {
    RotatePermutes(r, concept, group);
  }

  lemma {:induction false} PlaceInRotation(r: Rotation, concept: nat, group: seq<Task>, i: nat)
    requires i < |group|
    ensures |r.Sorted(group)| == |group|
    ensures Place(r, concept, |group|, i) < |r.Rotate(concept, group)|
    ensures r.Rotate(concept, group)[Place(r, concept, |group|, i)] == r.Sorted(group)[i]
  {
    RankedPermutes(r.hash, group);
    PlaceIsPosition(r, concept, group, i);
    RotatePermutes(r, concept, group);
  }

  // ----- The Latin square of a concept's order -----

  /** The user's own ranking does not change with the date. */
  lemma {:induction false} SortedSame(r: Rotation, days: nat, group: seq<Task>)
    ensures Later(r, days).Sorted(group) == r.Sorted(group)
  {
  }

  /** The task is the one at this index of its concept's order. */
  predicate StandsAt(r: Rotation, concept: nat, tasks: seq<Task>, t: Task, at: nat) {
    at < |r.Order(concept, tasks)| && r.Order(concept, tasks)[at] == t
  }

  lemma {:induction false} OrderNoRepeats(r: Rotation, concept: nat, tasks: seq<Task>)
    requires DistinctIds(tasks)
    ensures NoRepeats(r.Order(concept, tasks))
  {
    OrderRespectsRank(r, concept, tasks);
    hide Rotation.Order, Rank;
    PermutationNoRepeats(tasks, r.Order(concept, tasks));
  }

  /** On a given date the task with rank index i stands in group position p exactly when that is its place. */
  lemma {:induction false} StandsAtPlace(r: Rotation, days: nat, concept: nat, tasks: seq<Task>, rank: nat, i: nat,
                                         p: nat)
    requires DistinctIds(tasks) && 1 <= rank <= 3 && i < |OfRank(tasks, rank)|
    ensures |r.Sorted(OfRank(tasks, rank))| == |OfRank(tasks, rank)|
    ensures StandsAt(Later(r, days), concept, tasks, r.Sorted(OfRank(tasks, rank))[i], Base(tasks, rank) + p)
       <==> Place(Later(r, days), concept, |OfRank(tasks, rank)|, i) == p
  {
    hide *;
    var later := Later(r, days);
    OrderAtPlace(later, concept, tasks, rank, i);
    SortedSame(r, days, OfRank(tasks, rank));
    OrderNoRepeats(later, concept, tasks);
    OnePlace(later.Order(concept, tasks), Base(tasks, rank) + Place(later, concept, |OfRank(tasks, rank)|, i),
             Base(tasks, rank) + p);
    StandsAtMeans(later, concept, tasks, r.Sorted(OfRank(tasks, rank))[i], Base(tasks, rank) + p);
  }

  lemma {:induction false} OnePlace(s: seq<Task>, a: nat, b: nat)
    requires NoRepeats(s) && a < |s|
    ensures (b < |s| && s[b] == s[a]) <==> a == b
  {
  }

  lemma {:induction false} StandsAtMeans(r: Rotation, concept: nat, tasks: seq<Task>, t: Task, at: nat)
    ensures StandsAt(r, concept, tasks, t, at)
            <==> at < |r.Order(concept, tasks)| && r.Order(concept, tasks)[at] == t
  {
  }

  lemma {:induction false} IndexInSorted(r: Rotation, group: seq<Task>, t: Task) returns (i: nat)
    requires t in group
    ensures i < |group| == |r.Sorted(group)| && r.Sorted(group)[i] == t
  {
    RankedPermutes(r.hash, group);
    var sorted := r.Sorted(group);
    hide RankedBy;
    assert t in multiset(sorted);
    i :| 0 <= i < |sorted| && sorted[i] == t;
  }

  /**
   Rotation is a Latin square: over any L consecutive dates, a task of an unchanged group of size L
   stands in each of the group's L positions of its concept's order on exactly one date.
   */
  lemma {:induction false} OrderIsLatinSquare(r: Rotation, concept: nat, tasks: seq<Task>, rank: nat, t: Task, p: nat)
    requires DistinctIds(tasks) && 1 <= rank <= 3 && t in OfRank(tasks, rank) && p < |OfRank(tasks, rank)|
    ensures exists day ::
              0 <= day < |OfRank(tasks, rank)| && StandsAt(Later(r, day), concept, tasks, t, Base(tasks, rank) + p)
    ensures forall day, day' ::
              (&& 0 <= day < |OfRank(tasks, rank)| && 0 <= day' < |OfRank(tasks, rank)|
               && StandsAt(Later(r, day), concept, tasks, t, Base(tasks, rank) + p)
               && StandsAt(Later(r, day'), concept, tasks, t, Base(tasks, rank) + p))
              ==> day == day'
  {
    var length := |OfRank(tasks, rank)|;
    var i := IndexInSorted(r, OfRank(tasks, rank), t);
    LatinSquare(r, concept, length, i, p);
    hide *;
    forall day: nat
      ensures StandsAt(Later(r, day), concept, tasks, t, Base(tasks, rank) + p)
              <==> Place(Later(r, day), concept, length, i) == p
    {
      StandsAtPlace(r, day, concept, tasks, rank, i, p);
    }
  }

  // ----- The closed form of the order -----

  /** A place counted round a circle, also backwards. */
  function Wrapped(x: int, length: nat): nat
    requires length > 0
  {
    x % length
  }

  lemma {:induction false} PlaceIsRemainder(r: Rotation, concept: nat, length: nat, i: nat)
    requires i < length
    ensures Place(r, concept, length, i) == Wrapped(i - (r.date + r.user + concept), length)
  {
    var x := r.date + r.user + concept;
    var q, o := x / length, x % length;
    assert x == q * length + o;
    if i >= o {
      assert i - x == (-q) * length + (i - o);
      ModIs(i - x, length, -q, i - o);
    } else {
      assert (-q - 1) * length == (-q) * length - length;
      assert i - x == (-q - 1) * length + (i + length - o);
      ModIs(i - x, length, -q - 1, i + length - o);
    }
  }

  /** In a sorted list with different keys, as many have a smaller key as stand before. */
  lemma {:induction false} SmallerStandBefore(s: seq<Task>, hash: nat -> nat, i: nat)
    requires i < |s| && SortedBy(s, (t: Task) => hash(t.id))
    requires forall a, b :: 0 <= a < b < |s| ==> hash(s[a].id) != hash(s[b].id)
    ensures |set u | u in s && hash(u.id) < hash(s[i].id)| == i
  {
    var key := (t: Task) => hash(t.id);
    forall a, b | 0 <= a < b < |s|
      ensures hash(s[a].id) < hash(s[b].id)
    {
      assert key(s[a]) <= key(s[b]);
    }
    assert NoRepeats(s);
    DistinctCount(s[..i]);
    assert (set u | u in s && hash(u.id) < hash(s[i].id)) == set u | u in s[..i];
  }

  lemma {:induction false} OfRankRows(tasks: seq<Task>, rank: nat)
    requires DistinctIds(tasks)
    ensures forall u :: u in OfRank(tasks, rank) <==> u in tasks && Rank(u) == rank
    ensures DistinctIds(OfRank(tasks, rank))
  {
    hide Rank;
    if tasks != [] {
      var init, last := tasks[..|tasks| - 1], tasks[|tasks| - 1];
      OfRankRows(init, rank);
      assert tasks == init + [last];
      var rest := OfRank(init, rank);
      forall k | 0 <= k < |rest|
        ensures rest[k].id != last.id
      {
        assert rest[k] in init;
      }
    }
  }

  function OfDifficulty(tasks: seq<Task>, d: Difficulty): set<Task> {
    set u | u in tasks && u.difficulty == d
  }

  lemma {:induction false} DifficultyIsRank(tasks: seq<Task>, t: Task)
    ensures OfDifficulty(tasks, t.difficulty) == Ranked(tasks, Rank(t))
    ensures t in tasks ==> t in OfDifficulty(tasks, t.difficulty)
  {
  }

  /** Those of the group that the user's own ranking puts before the task. */
  function Ahead(r: Rotation, group: set<Task>, t: Task): set<Task> {
    set u | u in group && r.hash(u.id) < r.hash(t.id)
  }

  function EasierThan(tasks: seq<Task>, d: Difficulty): set<Task> {
    set u | u in tasks && Easier(u.difficulty, d)
  }

  predicate Easier(a: Difficulty, b: Difficulty) {
    (a == Bronze && b != Bronze) || (a == Silver && b == Gold)
  }

  lemma {:induction false} DistinctCount<T>(s: seq<T>)
    ensures |set x | x in s| <= |s|
    ensures NoRepeats(s) ==> |set x | x in s| == |s|
  {
    if s != [] {
      DistinctCount(s[1..]);
      assert (set x | x in s) == {s[0]} + (set x | x in s[1..]);
      assert NoRepeats(s) ==> s[0] !in s[1..];
    }
  }

  /** The tasks of one difficulty rank. */
  function Ranked(tasks: seq<Task>, rank: nat): set<Task> {
    set u | u in tasks && Rank(u) == rank
  }

  lemma {:induction false} RankedSize(tasks: seq<Task>, rank: nat)
    requires DistinctIds(tasks)
    ensures |Ranked(tasks, rank)| == |OfRank(tasks, rank)|
  {
    OfRankRows(tasks, rank);
    hide OfRank, Rank;
    var rows := OfRank(tasks, rank);
    assert NoRepeats(rows);
    DistinctCount(rows);
    assert Ranked(tasks, rank) == set u | u in rows;
  }

  /** The easier tasks are as many as stand before the first of a difficulty. */
  lemma {:induction false} EasierAreBase(tasks: seq<Task>, t: Task)
    requires DistinctIds(tasks)
    ensures |EasierThan(tasks, t.difficulty)| == Base(tasks, Rank(t))
  {
    RankedSize(tasks, 1);
    RankedSize(tasks, 2);
    hide OfRank, DistinctIds;
    var easier := EasierThan(tasks, t.difficulty);
    match t.difficulty
    case Bronze =>
      NoneIn(easier);
    case Silver =>
      assert easier == Ranked(tasks, 1);
    case Gold =>
      assert easier == Ranked(tasks, 1) + Ranked(tasks, 2);
      assert Ranked(tasks, 1) !! Ranked(tasks, 2);
  }

  lemma {:induction false} NoneIn(s: set<Task>)
    requires forall u :: u !in s
    ensures |s| == 0
  {
    var none: set<Task> := {};
    assert s == none;
  }

  /** The user's own ranking has no ties. */
  ghost predicate NoTies(hash: nat -> nat, tasks: seq<Task>) {
    forall u, v :: u in tasks && v in tasks && u.id != v.id ==> hash(u.id) != hash(v.id)
  }

  lemma {:induction false} NoTiesWithin(hash: nat -> nat, tasks: seq<Task>, rows: seq<Task>)
    requires NoTies(hash, tasks) && forall u :: u in rows ==> u in tasks
    ensures NoTies(hash, rows)
  {
  }

  /** In a permutation of rows with different ids, different ranks mean different places. */
  lemma {:induction false} DistinctRanks(rows: seq<Task>, s: seq<Task>, hash: nat -> nat)
    requires DistinctIds(rows) && multiset(s) == multiset(rows)
    requires NoTies(hash, rows)
    ensures forall a, b :: 0 <= a < b < |s| ==> hash(s[a].id) != hash(s[b].id)
  {
    SameElements(rows, s);
    assert NoRepeats(rows);
    PermutationNoRepeats(rows, s);
    forall a, b | 0 <= a < b < |s|
      ensures hash(s[a].id) != hash(s[b].id)
    {
      assert s[a] in rows && s[b] in rows && s[a] != s[b];
      if s[a].id == s[b].id {
        SameIdSameRow(rows, s[a], s[b]);
      }
    }
  }

  lemma {:induction false} SameIdSameRow(tasks: seq<Task>, t: Task, u: Task)
    requires DistinctIds(tasks) && t in tasks && u in tasks && t.id == u.id
    ensures t == u
  {
  }

  /** As many of the group have a smaller rank as stand before the task in the sorted group. */
  lemma {:induction false} IndexIsRanking(r: Rotation, tasks: seq<Task>, rank: nat, t: Task) returns (i: nat)
    requires DistinctIds(tasks) && t in tasks && Rank(t) == rank
    requires NoTies(r.hash, tasks)
    ensures i < |OfRank(tasks, rank)| == |r.Sorted(OfRank(tasks, rank))| && r.Sorted(OfRank(tasks, rank))[i] == t
    ensures |Ahead(r, Ranked(tasks, rank), t)| == i
  {
    var rows := OfRank(tasks, rank);
    OfRankRows(tasks, rank);
    SortByIsSorted(rows, (u: Task) => r.hash(u.id));
    var s := r.Sorted(rows);
    assert SortedBy(s, (u: Task) => r.hash(u.id));
    i := IndexInSorted(r, rows, t);
    RankedPermutes(r.hash, rows);
    NoTiesWithin(r.hash, tasks, rows);
    hide OfRank, RankedBy, SortedBy, Rank, DistinctIds, NoTies;
    DistinctRanks(rows, s, r.hash);
    SmallerStandBefore(s, r.hash, i);
    SameElements(rows, s);
    assert Ahead(r, Ranked(tasks, rank), t) == set u | u in s && r.hash(u.id) < r.hash(t.id);
  }

  /**
   The order in closed form: a task with i others of its difficulty before it in the user's own ranking
   stands at (i - date - user - concept) modulo the number of these, counted behind all easier ones.
   */
  lemma {:induction false} StandsByRanking(r: Rotation, concept: nat, tasks: seq<Task>, t: Task)
    requires DistinctIds(tasks) && t in tasks
    requires NoTies(r.hash, tasks)
    ensures var group := OfDifficulty(tasks, t.difficulty);
            && t in group
            && StandsAt(r, concept, tasks, t,
                        |EasierThan(tasks, t.difficulty)|
                        + Wrapped(|Ahead(r, group, t)| - (r.date + r.user + concept), |group|))
  {
    var rank := Rank(t);
    RankRange(t);
    LaterToday(r);
    hide *;
    var i := IndexIsRanking(r, tasks, rank, t);
    DifficultyIsRank(tasks, t);
    RankedSize(tasks, rank);
    EasierAreBase(tasks, t);
    PlaceIsRemainder(r, concept, |OfRank(tasks, rank)|, i);
    StandsAtPlace(r, 0, concept, tasks, rank, i, Place(r, concept, |OfRank(tasks, rank)|, i));
  }

  lemma {:induction false} LaterToday(r: Rotation)
    ensures Later(r, 0) == r
  {
  }

  lemma {:induction false} RankRange(t: Task)
    ensures 1 <= Rank(t) <= 3
  {
  }
}
