/**
 The daily round-robin of app/modules/learning/proficiency.py (_diversify_daily_tasks): concepts take
 turns, each giving its next task in rotated order whose problem has not been given yet. The lists
 the source consumes in place are proved to yield a plain column-major reading.
 */
module RoundRobin {
  import opened Common
  import opened TaskOrder

  /** An eight-byte digest read as a number; byte order is number order. */
  type Digest = x: nat | x < 0x1_0000_0000_0000_0000

  // ----- Dropping repeats of a problem -----

  /** The tasks whose problem is neither seen before nor earlier in the list. */
  function Fresh(tasks: seq<Task>, seen: set<ProblemKey>): seq<Task> {
    if tasks == [] then []
    else if KeyOf(tasks[0]) in seen then Fresh(tasks[1..], seen)
    else [tasks[0]] + Fresh(tasks[1..], seen + {KeyOf(tasks[0])})
  }

  function Keys(tasks: seq<Task>): set<ProblemKey> {
    set t | t in tasks :: KeyOf(t)
  }

  lemma {:induction false} FreshAgree(tasks: seq<Task>, seen: set<ProblemKey>, seen': set<ProblemKey>)
    requires forall t :: t in tasks ==> (KeyOf(t) in seen <==> KeyOf(t) in seen')
    ensures Fresh(tasks, seen) == Fresh(tasks, seen')
  {
    hide KeyOf;
    if tasks != [] {
      assert tasks[0] in tasks;
      assert forall t :: t in tasks[1..] ==> t in tasks;
      if KeyOf(tasks[0]) in seen {
        FreshAgree(tasks[1..], seen, seen');
      } else {
        FreshAgree(tasks[1..], seen + {KeyOf(tasks[0])}, seen' + {KeyOf(tasks[0])});
      }
    }
  }

  /** No problem occurs twice, none was seen before, every problem not seen before is covered. */
  lemma {:induction false} FreshIsDistinct(tasks: seq<Task>, seen: set<ProblemKey>)
    ensures forall t :: t in Fresh(tasks, seen) ==> t in tasks && KeyOf(t) !in seen
    ensures forall a, b :: 0 <= a < b < |Fresh(tasks, seen)| ==>
            KeyOf(Fresh(tasks, seen)[a]) != KeyOf(Fresh(tasks, seen)[b])
    ensures Keys(Fresh(tasks, seen)) + seen == Keys(tasks) + seen
  {
    hide KeyOf;
    if tasks != [] {
      assert tasks == [tasks[0]] + tasks[1..];
      assert Keys(tasks) == {KeyOf(tasks[0])} + Keys(tasks[1..]);
      if KeyOf(tasks[0]) in seen {
        FreshIsDistinct(tasks[1..], seen);
      } else {
        var seen' := seen + {KeyOf(tasks[0])};
        FreshIsDistinct(tasks[1..], seen');
        KeysCons(tasks[0], Fresh(tasks[1..], seen'));
      }
    }
  }

  lemma {:induction false} KeysCons(t: Task, tasks: seq<Task>)
    ensures Keys([t] + tasks) == {KeyOf(t)} + Keys(tasks)
  {
  }

  lemma {:induction false} FreshIsSubsequence(tasks: seq<Task>, seen: set<ProblemKey>)
    requires forall a, b :: 0 <= a < b < |tasks| ==> Rank(tasks[a]) <= Rank(tasks[b])
    ensures forall t :: t in Fresh(tasks, seen) ==> t in tasks
    ensures forall a, b :: 0 <= a < b < |Fresh(tasks, seen)| ==>
            Rank(Fresh(tasks, seen)[a]) <= Rank(Fresh(tasks, seen)[b])
  {
    hide KeyOf, Rank;
    if tasks != [] {
      var rest := tasks[1..];
      if KeyOf(tasks[0]) in seen {
        FreshIsSubsequence(rest, seen);
      } else {
        FreshIsSubsequence(rest, seen + {KeyOf(tasks[0])});
        var f := Fresh(rest, seen + {KeyOf(tasks[0])});
        forall b | 0 <= b < |f|
          ensures Rank(tasks[0]) <= Rank(f[b])
        {
          assert f[b] in rest;
        }
      }
    }
  }

  // ----- Taking the next task of one concept -----

  /** The order min() uses: difficulty rank first, then rotated position. */
  predicate Precedes(a: Task, b: Task, positions: map<nat, nat>)
    requires a.id in positions && b.id in positions
  {
    Rank(a) < Rank(b) || (Rank(a) == Rank(b) && positions[a.id] < positions[b.id])
  }

  /** The tasks stand in strictly increasing (rank, position) order. */
  ghost predicate InLine(queue: seq<Task>, positions: map<nat, nat>) {
    && (forall k :: 0 <= k < |queue| ==> queue[k].id in positions)
    && (forall a, b :: 0 <= a < b < |queue| ==> Precedes(queue[a], queue[b], positions))
  }

  /** min over the candidates with the two-part key, as a loop. */
  method LeastCandidate(candidates: seq<Task>, positions: map<nat, nat>) returns (least: Task)
    requires candidates != [] && forall t :: t in candidates ==> t.id in positions
    ensures least in candidates
    ensures forall t :: t in candidates ==> !Precedes(t, least, positions)
  {
    least := candidates[0];
    for i := 1 to |candidates|
      invariant least in candidates
      invariant forall k :: 0 <= k < i ==> !Precedes(candidates[k], least, positions)
    {
      if Precedes(candidates[i], least, positions) {
        least := candidates[i];
      }
    }
  }

  function IndexOf(candidates: seq<Task>, t: Task): (i: nat)
    requires t in candidates
    ensures i < |candidates| && candidates[i] == t
  {
    if candidates[0] == t then 0 else 1 + IndexOf(candidates[1..], t)
  }

  /** list.remove: the first occurrence goes. */
  function Remove(candidates: seq<Task>, t: Task): seq<Task>
    requires t in candidates
  {
    var i := IndexOf(candidates, t);
    candidates[..i] + candidates[i + 1..]
  }

  lemma {:induction false} RemoveTakesOne(candidates: seq<Task>, t: Task)
    requires t in candidates
    ensures multiset(Remove(candidates, t)) == multiset(candidates) - multiset{t}
    ensures |Remove(candidates, t)| == |candidates| - 1
  {
    var i := IndexOf(candidates, t);
    assert candidates == candidates[..i] + [t] + candidates[i + 1..];
  }

  lemma {:induction false} LeastIsFirst(candidates: seq<Task>, queue: seq<Task>, positions: map<nat, nat>, least: Task)
    requires InLine(queue, positions) && multiset(candidates) == multiset(queue) && candidates != []
    requires least in candidates && (forall t :: t in candidates ==> t.id in positions)
    requires forall t :: t in candidates ==> !Precedes(t, least, positions)
    ensures queue != [] && least == queue[0]
  {
    SameElements(candidates, queue);
    assert candidates[0] in queue;
    assert queue[0] in candidates;
    var k :| 0 <= k < |queue| && queue[k] == least;
  }

  /** What one turn of a concept must do: its fresh tasks are the picked one followed by what stays. */
  ghost predicate TurnResult(queue: seq<Task>, seen: set<ProblemKey>, picked: Option<Task>, queue': seq<Task>) {
    match picked
    case None => queue' == [] && Fresh(queue, seen) == []
    case Some(t) => && t in queue && KeyOf(t) !in seen
                    && Fresh(queue, seen) == [t] + Fresh(queue', seen + {KeyOf(t)})
  }

  lemma {:induction false} CandidatesInLine(candidates: seq<Task>, queue: seq<Task>, positions: map<nat, nat>)
    requires InLine(queue, positions) && multiset(candidates) == multiset(queue)
    ensures forall t :: t in candidates ==> t.id in positions
  {
    SameElements(candidates, queue);
  }

  lemma {:induction false} RestInLine(candidates: seq<Task>, queue: seq<Task>, positions: map<nat, nat>, task: Task)
    requires InLine(queue, positions) && multiset(candidates) == multiset(queue)
    requires queue != [] && task == queue[0] && task in candidates
    ensures InLine(queue[1..], positions) && multiset(Remove(candidates, task)) == multiset(queue[1..])
    ensures |Remove(candidates, task)| == |candidates| - 1
    ensures forall t :: t in queue[1..] ==> t in queue
  {
    hide Remove;
    RemoveTakesOne(candidates, task);
    assert queue == [task] + queue[1..];
  }

  lemma {:induction false} TurnPicks(queue: seq<Task>, line: seq<Task>, seen: set<ProblemKey>, task: Task)
    requires Fresh(queue, seen) == Fresh(line, seen) && line != []
    requires line[0] == task && KeyOf(task) !in seen && task in queue
    ensures TurnResult(queue, seen, Some(task), line[1..])
  {
  }

  lemma {:induction false} TurnSkips(line: seq<Task>, seen: set<ProblemKey>, task: Task)
    requires line != [] && line[0] == task && KeyOf(task) in seen
    ensures Fresh(line[1..], seen) == Fresh(line, seen)
  {
  }

  lemma {:induction false} TurnEnds(queue: seq<Task>, line: seq<Task>, seen: set<ProblemKey>)
    requires Fresh(queue, seen) == Fresh(line, seen) && multiset(line) == multiset([])
    ensures line == [] && TurnResult(queue, seen, None, line)
  {
    assert |multiset(line)| == |line|;
  }

  /** The inner loop: remove candidates in order until one poses a problem not selected yet. */
  method TakeNext(candidates: seq<Task>, positions: map<nat, nat>, seen: set<ProblemKey>, ghost queue: seq<Task>)
    returns (rest: seq<Task>, picked: Option<Task>, ghost queue': seq<Task>)
    requires InLine(queue, positions) && multiset(candidates) == multiset(queue)
    ensures |rest| <= |candidates| && (picked.Some? ==> |rest| < |candidates|)
    ensures InLine(queue', positions) && multiset(rest) == multiset(queue')
    ensures forall t :: t in queue' ==> t in queue
    ensures TurnResult(queue, seen, picked, queue')
  {
    hide KeyOf, Precedes, InLine, TurnResult;
    rest := candidates;
    queue' := queue;
    while rest != []
      invariant |rest| <= |candidates|
      invariant InLine(queue', positions) && multiset(rest) == multiset(queue')
      invariant forall t :: t in queue' ==> t in queue
      invariant Fresh(queue, seen) == Fresh(queue', seen)
    {
      CandidatesInLine(rest, queue', positions);
      var task := LeastCandidate(rest, positions);
      LeastIsFirst(rest, queue', positions, task);
      RestInLine(rest, queue', positions, task);
      rest := Remove(rest, task);
      ghost var line := queue';
      queue' := queue'[1..];
      if KeyOf(task) !in seen {
        TurnPicks(queue, line, seen, task);
        return rest, Some(task), queue';
      }
      TurnSkips(line, seen, task);
    }
    picked := None;
    TurnEnds(queue, queue', seen);
  }

  // ----- Column-major reading -----

  /** The r-th task of each of the first j lists that has one. */
  function Row(ds: seq<seq<Task>>, r: nat, j: nat): seq<Task>
    requires j <= |ds|
  {
    if j == 0 then [] else Row(ds, r, j - 1) + (if r < |ds[j - 1]| then [ds[j - 1][r]] else [])
  }

  /** The first r rows, one after another. */
  function Rows(ds: seq<seq<Task>>, r: nat): seq<Task> {
    if r == 0 then [] else Rows(ds, r - 1) + Row(ds, r - 1, |ds|)
  }

  function Longest(ds: seq<seq<Task>>): (n: nat)
    ensures forall j :: 0 <= j < |ds| ==> |ds[j]| <= n
  {
    if ds == [] then 0 else Max(|ds[|ds| - 1]|, Longest(ds[..|ds| - 1]))
  }

  function ColumnMajor(ds: seq<seq<Task>>): seq<Task> {
    Rows(ds, Longest(ds))
  }

  function Cut(s: seq<Task>, limit: int): seq<Task> {
    if limit <= 0 then [] else if |s| <= limit then s else s[..limit]
  }

  lemma {:induction false} RowEmpty(ds: seq<seq<Task>>, r: nat, j: nat)
    requires j <= |ds|
    ensures Row(ds, r, j) == [] <==> forall i :: 0 <= i < j ==> |ds[i]| <= r
  {
    if j > 0 {
      RowEmpty(ds, r, j - 1);
    }
  }

  lemma {:induction false} RowPrefix(ds: seq<seq<Task>>, r: nat, j: nat, k: nat)
    requires j <= k <= |ds|
    ensures Row(ds, r, j) <= Row(ds, r, k)
  {
    if j < k {
      RowPrefix(ds, r, j, k - 1);
    }
  }

  lemma {:induction false} RowsPrefix(ds: seq<seq<Task>>, r: nat, k: nat)
    requires r <= k
    ensures Rows(ds, r) <= Rows(ds, k)
  {
    if r < k {
      RowsPrefix(ds, r, k - 1);
    }
  }

  lemma {:induction false} LongestIsReached(ds: seq<seq<Task>>)
    ensures Longest(ds) > 0 ==> exists j :: 0 <= j < |ds| && |ds[j]| == Longest(ds)
  {
    if ds != [] {
      var init := ds[..|ds| - 1];
      LongestIsReached(init);
      if Longest(ds) > 0 && Longest(ds) != |ds[|ds| - 1]| {
        var j :| 0 <= j < |init| && |init[j]| == Longest(init);
        assert ds[j] == init[j];
      }
    }
  }

  /** Rows beyond the longest list add nothing. */
  lemma {:induction false} RowsBeyond(ds: seq<seq<Task>>, r: nat)
    requires r >= Longest(ds)
    ensures Rows(ds, r) == ColumnMajor(ds)
  {
    if r > Longest(ds) {
      RowsBeyond(ds, r - 1);
      RowEmpty(ds, r - 1, |ds|);
    }
  }

  /** What the loops have read at any point is a prefix of the column-major reading. */
  lemma {:induction false} PartialReading(ds: seq<seq<Task>>, r: nat, j: nat)
    requires j <= |ds|
    ensures Rows(ds, r) + Row(ds, r, j) <= ColumnMajor(ds)
  {
    hide Longest, Row;
    RowPrefix(ds, r, j, |ds|);
    var k := Max(r + 1, Longest(ds));
    RowsPrefix(ds, r + 1, k);
    RowsBeyond(ds, k);
    assert Rows(ds, r + 1) == Rows(ds, r) + Row(ds, r, |ds|);
    assert Rows(ds, r) + Row(ds, r, j) <= Rows(ds, r) + Row(ds, r, |ds|);
  }

  lemma {:induction false} ReadingComplete(ds: seq<seq<Task>>, r: nat)
    requires Row(ds, r, |ds|) == []
    ensures Rows(ds, r) == ColumnMajor(ds)
  {
    RowEmpty(ds, r, |ds|);
    LongestIsReached(ds);
    RowsBeyond(ds, r);
  }

  /** A task of a row stands at the row's index in one of the lists. */
  lemma {:induction false} RowFrom(ds: seq<seq<Task>>, r: nat, j: nat, t: Task) returns (i: nat)
    requires j <= |ds| && t in Row(ds, r, j)
    ensures i < j && r < |ds[i]| && ds[i][r] == t
  {
    if r < |ds[j - 1]| && ds[j - 1][r] == t {
      i := j - 1;
    } else {
      i := RowFrom(ds, r, j - 1, t);
    }
  }

  lemma {:induction false} RowHolds(ds: seq<seq<Task>>, r: nat, j: nat, i: nat)
    requires i < j <= |ds| && r < |ds[i]|
    ensures ds[i][r] in Row(ds, r, j)
  {
    if i < j - 1 {
      RowHolds(ds, r, j - 1, i);
    }
  }

  /** Whatever the lists hold, the reading holds, and nothing else. */
  lemma {:induction false} RowsFrom(ds: seq<seq<Task>>, r: nat, t: Task) returns (i: nat, k: nat)
    requires t in Rows(ds, r)
    ensures i < |ds| && k < |ds[i]| && k < r && ds[i][k] == t
  {
    hide Row;
    assert r > 0;
    var before, row := Rows(ds, r - 1), Row(ds, r - 1, |ds|);
    assert Rows(ds, r) == before + row;
    hide Rows;
    if t in before {
      i, k := RowsFrom(ds, r - 1, t);
    } else {
      assert t in row;
      i := RowFrom(ds, r - 1, |ds|, t);
      k := r - 1;
    }
  }

  lemma {:induction false} RowsHold(ds: seq<seq<Task>>, r: nat, i: nat, k: nat)
    requires i < |ds| && k < |ds[i]| && k < r
    ensures ds[i][k] in Rows(ds, r)
  {
    hide Row;
    var before, row := Rows(ds, r - 1), Row(ds, r - 1, |ds|);
    assert Rows(ds, r) == before + row;
    hide Rows;
    if k < r - 1 {
      RowsHold(ds, r - 1, i, k);
      assert ds[i][k] in before;
    } else {
      RowHolds(ds, k, |ds|, i);
      assert ds[i][k] in row;
    }
  }

  lemma {:induction false} RowsElements(ds: seq<seq<Task>>, r: nat)
    ensures forall t :: t in Rows(ds, r) ==> exists i :: 0 <= i < |ds| && t in ds[i]
    ensures forall i, k :: 0 <= i < |ds| && 0 <= k < |ds[i]| && k < r ==> ds[i][k] in Rows(ds, r)
  {
    hide Rows;
    forall t | t in Rows(ds, r)
      ensures exists i :: 0 <= i < |ds| && t in ds[i]
    {
      var i, k := RowsFrom(ds, r, t);
    }
    forall i, k | 0 <= i < |ds| && 0 <= k < |ds[i]| && k < r
      ensures ds[i][k] in Rows(ds, r)
    {
      RowsHold(ds, r, i, k);
    }
  }

  // ----- Grouping by concept -----

  function OfConcept(tasks: seq<Task>, concept: nat): seq<Task> {
    if tasks == [] then []
    else
      var last := tasks[|tasks| - 1];
      OfConcept(tasks[..|tasks| - 1], concept) + (if last.concept == concept then [last] else [])
  }

  /** The concepts that occur, in order of first appearance: the key order of the source's dictionary. */
  function Concepts(tasks: seq<Task>): seq<nat> {
    if tasks == [] then []
    else
      var before := Concepts(tasks[..|tasks| - 1]);
      var concept := tasks[|tasks| - 1].concept;
      if concept in before then before else before + [concept]
  }

  lemma {:induction false} ConceptsAreDistinct(tasks: seq<Task>)
    ensures NoRepeats(Concepts(tasks))
    ensures forall c :: c in Concepts(tasks) <==> exists t :: t in tasks && t.concept == c
  {
    if tasks != [] {
      var init, last := tasks[..|tasks| - 1], tasks[|tasks| - 1];
      ConceptsAreDistinct(init);
      assert forall t :: t in tasks <==> t in init || t == last;
    }
  }

  lemma {:induction false} OfConceptElements(tasks: seq<Task>, concept: nat)
    ensures forall t :: t in OfConcept(tasks, concept) <==> t in tasks && t.concept == concept
  {
    if tasks != [] {
      var init, last := tasks[..|tasks| - 1], tasks[|tasks| - 1];
      OfConceptElements(init, concept);
      assert forall t :: t in tasks <==> t in init || t == last;
    }
  }

  lemma {:induction false} OfConceptJoin(a: seq<Task>, b: seq<Task>, concept: nat)
    ensures OfConcept(a + b, concept) == OfConcept(a, concept) + OfConcept(b, concept)
  {
    if b == [] {
      assert a + b == a;
    } else {
      var last := b[|b| - 1];
      assert (a + b)[..|a + b| - 1] == a + b[..|b| - 1];
      OfConceptJoin(a, b[..|b| - 1], concept);
    }
  }

  /** setdefault(task.concept_id, []).append(task), for every task. */
  method GroupByConcept(tasks: seq<Task>) returns (order: seq<nat>, byConcept: map<nat, seq<Task>>)
    ensures order == Concepts(tasks)
    ensures forall c :: c in byConcept <==> c in order
    ensures forall c :: c in byConcept ==> byConcept[c] == OfConcept(tasks, c)
  {
    order, byConcept := [], map[];
    for i := 0 to |tasks|
      invariant order == Concepts(tasks[..i])
      invariant forall c :: c in byConcept <==> c in order
      invariant forall c :: c in byConcept ==> byConcept[c] == OfConcept(tasks[..i], c)
      invariant forall c :: c !in byConcept ==> OfConcept(tasks[..i], c) == []
    {
      var task := tasks[i];
      assert tasks[..i + 1][..i] == tasks[..i];
      if task.concept !in byConcept {
        order := order + [task.concept];
        byConcept := byConcept[task.concept := []];
      }
      byConcept := byConcept[task.concept := byConcept[task.concept] + [task]];
    }
    assert tasks[..|tasks|] == tasks;
  }

  // ----- Rotated positions -----

  /** positions holds, for each task of the list, where it stands in it. */
  ghost predicate PositionsOf(positions: map<nat, nat>, queue: seq<Task>) {
    forall k :: 0 <= k < |queue| ==> queue[k].id in positions && positions[queue[k].id] == k
  }

  /** setdefault(rank, []).append(task), for every task of one concept. */
  method GroupByRank(tasks: seq<Task>) returns (byRank: map<nat, seq<Task>>)
    ensures forall rank :: rank in byRank ==> 1 <= rank <= 3
    ensures forall rank :: rank in byRank ==> byRank[rank] == OfRank(tasks, rank) != []
    ensures forall rank :: rank !in byRank ==> OfRank(tasks, rank) == []
  {
    byRank := map[];
    for i := 0 to |tasks|
      invariant forall rank :: rank in byRank ==> 1 <= rank <= 3
      invariant forall rank :: rank in byRank ==> byRank[rank] == OfRank(tasks[..i], rank) != []
      invariant forall rank :: rank !in byRank ==> OfRank(tasks[..i], rank) == []
    {
      var task := tasks[i];
      assert tasks[..i + 1][..i] == tasks[..i];
      var rank := Rank(task);
      var group := if rank in byRank then byRank[rank] else [];
      byRank := byRank[rank := group + [task]];
    }
    assert tasks[..|tasks|] == tasks;
  }

  /** The groups of the first n ranks, rotated, one after another. */
  function UpTo(r: Rotation, concept: nat, tasks: seq<Task>, n: nat): seq<Task> {
    if n == 0 then [] else UpTo(r, concept, tasks, n - 1) + r.Rotate(concept, OfRank(tasks, n))
  }

  lemma {:induction false} UpToOrder(r: Rotation, concept: nat, tasks: seq<Task>, n: nat)
    requires n <= 3
    ensures UpTo(r, concept, tasks, n) <= r.Order(concept, tasks)
    ensures n == 3 ==> UpTo(r, concept, tasks, n) == r.Order(concept, tasks)
  {
    hide OfRank, Rotation.Rotate;
    var a, b, c := r.Rotate(concept, OfRank(tasks, 1)), r.Rotate(concept, OfRank(tasks, 2)),
        r.Rotate(concept, OfRank(tasks, 3));
    assert UpTo(r, concept, tasks, 0) == [];
    assert UpTo(r, concept, tasks, 1) == a;
    assert UpTo(r, concept, tasks, 2) == a + b;
    assert UpTo(r, concept, tasks, 3) == a + b + c;
  }

  /** The k-th task of the next rotated group is the next task of the order. */
  lemma {:induction false} NextInOrder(r: Rotation, concept: nat, tasks: seq<Task>, rank: nat, k: nat)
    requires 1 <= rank <= 3 && k < |r.Rotate(concept, OfRank(tasks, rank))|
    ensures var at := |UpTo(r, concept, tasks, rank - 1)| + k;
            at < |r.Order(concept, tasks)| && r.Order(concept, tasks)[at] == r.Rotate(concept, OfRank(tasks, rank))[k]
  {
    hide OfRank, Rotation.Rotate, Rotation.Order;
    UpToOrder(r, concept, tasks, rank);
    var at := |UpTo(r, concept, tasks, rank - 1)| + k;
    assert UpTo(r, concept, tasks, rank)[at] == r.Rotate(concept, OfRank(tasks, rank))[k];
  }

  lemma {:induction false} DistinctPermutation(tasks: seq<Task>, queue: seq<Task>)
    requires DistinctIds(tasks) && multiset(queue) == multiset(tasks)
    ensures DistinctIds(queue)
  {
    PermutationNoRepeats(tasks, queue);
    SameElements(queue, tasks);
    forall a, b | 0 <= a < b < |queue|
      ensures queue[a].id != queue[b].id
    {
      assert queue[a] in tasks && queue[b] in tasks;
    }
  }

  lemma {:induction false} PositionsStep(positions: map<nat, nat>, queue: seq<Task>, m: nat)
    requires DistinctIds(queue) && m < |queue| && PositionsOf(positions, queue[..m])
    ensures PositionsOf(positions[queue[m].id := m], queue[..m + 1])
  {
  }

  /** Entries of tasks outside the list are untouched. */
  ghost predicate KeepsOthers(before: map<nat, nat>, positions: map<nat, nat>, tasks: seq<Task>) {
    && before.Keys <= positions.Keys
    && (forall id :: id in before && (forall t :: t in tasks ==> t.id != id) ==> positions[id] == before[id])
  }

  /** The innermost loop: number the tasks of one rotated group on from `position`. */
  method PlaceGroup(rotated: seq<Task>, before: map<nat, nat>, start: nat, ghost queue: seq<Task>)
    returns (positions: map<nat, nat>, position: nat)
    requires DistinctIds(queue) && start + |rotated| <= |queue| && queue[start..start + |rotated|] == rotated
    requires PositionsOf(before, queue[..start])
    ensures position == start + |rotated|
    ensures PositionsOf(positions, queue[..position]) && KeepsOthers(before, positions, queue)
  {
    positions, position := before, start;
    for k := 0 to |rotated|
      invariant position == start + k
      invariant PositionsOf(positions, queue[..position]) && KeepsOthers(before, positions, queue)
    {
      assert rotated[k] == queue[position];
      PositionsStep(positions, queue, position);
      positions := positions[rotated[k].id := position];
      position := position + 1;
    }
  }

  /** One concept's part of the position table: its groups by rank, each sorted, rotated and numbered on. */
  method PlaceConcept(concept: nat, tasks: seq<Task>, r: Rotation, before: map<nat, nat>)
    returns (positions: map<nat, nat>)
    requires DistinctIds(tasks)
    ensures PositionsOf(positions, r.Order(concept, tasks)) && KeepsOthers(before, positions, tasks)
  {
    hide *;
    ghost var queue := r.Order(concept, tasks);
    OrderIsPermutation(r, concept, tasks);
    var byRank := GroupByRank(tasks);
    positions := before;
    var position := 0;
    NoPositions(positions, r, concept, tasks);
    for rank := 1 to 4
      invariant position == |UpTo(r, concept, tasks, rank - 1)| <= |queue|
      invariant PositionsOf(positions, queue[..position]) && KeepsOthers(before, positions, queue)
    {
      GroupInOrder(r, concept, tasks, rank);
      if rank in byRank {
        ghost var sofar := positions;
        positions, position := PlaceGroup(r.Rotate(concept, byRank[rank]), positions, position, queue);
        KeepsOthersTrans(before, sofar, positions, queue);
      } else {
        RotateLength(r, concept, []);
      }
    }
    assert queue[..position] == queue;
    KeepsOthersSame(before, positions, queue, tasks);
  }

  lemma {:induction false} OrderIsPermutation(r: Rotation, concept: nat, tasks: seq<Task>)
    requires DistinctIds(tasks)
    ensures var queue := r.Order(concept, tasks);
            && DistinctIds(queue) && (forall t :: t in queue <==> t in tasks)
            && |UpTo(r, concept, tasks, 3)| == |queue|
  {
    OrderRespectsRank(r, concept, tasks);
    DistinctPermutation(tasks, r.Order(concept, tasks));
    SameElements(r.Order(concept, tasks), tasks);
    UpToOrder(r, concept, tasks, 3);
  }

  lemma {:induction false} KeepsOthersTrans(a: map<nat, nat>, b: map<nat, nat>, c: map<nat, nat>, tasks: seq<Task>)
    requires KeepsOthers(a, b, tasks) && KeepsOthers(b, c, tasks)
    ensures KeepsOthers(a, c, tasks)
  {
  }

  lemma {:induction false} KeepsOthersSame(a: map<nat, nat>, b: map<nat, nat>, queue: seq<Task>, tasks: seq<Task>)
    requires KeepsOthers(a, b, queue) && forall t :: t in queue <==> t in tasks
    ensures KeepsOthers(a, b, tasks)
  {
  }

  lemma {:induction false} NoPositions(positions: map<nat, nat>, r: Rotation, concept: nat, tasks: seq<Task>)
    ensures |UpTo(r, concept, tasks, 0)| == 0
    ensures PositionsOf(positions, r.Order(concept, tasks)[..0])
    ensures KeepsOthers(positions, positions, r.Order(concept, tasks))
  {
  }

  lemma {:induction false} GroupInOrder(r: Rotation, concept: nat, tasks: seq<Task>, rank: nat)
    requires 1 <= rank <= 3
    ensures var group := r.Rotate(concept, OfRank(tasks, rank));
            var start := |UpTo(r, concept, tasks, rank - 1)|;
            start + |group| <= |r.Order(concept, tasks)| && r.Order(concept, tasks)[start..start + |group|] == group
            && |UpTo(r, concept, tasks, rank)| == start + |group|
  {
    hide OfRank, Rotation.Rotate, Rotation.Order;
    UpToOrder(r, concept, tasks, rank);
    var group := r.Rotate(concept, OfRank(tasks, rank));
    forall k | 0 <= k < |group|
      ensures r.Order(concept, tasks)[|UpTo(r, concept, tasks, rank - 1)| + k] == group[k]
    {
      NextInOrder(r, concept, tasks, rank, k);
    }
  }

  lemma {:induction false} OfConceptDistinct(tasks: seq<Task>, concept: nat)
    requires DistinctIds(tasks)
    ensures DistinctIds(OfConcept(tasks, concept))
  {
    if tasks != [] {
      var init, last := tasks[..|tasks| - 1], tasks[|tasks| - 1];
      OfConceptDistinct(init, concept);
      OfConceptElements(init, concept);
      forall a | 0 <= a < |OfConcept(init, concept)|
        ensures OfConcept(init, concept)[a].id != last.id
      {
        assert OfConcept(init, concept)[a] in init;
      }
    }
  }

  lemma {:induction false} OtherConceptOtherId(tasks: seq<Task>, t: Task, u: Task)
    requires DistinctIds(tasks) && t in tasks && u in tasks && t.concept != u.concept
    ensures t.id != u.id && KeyOf(t) != KeyOf(u)
  {
  }

  lemma {:induction false} PositionsSurvive(before: map<nat, nat>, positions: map<nat, nat>, tasks: seq<Task>,
                                            queue: seq<Task>, concept: nat)
    requires DistinctIds(tasks) && KeepsOthers(before, positions, OfConcept(tasks, concept))
    requires PositionsOf(before, queue) && forall t :: t in queue ==> t in tasks && t.concept != concept
    ensures PositionsOf(positions, queue)
  {
    OfConceptElements(tasks, concept);
    forall k | 0 <= k < |queue|
      ensures queue[k].id in positions && positions[queue[k].id] == k
    {
      assert queue[k] in queue;
      forall t | t in OfConcept(tasks, concept)
        ensures t.id != queue[k].id
      {
        OtherConceptOtherId(tasks, t, queue[k]);
      }
    }
  }

  lemma {:induction false} OrderElements(r: Rotation, tasks: seq<Task>, concept: nat)
    requires DistinctIds(tasks)
    ensures forall t :: t in r.Order(concept, OfConcept(tasks, concept)) <==> t in tasks && t.concept == concept
  {
    OfConceptDistinct(tasks, concept);
    OrderIsPermutation(r, concept, OfConcept(tasks, concept));
    OfConceptElements(tasks, concept);
  }

  /**
   The position table of every concept: the positions of a concept are a bijection onto 0..n-1, the
   one that numbers its rotated order.
   */
  method RotatedTaskPositions(order: seq<nat>, byConcept: map<nat, seq<Task>>, r: Rotation, ghost tasks: seq<Task>)
    returns (positions: map<nat, nat>)
    requires DistinctIds(tasks) && NoRepeats(order)
    requires forall c :: c in order ==> c in byConcept && byConcept[c] == OfConcept(tasks, c)
    ensures forall c :: c in order ==> PositionsOf(positions, r.Order(c, OfConcept(tasks, c)))
  {
    hide OfConcept, Rotation.Order, PositionsOf, KeepsOthers;
    positions := map[];
    for i := 0 to |order|
      invariant forall k :: 0 <= k < i ==> PositionsOf(positions, r.Order(order[k], OfConcept(tasks, order[k])))
    {
      ghost var before := positions;
      var concept := order[i];
      OfConceptDistinct(tasks, concept);
      positions := PlaceConcept(concept, byConcept[concept], r, positions);
      forall k | 0 <= k < i
        ensures PositionsOf(positions, r.Order(order[k], OfConcept(tasks, order[k])))
      {
        OrderElements(r, tasks, order[k]);
        PositionsSurvive(before, positions, tasks, r.Order(order[k], OfConcept(tasks, order[k])), concept);
      }
    }
  }

  // ----- The round-robin itself -----

  /** enumerate(weak): a concept's place among the weak concepts, 999 for any other. */
  function WeakRank(weak: seq<nat>, concept: nat): nat {
    if weak == [] then 999
    else if weak[0] == concept then 0
    else if concept in weak[1..] then 1 + WeakRank(weak[1..], concept)
    else 999
  }

  /** Everything the daily order depends on besides the tasks: the rotation, the weak concepts, the concept digests. */
  datatype Day = Day(rotation: Rotation, weak: seq<nat>, digest: nat -> Digest) {

    /** The two-part sort key of a concept, read as one number. */
    function ConceptKey(concept: nat): int {
      WeakRank(weak, concept) * 0x1_0000_0000_0000_0000 + digest(concept)
    }

    function ConceptOrder(tasks: seq<Task>): seq<nat> {
      SortBy(Concepts(tasks), (c: nat) => ConceptKey(c))
    }

    /** One concept's tasks in rotated order, each problem once. */
    function Column(tasks: seq<Task>, concept: nat): seq<Task> {
      Fresh(rotation.Order(concept, OfConcept(tasks, concept)), {})
    }

    function Columns(tasks: seq<Task>): seq<seq<Task>> {
      var order := ConceptOrder(tasks);
      seq(|order|, j requires 0 <= j < |order| => Column(tasks, order[j]))
    }

    /** The specification of the round-robin: read the columns row by row, stop at the limit. */
    function Diversified(tasks: seq<Task>, limit: int): seq<Task> {
      Cut(ColumnMajor(Columns(tasks)), limit)
    }
  }

  lemma {:induction false} ConceptOrderIsDistinct(day: Day, tasks: seq<Task>)
    ensures NoRepeats(day.ConceptOrder(tasks))
    ensures forall c :: c in day.ConceptOrder(tasks) <==> exists t :: t in tasks && t.concept == c
  {
    hide Day.ConceptKey;
    var concepts, order := Concepts(tasks), day.ConceptOrder(tasks);
    ConceptsAreDistinct(tasks);
    SortByIsSorted(concepts, (c: nat) => day.ConceptKey(c));
    PermutationNoRepeats(concepts, order);
    SameElements(concepts, order);
  }

  /** What is left of a column after r rounds. */
  function After(column: seq<Task>, r: nat): seq<Task> {
    if r <= |column| then column[r..] else []
  }

  /** The loop's view of one concept: what its remaining candidates will still give. */
  ghost predicate Slot(concept: nat, candidates: seq<Task>, queue: seq<Task>, positions: map<nat, nat>,
                       seen: set<ProblemKey>, rest: seq<Task>, tasks: seq<Task>)
  {
    && InLine(queue, positions) && multiset(candidates) == multiset(queue)
    && (forall t :: t in queue ==> t in tasks && t.concept == concept)
    && Fresh(queue, seen) == rest
  }

  /** Giving a task of one concept leaves every other concept's remaining tasks as they were. */
  lemma {:induction false} SlotKept(concept: nat, candidates: seq<Task>, queue: seq<Task>, positions: map<nat, nat>,
                                    seen: set<ProblemKey>, rest: seq<Task>, tasks: seq<Task>, given: Task)
    requires DistinctIds(tasks) && given in tasks && given.concept != concept
    requires Slot(concept, candidates, queue, positions, seen, rest, tasks)
    ensures Slot(concept, candidates, queue, positions, seen + {KeyOf(given)}, rest, tasks)
  {
    hide KeyOf, InLine, DistinctIds;
    forall t | t in queue
      ensures KeyOf(t) != KeyOf(given)
    {
      OtherConceptOtherId(tasks, t, given);
    }
    FreshAgree(queue, seen, seen + {KeyOf(given)});
  }

  lemma {:induction false} SlotStart(day: Day, tasks: seq<Task>, concept: nat, positions: map<nat, nat>)
    requires DistinctIds(tasks)
    requires PositionsOf(positions, day.rotation.Order(concept, OfConcept(tasks, concept)))
    ensures Slot(concept, OfConcept(tasks, concept), day.rotation.Order(concept, OfConcept(tasks, concept)), positions,
                 {}, After(day.Column(tasks, concept), 0), tasks)
  {
    hide OfConcept, Rotation.Order, Rank;
    var group := OfConcept(tasks, concept);
    OrderElements(day.rotation, tasks, concept);
    LineFromPositions(day.rotation, concept, group, positions);
    OrderRespectsRank(day.rotation, concept, group);
    hide PositionsOf, InLine, Fresh;
    assert After(day.Column(tasks, concept), 0) == day.Column(tasks, concept);
  }

  /** Numbered in order, a concept's tasks stand in the order min() uses. */
  lemma {:induction false} LineFromPositions(r: Rotation, concept: nat, group: seq<Task>, positions: map<nat, nat>)
    requires PositionsOf(positions, r.Order(concept, group))
    ensures InLine(r.Order(concept, group), positions)
  {
    hide Rotation.Order, Rank;
    OrderRespectsRank(r, concept, group);
  }

  /** All concepts, when the first j of them have had their turn in round r. */
  ghost predicate Slots(order: seq<nat>, byConcept: map<nat, seq<Task>>, queues: map<nat, seq<Task>>,
                        positions: map<nat, nat>, seen: set<ProblemKey>, ds: seq<seq<Task>>, r: nat, j: nat,
                        tasks: seq<Task>)
    requires |ds| == |order|
  {
    forall k :: 0 <= k < |order| ==>
                  && order[k] in byConcept && order[k] in queues
                  && Slot(order[k], byConcept[order[k]], queues[order[k]], positions, seen,
                          After(ds[k], if k < j then r + 1 else r), tasks)
  }

  lemma {:induction false} SlotAfterTurn(concept: nat, queue: seq<Task>, positions: map<nat, nat>,
                                         seen: set<ProblemKey>, column: seq<Task>, r: nat, tasks: seq<Task>,
                                         candidates: seq<Task>, rest: seq<Task>, picked: Option<Task>,
                                         queue': seq<Task>)
    requires Slot(concept, candidates, queue, positions, seen, After(column, r), tasks)
    requires InLine(queue', positions) && multiset(rest) == multiset(queue') && (forall t :: t in queue' ==> t in queue)
    requires TurnResult(queue, seen, picked, queue')
    ensures var seen' := if picked.Some? then seen + {KeyOf(picked.value)} else seen;
            Slot(concept, rest, queue', positions, seen', After(column, r + 1), tasks)
    ensures match picked
            case None => |column| <= r
            case Some(t) => r < |column| && column[r] == t && t in tasks && t.concept == concept && KeyOf(t) !in seen
  {
    hide KeyOf, InLine, Fresh, After;
    NextOfColumn(column, r);
    NothingFresh(seen);
  }

  lemma {:induction false} NothingFresh(seen: set<ProblemKey>)
    ensures Fresh([], seen) == []
  {
  }

  /** A column gives its entries one after another. */
  lemma {:induction false} NextOfColumn(column: seq<Task>, r: nat)
    ensures After(column, r) == [] ==> |column| <= r && After(column, r + 1) == []
    ensures forall t, rest :: After(column, r) == [t] + rest ==>
                                r < |column| && column[r] == t && After(column, r + 1) == rest
  {
    if r < |column| {
      assert column[r..][0] == column[r] && column[r..][1..] == column[r + 1..];
      forall t, rest | After(column, r) == [t] + rest
        ensures column[r] == t && After(column, r + 1) == rest
      {
        assert ([t] + rest)[0] == t && ([t] + rest)[1..] == rest;
      }
    }
  }

  /** One concept's turn, seen by all concepts. */
  lemma {:induction false} SlotsAfterTurn(order: seq<nat>, byConcept: map<nat, seq<Task>>, queues: map<nat, seq<Task>>,
                                          positions: map<nat, nat>, seen: set<ProblemKey>, ds: seq<seq<Task>>, r: nat,
                                          j: nat, tasks: seq<Task>, rest: seq<Task>, picked: Option<Task>,
                                          queue': seq<Task>)
    requires |ds| == |order| && j < |order| && NoRepeats(order) && DistinctIds(tasks)
    requires Slots(order, byConcept, queues, positions, seen, ds, r, j, tasks)
    requires InLine(queue', positions) && multiset(rest) == multiset(queue')
    requires (forall t :: t in queue' ==> t in queues[order[j]])
    requires TurnResult(queues[order[j]], seen, picked, queue')
    ensures var seen' := if picked.Some? then seen + {KeyOf(picked.value)} else seen;
            Slots(order, byConcept[order[j] := rest], queues[order[j] := queue'], positions, seen', ds, r, j + 1, tasks)
    ensures match picked
            case None => |ds[j]| <= r
            case Some(t) => r < |ds[j]| && ds[j][r] == t
  {
    hide KeyOf, InLine, Slot, TurnResult, DistinctIds, After;
    var c := order[j];
    SlotAfterTurn(c, queues[c], positions, seen, ds[j], r, tasks, byConcept[c], rest, picked, queue');
    if picked.Some? {
      forall k | 0 <= k < |order| && k != j
        ensures Slot(order[k], byConcept[order[k]], queues[order[k]], positions, seen + {KeyOf(picked.value)},
                     After(ds[k], if k < j then r + 1 else r), tasks)
      {
        SlotKept(order[k], byConcept[order[k]], queues[order[k]], positions, seen,
                 After(ds[k], if k < j then r + 1 else r), tasks, picked.value);
      }
    }
  }

  /** One round: every concept in order gives its next fresh task, until the limit is reached. */
  method GiveRound(order: seq<nat>, start: map<nat, seq<Task>>, positions: map<nat, nat>, before: seq<Task>,
                   seenBefore: set<ProblemKey>, limit: int,
                   ghost ds: seq<seq<Task>>, ghost r: nat, ghost tasks: seq<Task>,
                   ghost queuesBefore: map<nat, seq<Task>>)
    returns (byConcept: map<nat, seq<Task>>, selected: seq<Task>, seen: set<ProblemKey>, added: bool,
             ghost queues: map<nat, seq<Task>>)
    requires |ds| == |order| && NoRepeats(order) && DistinctIds(tasks)
    requires Slots(order, start, queuesBefore, positions, seenBefore, ds, r, 0, tasks)
    requires before == Rows(ds, r) && |before| < limit
    ensures if |selected| == limit then selected <= ColumnMajor(ds)
            else && |selected| < limit && selected == Rows(ds, r + 1) && (added <==> Row(ds, r, |ds|) != [])
                 && Slots(order, byConcept, queues, positions, seen, ds, r + 1, 0, tasks)
  {
    hide *;
    byConcept, selected, seen, added, queues := start, before, seenBefore, false, queuesBefore;
    RowStart(ds, r);
    for j := 0 to |order|
      invariant Slots(order, byConcept, queues, positions, seen, ds, r, j, tasks)
      invariant selected == Rows(ds, r) + Row(ds, r, j) && |selected| < limit
      invariant added <==> Row(ds, r, j) != []
    {
      SlotAt(order, byConcept, queues, positions, seen, ds, r, j, tasks);
      var rest, picked, queue' := TakeNext(byConcept[order[j]], positions, seen, queues[order[j]]);
      SlotsAfterTurn(order, byConcept, queues, positions, seen, ds, r, j, tasks, rest, picked, queue');
      RowStep(ds, r, j, picked);
      byConcept, queues := byConcept[order[j] := rest], queues[order[j] := queue'];
      if picked.Some? {
        selected := selected + [picked.value];
        seen := seen + {KeyOf(picked.value)};
        added := true;
      }
      if |selected| == limit {
        PartialReading(ds, r, j + 1);
        return;
      }
    }
    SlotsNextRound(order, byConcept, queues, positions, seen, ds, r, tasks);
    RowsStep(ds, r);
  }

  lemma {:induction false} RowStart(ds: seq<seq<Task>>, r: nat)
    ensures Row(ds, r, 0) == [] && Rows(ds, r) + [] == Rows(ds, r)
  {
  }

  lemma {:induction false} RowStep(ds: seq<seq<Task>>, r: nat, j: nat, picked: Option<Task>)
    requires j < |ds|
    requires match picked
             case None => |ds[j]| <= r
             case Some(t) => r < |ds[j]| && ds[j][r] == t
    ensures Row(ds, r, j + 1) == if picked.Some? then Row(ds, r, j) + [picked.value] else Row(ds, r, j)
    ensures picked.Some? ==> Rows(ds, r) + Row(ds, r, j + 1) == Rows(ds, r) + Row(ds, r, j) + [picked.value]
  {
  }

  lemma {:induction false} RowsStep(ds: seq<seq<Task>>, r: nat)
    ensures Rows(ds, r + 1) == Rows(ds, r) + Row(ds, r, |ds|)
  {
  }

  lemma {:induction false} SlotAt(order: seq<nat>, byConcept: map<nat, seq<Task>>, queues: map<nat, seq<Task>>,
                                  positions: map<nat, nat>, seen: set<ProblemKey>, ds: seq<seq<Task>>, r: nat, j: nat,
                                  tasks: seq<Task>)
    requires |ds| == |order| && j < |order| && Slots(order, byConcept, queues, positions, seen, ds, r, j, tasks)
    ensures order[j] in byConcept && order[j] in queues
    ensures InLine(queues[order[j]], positions) && multiset(byConcept[order[j]]) == multiset(queues[order[j]])
  {
  }

  lemma {:induction false} SlotsNextRound(order: seq<nat>, byConcept: map<nat, seq<Task>>, queues: map<nat, seq<Task>>,
                                          positions: map<nat, nat>, seen: set<ProblemKey>, ds: seq<seq<Task>>, r: nat,
                                          tasks: seq<Task>)
    requires |ds| == |order| && Slots(order, byConcept, queues, positions, seen, ds, r, |order|, tasks)
    ensures Slots(order, byConcept, queues, positions, seen, ds, r + 1, 0, tasks)
  {
  }

  /** The whole algorithm: group, order, rotate, and go round until the limit or until nothing is added. */
  method DiversifyDailyTasks(tasks: seq<Task>, day: Day, limit: int) returns (selected: seq<Task>)
    requires DistinctIds(tasks)
    ensures selected == day.Diversified(tasks, limit)
  {
    hide *;
    var concepts, byConcept := GroupByConcept(tasks);
    var order := SortBy(concepts, (c: nat) => day.ConceptKey(c));
    ghost var ds := day.Columns(tasks);
    StartOfDay(day, tasks);
    var positions := RotatedTaskPositions(order, byConcept, day.rotation, tasks);
    var seen: set<ProblemKey> := {};
    ghost var queues := map c | c in order :: day.rotation.Order(c, OfConcept(tasks, c));
    SlotsStart(day, tasks, byConcept, queues, positions);
    selected := [];
    ghost var r := 0;
    while |selected| < limit
      invariant selected == Rows(ds, r) && (|selected| < limit || selected == [])
      invariant Slots(order, byConcept, queues, positions, seen, ds, r, 0, tasks)
      decreases Longest(ds) - r
    {
      var added;
      byConcept, selected, seen, added, queues :=
        GiveRound(order, byConcept, positions, selected, seen, limit, ds, r, tasks, queues);
      if |selected| == limit {
        CutReached(day, tasks, selected, limit);
        return;
      }
      if !added {
        DayDone(day, tasks, selected, limit, r);
        return;
      }
      RowWithinLongest(ds, r);
      r := r + 1;
    }
    NothingAsked(day, tasks, limit);
  }

  lemma {:induction false} StartOfDay(day: Day, tasks: seq<Task>)
    ensures day.ConceptOrder(tasks) == SortBy(Concepts(tasks), (c: nat) => day.ConceptKey(c))
    ensures NoRepeats(day.ConceptOrder(tasks)) && |day.Columns(tasks)| == |day.ConceptOrder(tasks)|
    ensures forall c :: c in day.ConceptOrder(tasks) <==> c in Concepts(tasks)
    ensures Rows(day.Columns(tasks), 0) == []
  {
    hide Day.Column, Day.ConceptKey, SortBy;
    ConceptOrderIsDistinct(day, tasks);
    ConceptsAreDistinct(tasks);
  }

  lemma {:induction false} SlotsStart(day: Day, tasks: seq<Task>, byConcept: map<nat, seq<Task>>,
                                      queues: map<nat, seq<Task>>, positions: map<nat, nat>)
    requires DistinctIds(tasks)
    requires |day.Columns(tasks)| == |day.ConceptOrder(tasks)|
    requires forall c :: c in day.ConceptOrder(tasks) ==> c in byConcept && byConcept[c] == OfConcept(tasks, c)
    requires forall c :: c in day.ConceptOrder(tasks) ==>
                           && c in queues && queues[c] == day.rotation.Order(c, OfConcept(tasks, c))
                           && PositionsOf(positions, queues[c])
    ensures Slots(day.ConceptOrder(tasks), byConcept, queues, positions, {}, day.Columns(tasks), 0, 0, tasks)
  {
    hide Slot, DistinctIds, OfConcept, Rotation.Order, Day.Column, Day.ConceptOrder, After, PositionsOf;
    var order := day.ConceptOrder(tasks);
    forall k | 0 <= k < |order|
      ensures Slot(order[k], byConcept[order[k]], queues[order[k]], positions, {}, After(day.Columns(tasks)[k], 0),
                   tasks)
    {
      SlotStart(day, tasks, order[k], positions);
    }
  }

  lemma {:induction false} CutReached(day: Day, tasks: seq<Task>, selected: seq<Task>, limit: int)
    requires |selected| == limit && limit > 0 && selected <= ColumnMajor(day.Columns(tasks))
    ensures selected == day.Diversified(tasks, limit)
  {
    hide Day.Columns, ColumnMajor;
  }

  lemma {:induction false} DayDone(day: Day, tasks: seq<Task>, selected: seq<Task>, limit: int, r: nat)
    requires var ds := day.Columns(tasks);
             |selected| < limit && selected == Rows(ds, r + 1) && Row(ds, r, |ds|) == []
    ensures selected == day.Diversified(tasks, limit)
  {
    hide Day.Columns, ColumnMajor, Row;
    ReadingComplete(day.Columns(tasks), r);
  }

  lemma {:induction false} NothingAsked(day: Day, tasks: seq<Task>, limit: int)
    requires limit <= 0
    ensures day.Diversified(tasks, limit) == []
  {
  }

  lemma {:induction false} RowWithinLongest(ds: seq<seq<Task>>, r: nat)
    requires Row(ds, r, |ds|) != []
    ensures r < Longest(ds)
  {
    RowEmpty(ds, r, |ds|);
  }

  // ----- What the daily order guarantees -----

  lemma {:induction false} ColumnOfConcept(day: Day, tasks: seq<Task>, j: nat)
    requires DistinctIds(tasks) && j < |day.ConceptOrder(tasks)|
    ensures forall t :: t in day.Columns(tasks)[j] ==> t in tasks && t.concept == day.ConceptOrder(tasks)[j]
  {
    hide Day.ConceptOrder, OfConcept, Rotation.Order, DistinctIds;
    var c := day.ConceptOrder(tasks)[j];
    OrderElements(day.rotation, tasks, c);
    FreshIsDistinct(day.rotation.Order(c, OfConcept(tasks, c)), {});
  }

  lemma {:induction false} OfConceptSame(tasks: seq<Task>, concept: nat)
    ensures (forall t :: t in tasks ==> t.concept == concept) ==> OfConcept(tasks, concept) == tasks
    ensures (forall t :: t in tasks ==> t.concept != concept) ==> OfConcept(tasks, concept) == []
  {
    if tasks != [] {
      OfConceptSame(tasks[..|tasks| - 1], concept);
      assert tasks == tasks[..|tasks| - 1] + [tasks[|tasks| - 1]];
    }
  }

  /** Of a row's entry from list j, only the concept of list j gets anything. */
  lemma {:induction false} EntryShare(day: Day, tasks: seq<Task>, r: nat, i: nat, j: nat)
    requires DistinctIds(tasks) && i < |day.ConceptOrder(tasks)| && j < |day.ConceptOrder(tasks)|
    ensures var ds := day.Columns(tasks);
            && |ds| == |day.ConceptOrder(tasks)|
            && OfConcept(if r < |ds[j]| then [ds[j][r]] else [], day.ConceptOrder(tasks)[i])
               == if i == j && r < |ds[j]| then [ds[j][r]] else []
  {
    hide Day.ConceptOrder, Day.Column, DistinctIds, OfConcept;
    var ds, order := day.Columns(tasks), day.ConceptOrder(tasks);
    ConceptOrderIsDistinct(day, tasks);
    ColumnOfConcept(day, tasks, j);
    assert order[i] == order[j] <==> i == j;
    OfConceptSame(if r < |ds[j]| then [ds[j][r]] else [], order[i]);
  }

  /** Of one row, a concept gets its own entry and nothing else. */
  lemma {:induction false} RowShare(day: Day, tasks: seq<Task>, r: nat, i: nat, j: nat)
    requires DistinctIds(tasks) && i < |day.ConceptOrder(tasks)| && j <= |day.ConceptOrder(tasks)|
    requires |day.Columns(tasks)| == |day.ConceptOrder(tasks)|
    ensures var ds := day.Columns(tasks);
            OfConcept(Row(ds, r, j), day.ConceptOrder(tasks)[i]) == if i < j && r < |ds[i]| then [ds[i][r]] else []
  {
    hide Day.ConceptOrder, Day.Columns, DistinctIds, OfConcept;
    var ds, c := day.Columns(tasks), day.ConceptOrder(tasks)[i];
    if j == 0 {
      OfConceptSame([], c);
    } else {
      RowShare(day, tasks, r, i, j - 1);
      EntryShare(day, tasks, r, i, j - 1);
      OfConceptJoin(Row(ds, r, j - 1), if r < |ds[j - 1]| then [ds[j - 1][r]] else [], c);
    }
  }

  /**
   Fairness: after r full rounds a concept has contributed exactly the first min(r, n) of its n
   distinct tasks, in its own order.
   */
  lemma {:induction false} RoundsAreFair(day: Day, tasks: seq<Task>, r: nat, i: nat)
    requires DistinctIds(tasks) && i < |day.ConceptOrder(tasks)|
    ensures var ds := day.Columns(tasks);
            |ds| == |day.ConceptOrder(tasks)|
            && OfConcept(Rows(ds, r), day.ConceptOrder(tasks)[i]) == ds[i][..Min(r, |ds[i]|)]
  {
    StartOfDay(day, tasks);
    hide Day.ConceptOrder, Day.Columns, DistinctIds, Row, OfConcept;
    var ds := day.Columns(tasks);
    if r == 0 {
      OfConceptSame([], day.ConceptOrder(tasks)[i]);
    } else {
      RoundsAreFair(day, tasks, r - 1, i);
      RowShare(day, tasks, r - 1, i, |ds|);
      OfConceptJoin(Rows(ds, r - 1), Row(ds, r - 1, |ds|), day.ConceptOrder(tasks)[i]);
    }
  }

  /** Within a concept's column no problem repeats and difficulty never decreases. */
  lemma {:induction false} ColumnIsOrdered(day: Day, tasks: seq<Task>, concept: nat)
    ensures var d := day.Column(tasks, concept);
            && (forall a, b :: 0 <= a < b < |d| ==> KeyOf(d[a]) != KeyOf(d[b]))
            && (forall a, b :: 0 <= a < b < |d| ==> Rank(d[a]) <= Rank(d[b]))
  {
    hide OfConcept, Rotation.Order, Rank, KeyOf;
    var order := day.rotation.Order(concept, OfConcept(tasks, concept));
    OrderRespectsRank(day.rotation, concept, OfConcept(tasks, concept));
    FreshIsDistinct(order, {});
    FreshIsSubsequence(order, {});
  }

  /** A generous limit: the daily order poses every problem of the tasks it was given. */
  lemma {:induction false} DiversifiedCovers(day: Day, tasks: seq<Task>, t: Task)
    requires DistinctIds(tasks) && t in tasks
    ensures KeyOf(t) in Keys(ColumnMajor(day.Columns(tasks)))
  {
    hide KeyOf, OfConcept, Rotation.Order, DistinctIds, Longest, Rows;
    ConceptOrderIsDistinct(day, tasks);
    var ds, order := day.Columns(tasks), day.ConceptOrder(tasks);
    assert t.concept in order;
    var j :| 0 <= j < |order| && order[j] == t.concept;
    hide Day.ConceptOrder;
    var queue := day.rotation.Order(t.concept, OfConcept(tasks, t.concept));
    OrderElements(day.rotation, tasks, t.concept);
    FreshIsDistinct(queue, {});
    assert KeyOf(t) in Keys(queue);
    assert KeyOf(t) in Keys(ds[j]);
    var k :| 0 <= k < |ds[j]| && KeyOf(ds[j][k]) == KeyOf(t);
    RowsElements(ds, Longest(ds));
    assert ds[j][k] in ColumnMajor(ds);
  }

  /** The daily order only ever holds tasks it was given. */
  lemma {:induction false} DiversifiedFrom(day: Day, tasks: seq<Task>)
    requires DistinctIds(tasks)
    ensures forall t :: t in ColumnMajor(day.Columns(tasks)) ==> t in tasks
  {
    hide DistinctIds, Longest, Rows, Day.Column, Day.ConceptOrder;
    var ds := day.Columns(tasks);
    RowsElements(ds, Longest(ds));
    forall t | t in ColumnMajor(ds)
      ensures t in tasks
    {
      var i :| 0 <= i < |ds| && t in ds[i];
      ColumnOfConcept(day, tasks, i);
    }
  }
}
