/**
 Which problem comes before which, on a page of recommended_tasks and in the daily round-robin, told
 from the problems themselves: attempted recently or not, of a weak concept or not, and whose turn it is.
 */
module PageOrder {
  import opened Common
  import opened TaskOrder
  import opened RoundRobin
  import opened Recommendation

  // ----- The classes of a page -----

  /** How far back a problem stands: 0 weak and not attempted, 1 other and not attempted, 2 weak, 3 other. */
  function Class(q: Request, t: Task): nat {
    (if t.id in q.recent then 2 else 0) + (if t.concept in q.day.weak then 0 else 1)
  }

  lemma {:induction false} FreshJoin(a: seq<Task>, b: seq<Task>, seen: set<ProblemKey>)
    ensures Fresh(a + b, seen) == Fresh(a, seen) + Fresh(b, seen + Keys(a))
  {
    hide KeyOf;
    if a == [] {
      assert a + b == b;
      assert seen + Keys(a) == seen;
    } else {
      var rest := a[1..];
      var seen' := seen + {KeyOf(a[0])};
      assert (a + b)[1..] == rest + b;
      assert a == [a[0]] + rest;
      KeysCons(a[0], rest);
      FreshJoin(rest, b, if KeyOf(a[0]) in seen then seen else seen');
      assert seen' + Keys(rest) == seen + Keys(a);
      assert KeyOf(a[0]) in seen ==> seen + Keys(rest) == seen + Keys(a);
    }
  }

  /** The list of pass n holds only eligible rows of class n at most, of its own kind. */
  lemma {:induction false} PassClass(q: Request, n: nat, t: Task)
    requires DistinctIds(q.table) && n < 4 && t in q.PassList(n)
    ensures t in q.table && q.Eligible(t) && Class(q, t) <= n && (n == 2 ==> Class(q, t) != 1)
  {
    hide Request.Candidates, DistinctIds, KeyOf, Keys, Request.QueryRows, ColumnMajor, Day.Columns;
    CandidatesCover(q, PASSES[n].0, PASSES[n].1);
  }

  /** The list of pass n has every problem with an eligible row of class n. */
  lemma {:induction false} PassHasClass(q: Request, t: Task)
    requires DistinctIds(q.table) && t in q.table && q.Eligible(t)
    ensures KeyOf(t) in Keys(q.PassList(Class(q, t)))
  {
    hide Request.Candidates, DistinctIds, KeyOf, Keys, Request.QueryRows, ColumnMajor, Day.Columns;
    var n := Class(q, t);
    CandidatesCover(q, PASSES[n].0, PASSES[n].1);
  }

  /** Once pass n is listed, so is every problem with an eligible row of class n or less. */
  lemma {:induction false} ListedByClass(q: Request, n: nat, t: Task)
    requires DistinctIds(q.table) && n <= 4 && t in q.table && q.Eligible(t) && Class(q, t) < n
    ensures KeyOf(t) in Keys(q.Lists(n))
  {
    hide Request.PassList, KeyOf, Keys, DistinctIds, Request.Eligible;
    KeysJoin(q.Lists(n - 1), q.PassList(n - 1));
    if Class(q, t) == n - 1 {
      PassHasClass(q, t);
    } else {
      ListedByClass(q, n - 1, t);
    }
  }

  /** What pass n adds to the page has class n, and no eligible row poses the same problem in a better class. */
  lemma {:induction false} AddedByPass(q: Request, n: nat, k: nat)
    requires DistinctIds(q.table) && n < 4
    requires |Fresh(q.Lists(n), {})| <= k < |Fresh(q.Lists(n + 1), {})|
    ensures Class(q, Fresh(q.Lists(n + 1), {})[k]) == n
    ensures forall r :: r in q.table && q.Eligible(r) && KeyOf(r) == KeyOf(Fresh(q.Lists(n + 1), {})[k]) ==>
              Class(q, r) >= n
  {
    var seen := {} + Keys(q.Lists(n));
    assert q.Lists(n + 1) == q.Lists(n) + q.PassList(n);
    hide Request.Lists, Request.PassList, KeyOf, Keys, Fresh, DistinctIds, Request.Eligible, Class;
    FreshJoin(q.Lists(n), q.PassList(n), {});
    FreshIsDistinct(q.PassList(n), seen);
    var t := Fresh(q.Lists(n + 1), {})[k];
    assert t == Fresh(q.PassList(n), seen)[k - |Fresh(q.Lists(n), {})|];
    PassClass(q, n, t);
    forall r | r in q.table && q.Eligible(r) && KeyOf(r) == KeyOf(t)
      ensures Class(q, r) >= n
    {
      if Class(q, r) < n {
        ListedByClass(q, n, r);
      }
    }
  }

  /** The pass that put the k-th problem on the page. */
  lemma {:induction false} PassAt(q: Request, n: nat, k: nat) returns (p: nat)
    requires n <= 4 && k < |Fresh(q.Lists(n), {})|
    ensures p < n && |Fresh(q.Lists(p), {})| <= k < |Fresh(q.Lists(p + 1), {})|
    ensures Fresh(q.Lists(p + 1), {}) <= Fresh(q.Lists(n), {})
  {
    hide Request.PassList;
    if n > 0 && k < |Fresh(q.Lists(n - 1), {})| {
      p := PassAt(q, n - 1, k);
      assert q.Lists(n) == q.Lists(n - 1) + q.PassList(n - 1);
      hide Fresh, Request.Lists;
      FreshPrefix(q.Lists(n - 1), q.PassList(n - 1));
    } else {
      p := n - 1;
    }
  }

  /** Passes come in order. */
  lemma {:induction false} PassesInOrder(q: Request, a: nat, b: nat)
    requires a <= b <= 4
    ensures |Fresh(q.Lists(a), {})| <= |Fresh(q.Lists(b), {})|
  {
    hide Fresh, Request.PassList;
    if a < b {
      PassesInOrder(q, a, b - 1);
      FreshPrefix(q.Lists(b - 1), q.PassList(b - 1));
    }
  }

  /**
   A page is in order. Problems not attempted recently stand before those that were; within either
   kind those of weak concepts stand before the others. A problem posed by several rows is posed by
   one of the best class.
   */
  lemma {:induction false} PageInOrder(q: Request, i: nat, j: nat)
    requires DistinctIds(q.table) && i < j < |q.Recommended()|
    ensures var (t, u) := (q.Recommended()[i], q.Recommended()[j]);
            && (u.id !in q.recent ==> t.id !in q.recent)
            && ((t.id in q.recent <==> u.id in q.recent) && u.concept in q.day.weak ==> t.concept in q.day.weak)
    ensures forall r :: r in q.table && q.Eligible(r) && KeyOf(r) == KeyOf(q.Recommended()[i]) ==>
              Class(q, q.Recommended()[i]) <= Class(q, r)
  {
    RecommendedFromAll(q);
    hide Request.Recommended, Fresh, Request.Lists, KeyOf, DistinctIds, Request.Eligible;
    var a := PassAt(q, 4, i);
    var b := PassAt(q, 4, j);
    AddedByPass(q, a, i);
    AddedByPass(q, b, j);
    if b < a {
      PassesInOrder(q, b + 1, a);
    }
  }

  /**
   A page that is not cut poses exactly the problems of the active rows of the domain asked for, if one
   is, and of the difficulties allowed, if they are given; a cut page holds only such rows.
   */
  lemma {:induction false} PageHolds(q: Request, t: Task)
    requires DistinctIds(q.table)
    ensures t in q.Recommended() ==>
              && t in q.table && t.active && (q.domain == None || q.domain == Some(t.domain))
              && (q.allowed.Some? ==> t.difficulty in q.allowed.value)
    ensures (q.limit < 1 || |q.Recommended()| < q.limit)
            && t in q.table && t.active && (q.domain == None || q.domain == Some(t.domain))
            && (q.allowed.Some? ==> t.difficulty in q.allowed.value)
            ==> KeyOf(t) in Keys(q.Recommended())
  {
    PageIsDistinct(q);
    if (q.limit < 1 || |q.Recommended()| < q.limit) && t in q.table && q.Eligible(t) {
      ShortPageCovers(q, t);
    }
    hide Request.Recommended, DistinctIds, Keys, KeyOf;
  }

  // ----- The turns of the daily order -----

  /** Which concepts come first: weak ones before the others, weaker ones before weak ones. */
  lemma {:induction false} WeakRankIsPlace(weak: seq<nat>, c: nat, d: nat)
    requires |weak| < 1000 && d in weak && (WeakRank(weak, c) < WeakRank(weak, d) || c == d)
    ensures exists p :: 0 <= p < |weak| && weak[p] == c && d !in weak[..p]
  {
    WeakRankBound(weak, d);
    if weak[0] == c {
      assert weak[..0] == [];
    } else {
      var rest := weak[1..];
      WeakRankIsPlace(rest, c, d);
      var p :| 0 <= p < |rest| && rest[p] == c && d !in rest[..p];
      assert weak[..p + 1] == [weak[0]] + rest[..p];
    }
  }

  lemma {:induction false} WeakRankBound(weak: seq<nat>, c: nat)
    ensures c in weak ==> WeakRank(weak, c) < |weak|
    ensures c !in weak ==> WeakRank(weak, c) == 999
  {
    if weak != [] {
      WeakRankBound(weak[1..], c);
    }
  }

  lemma {:induction false} SameWeakRank(weak: seq<nat>, c: nat, d: nat)
    requires c in weak && WeakRank(weak, c) == WeakRank(weak, d) && |weak| < 1000
    ensures c == d
  {
    WeakRankBound(weak, c);
    WeakRankBound(weak, d);
    if weak[0] != c && weak[0] != d && d in weak {
      SameWeakRank(weak[1..], c, d);
    }
  }

  /** A concept stands before a weak one only if it is weak too, and weaker. */
  lemma {:induction false} WeakConceptsFirst(day: Day, tasks: seq<Task>, i: nat, j: nat)
    requires |day.weak| < 1000 && i < j < |day.ConceptOrder(tasks)| && day.ConceptOrder(tasks)[j] in day.weak
    ensures exists p :: 0 <= p < |day.weak| && day.weak[p] == day.ConceptOrder(tasks)[i]
                        && day.ConceptOrder(tasks)[j] !in day.weak[..p]
  {
    SortByIsSorted(Concepts(tasks), (c: nat) => day.ConceptKey(c));
    var order := day.ConceptOrder(tasks);
    var c, d := order[i], order[j];
    assert day.ConceptKey(c) <= day.ConceptKey(d);
    hide SortBy, Day.ConceptOrder;
    RankFirst(WeakRank(day.weak, c), day.digest(c), WeakRank(day.weak, d), day.digest(d));
    if WeakRank(day.weak, c) == WeakRank(day.weak, d) {
      SameWeakRank(day.weak, d, c);
    }
    WeakRankIsPlace(day.weak, c, d);
  }

  lemma {:induction false} RankFirst(a: nat, x: Digest, b: nat, y: Digest)
    requires a * 0x1_0000_0000_0000_0000 + x <= b * 0x1_0000_0000_0000_0000 + y
    ensures a <= b
  {
  }

  /** How often the concept of the k-th problem had its turn before. */
  function TurnsBefore(reading: seq<Task>, k: nat): nat
    requires k < |reading|
  {
    |OfConcept(reading[..k], reading[k].concept)|
  }

  /** The k-th entry of the first n rows: its row and its list. */
  lemma {:induction false} EntryOf(ds: seq<seq<Task>>, n: nat, k: nat) returns (r: nat, j: nat)
    requires k < |Rows(ds, n)|
    ensures r < n && j < |ds| && r < |ds[j]| && k == |Rows(ds, r)| + |Row(ds, r, j)|
    ensures Rows(ds, n)[k] == ds[j][r] && Rows(ds, n)[..k] == Rows(ds, r) + Row(ds, r, j)
  {
    hide Row;
    var before, row := Rows(ds, n - 1), Row(ds, n - 1, |ds|);
    assert Rows(ds, n) == before + row;
    hide Rows;
    if k < |before| {
      r, j := EntryOf(ds, n - 1, k);
      assert Rows(ds, n)[..k] == before[..k];
    } else {
      r := n - 1;
      j := EntryOfRow(ds, r, |ds|, k - |before|);
      assert Rows(ds, n)[..k] == before + row[..k - |before|];
    }
  }

  lemma {:induction false} EntryOfRow(ds: seq<seq<Task>>, r: nat, n: nat, k: nat) returns (j: nat)
    requires n <= |ds| && k < |Row(ds, r, n)|
    ensures j < n && r < |ds[j]| && k == |Row(ds, r, j)|
    ensures Row(ds, r, n)[k] == ds[j][r] && Row(ds, r, n)[..k] == Row(ds, r, j)
  {
    var before := Row(ds, r, n - 1);
    if k < |before| {
      j := EntryOfRow(ds, r, n - 1, k);
      assert Row(ds, r, n)[..k] == before[..k];
    } else {
      j := n - 1;
    }
  }

  /** The concept of an entry had as many turns before as there were rows before it. */
  lemma {:induction false} TurnsAreRows(day: Day, tasks: seq<Task>, k: nat) returns (r: nat, j: nat)
    requires DistinctIds(tasks) && k < |ColumnMajor(day.Columns(tasks))|
    ensures var ds := day.Columns(tasks);
            && j < |day.ConceptOrder(tasks)| == |ds| && k == |Rows(ds, r)| + |Row(ds, r, j)| && r < |ds[j]|
            && ColumnMajor(ds)[k].concept == day.ConceptOrder(tasks)[j]
            && TurnsBefore(ColumnMajor(ds), k) == r
  {
    var ds := day.Columns(tasks);
    StartOfDay(day, tasks);
    hide Day.ConceptOrder, Day.Columns, DistinctIds, Row, Rows, OfConcept, Longest;
    r, j := EntryOf(ds, Longest(ds), k);
    ColumnOfConcept(day, tasks, j);
    RoundsAreFair(day, tasks, r, j);
    RowShare(day, tasks, r, j, j);
    OfConceptJoin(Rows(ds, r), Row(ds, r, j), day.ConceptOrder(tasks)[j]);
  }

  lemma {:induction false} RowsGrow(ds: seq<seq<Task>>, a: nat, b: nat)
    requires a <= b
    ensures |Rows(ds, a)| <= |Rows(ds, b)|
  {
    hide Row;
    if a < b {
      RowsGrow(ds, a, b - 1);
    }
  }

  /**
   The daily order takes turns: of two problems in it, the concept of the later one had as many turns
   before or more, and when it had as many its concept stands later in the order of concepts.
   */
  lemma {:induction false} TurnsInOrder(day: Day, tasks: seq<Task>, a: nat, b: nat)
    requires DistinctIds(tasks) && a < b < |ColumnMajor(day.Columns(tasks))|
    ensures var reading, order := ColumnMajor(day.Columns(tasks)), day.ConceptOrder(tasks);
            || TurnsBefore(reading, a) < TurnsBefore(reading, b)
            || (&& TurnsBefore(reading, a) == TurnsBefore(reading, b)
                && exists i, j :: 0 <= i < j < |order| && order[i] == reading[a].concept
                                  && order[j] == reading[b].concept)
  {
    var ds := day.Columns(tasks);
    var r, i := TurnsAreRows(day, tasks, a);
    var r', j := TurnsAreRows(day, tasks, b);
    hide *;
    EntriesInOrder(ds, r, i, r', j);
  }

  lemma {:induction false} EntriesInOrder(ds: seq<seq<Task>>, r: nat, i: nat, r': nat, j: nat)
    requires i < |ds| && j < |ds| && r < |ds[i]| && r' < |ds[j]|
    requires |Rows(ds, r)| + |Row(ds, r, i)| < |Rows(ds, r')| + |Row(ds, r', j)|
    ensures r < r' || (r == r' && i < j)
  {
    hide Rows, Row;
    if r' < r {
      RowsGrow(ds, r' + 1, r);
      RowEntryInside(ds, r', j);
    } else if r == r' && j <= i {
      RowPrefix(ds, r, j, i);
    }
  }

  lemma {:induction false} RowEntryInside(ds: seq<seq<Task>>, r: nat, j: nat)
    requires j < |ds| && r < |ds[j]|
    ensures |Rows(ds, r)| + |Row(ds, r, j)| < |Rows(ds, r + 1)|
  {
    RowPrefix(ds, r, j + 1, |ds|);
    assert |Row(ds, r, j + 1)| == |Row(ds, r, j)| + 1;
  }

  /** Within a concept's column easier problems stand before harder ones. */
  lemma {:induction false} EasierFirst(day: Day, tasks: seq<Task>, concept: nat, a: nat, b: nat)
    requires a < b < |day.Column(tasks, concept)|
    ensures !Easier(day.Column(tasks, concept)[b].difficulty, day.Column(tasks, concept)[a].difficulty)
  {
    ColumnIsOrdered(day, tasks, concept);
    hide Day.Column;
  }

  /** The rows of a pass come by weak concept first, weaker ones first, and by difficulty within a concept. */
  lemma {:induction false} RowsInOrder(q: Request, excludeRecent: bool, weakOnly: bool, i: nat, j: nat)
    requires |q.day.weak| < 1000 && i < j < |q.QueryRows(excludeRecent, weakOnly)|
    ensures var (t, u) := (q.QueryRows(excludeRecent, weakOnly)[i], q.QueryRows(excludeRecent, weakOnly)[j]);
            && (u.concept in q.day.weak ==>
                  exists p :: 0 <= p < |q.day.weak| && q.day.weak[p] == t.concept
                              && (u.concept == t.concept || u.concept !in q.day.weak[..p]))
            && (u.concept == t.concept ==> !Easier(u.difficulty, t.difficulty))
  {
    var weak := q.day.weak;
    SortByIsSorted(q.Filter(q.table, excludeRecent, weakOnly), (t: Task) => RowKey(weak, t));
    var rows := q.QueryRows(excludeRecent, weakOnly);
    var t, u := rows[i], rows[j];
    assert RowKey(weak, t) <= RowKey(weak, u);
    hide SortBy, Request.QueryRows, Request.Filter;
    if u.concept in weak {
      assert WeakRank(weak, t.concept) <= WeakRank(weak, u.concept);
      if WeakRank(weak, t.concept) == WeakRank(weak, u.concept) {
        SameWeakRank(weak, u.concept, t.concept);
      }
      WeakRankIsPlace(weak, t.concept, u.concept);
    }
  }
}
