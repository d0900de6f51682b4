/**
 The four-pass filler of app/modules/learning/proficiency.py (recommended_tasks): unseen weak tasks,
 unseen tasks, weak tasks, any task, each list in the daily order, each problem once.
 */
module Recommendation {
  import opened Common
  import opened FiniteSets
  import opened TaskOrder
  import opened RoundRobin

  /** One call: the active filters, the tasks attempted recently, the page size. */
  datatype Request = Request(
    table: seq<Task>,
    recent: set<nat>,
    domain: Option<Domain>,
    allowed: Option<set<Difficulty>>,
    day: Day,
    limit: int)
  {
    predicate Eligible(t: Task) {
      && t.active
      && (domain.Some? ==> t.domain == domain.value)
      && (allowed.Some? ==> t.difficulty in allowed.value)
    }

    predicate InPass(t: Task, excludeRecent: bool, weakOnly: bool) {
      && Eligible(t)
      && (weakOnly ==> t.concept in day.weak)
      && (excludeRecent ==> t.id !in recent)
    }

    function Filter(tasks: seq<Task>, excludeRecent: bool, weakOnly: bool): seq<Task> {
      if tasks == [] then []
      else
        (if InPass(tasks[0], excludeRecent, weakOnly) then [tasks[0]] else [])
            + Filter(tasks[1..], excludeRecent, weakOnly)
    }

    function QueryRows(excludeRecent: bool, weakOnly: bool): seq<Task> {
      OrderRows(day.weak, Filter(table, excludeRecent, weakOnly))
    }

    /** One candidate list: the rows of the pass in the daily order. */
    function Candidates(excludeRecent: bool, weakOnly: bool): seq<Task> {
      var rows := QueryRows(excludeRecent, weakOnly);
      day.Diversified(rows, |rows|)
    }

    /** Pass n; the weak passes are skipped when no concept is weak. */
    function PassList(n: nat): seq<Task>
      requires n < 4
    {
      if PASSES[n].1 && day.weak == [] then [] else Candidates(PASSES[n].0, PASSES[n].1)
    }

    /** The lists of the first n passes, one after another. */
    function Lists(n: nat): seq<Task>
      requires n <= 4
    {
      if n == 0 then [] else Lists(n - 1) + PassList(n - 1)
    }

    /** The specification: all four lists, each problem once, cut at the page size if there is one. */
    function Recommended(): seq<Task> {
      var all := Fresh(Lists(4), {});
      if limit >= 1 then Cut(all, limit) else all
    }
  }

  /** The ORDER BY key of the query: weak rank, then difficulty; both ranks are read as one number. */
  function RowKey(weak: seq<nat>, t: Task): int {
    if weak == [] then Rank(t) else WeakRank(weak, t.concept) * 10 + Rank(t)
  }

  /** Rows come in id order, so a stable sort leaves ties in id order. */
  function OrderRows(weak: seq<nat>, rows: seq<Task>): seq<Task> {
    SortBy(rows, (t: Task) => RowKey(weak, t))
  }

  /** (exclude recent, weak only), in the order tried. */
  const PASSES: seq<(bool, bool)> := [(true, true), (true, false), (false, true), (false, false)]

  lemma {:induction false} FilterElements(q: Request, tasks: seq<Task>, excludeRecent: bool, weakOnly: bool)
    ensures forall t ::
              t in q.Filter(tasks, excludeRecent, weakOnly) <==> t in tasks && q.InPass(t, excludeRecent, weakOnly)
    ensures DistinctIds(tasks) ==> DistinctIds(q.Filter(tasks, excludeRecent, weakOnly))
  {
    hide Request.InPass;
    if tasks != [] {
      FilterElements(q, tasks[1..], excludeRecent, weakOnly);
      assert forall t :: t in tasks <==> t == tasks[0] || t in tasks[1..];
      var rest := q.Filter(tasks[1..], excludeRecent, weakOnly);
      forall k | 0 <= k < |rest| && DistinctIds(tasks)
        ensures rest[k].id != tasks[0].id
      {
        assert rest[k] in tasks[1..];
      }
    }
  }

  lemma {:induction false} QueryRowsElements(q: Request, excludeRecent: bool, weakOnly: bool)
    requires DistinctIds(q.table)
    ensures var rows := q.QueryRows(excludeRecent, weakOnly);
            && DistinctIds(rows)
            && (forall t :: t in rows <==> t in q.table && q.InPass(t, excludeRecent, weakOnly))
  {
    hide Request.Filter, Request.InPass, RowKey, DistinctIds, SortBy;
    var rows := q.Filter(q.table, excludeRecent, weakOnly);
    FilterElements(q, q.table, excludeRecent, weakOnly);
    SortByIsSorted(rows, (t: Task) => RowKey(q.day.weak, t));
    SameElements(rows, q.QueryRows(excludeRecent, weakOnly));
    DistinctPermutation(rows, q.QueryRows(excludeRecent, weakOnly));
  }

  // ----- The column-major reading never repeats a task, so cutting at the row count drops nothing -----

  ghost predicate Listed(ds: seq<seq<Task>>, t: Task, r: nat) {
    exists i, k :: 0 <= i < |ds| && 0 <= k < |ds[i]| && k < r && ds[i][k] == t
  }

  lemma {:induction false} RowsAreListed(ds: seq<seq<Task>>, r: nat)
    ensures forall t :: t in Rows(ds, r) ==> Listed(ds, t, r)
  {
    hide Rows;
    forall t | t in Rows(ds, r)
      ensures Listed(ds, t, r)
    {
      var i, k := RowsFrom(ds, r, t);
    }
  }

  /** Columns that share no task and repeat none. */
  ghost predicate Apart(ds: seq<seq<Task>>) {
    && (forall i :: 0 <= i < |ds| ==> NoRepeats(ds[i]))
    && (forall i, j, a, b :: 0 <= i < |ds| && 0 <= j < |ds| && i != j && 0 <= a < |ds[i]| && 0 <= b < |ds[j]| ==>
        ds[i][a] != ds[j][b])
  }

  lemma {:induction false} RowNoRepeats(ds: seq<seq<Task>>, r: nat, j: nat)
    requires Apart(ds) && j <= |ds|
    ensures NoRepeats(Row(ds, r, j))
  {
    if j > 0 {
      RowNoRepeats(ds, r, j - 1);
      var row := Row(ds, r, j - 1);
      forall x | 0 <= x < |row| && r < |ds[j - 1]|
        ensures row[x] != ds[j - 1][r]
      {
        var i := RowFrom(ds, r, j - 1, row[x]);
      }
    }
  }

  lemma {:induction false} RowsNoRepeats(ds: seq<seq<Task>>, r: nat)
    requires Apart(ds)
    ensures NoRepeats(Rows(ds, r))
  {
    if r > 0 {
      RowsNoRepeats(ds, r - 1);
      RowNoRepeats(ds, r - 1, |ds|);
      var a, b := Rows(ds, r - 1), Row(ds, r - 1, |ds|);
      forall x, y | 0 <= x < |a| && 0 <= y < |b|
        ensures a[x] != b[y]
      {
        RowsAreListed(ds, r - 1);
        assert a[x] in a && b[y] in b;
        var i := RowFrom(ds, r - 1, |ds|, b[y]);
        ListedEarlier(ds, a[x], b[y], r - 1);
      }
    }
  }

  lemma {:induction false} ListedEarlier(ds: seq<seq<Task>>, t: Task, u: Task, r: nat)
    requires Apart(ds) && Listed(ds, t, r)
    requires exists i :: 0 <= i < |ds| && r < |ds[i]| && ds[i][r] == u
    ensures t != u
  {
  }

  lemma {:induction false} ColumnsApart(day: Day, tasks: seq<Task>)
    requires DistinctIds(tasks)
    ensures Apart(day.Columns(tasks))
  {
    var ds, order := day.Columns(tasks), day.ConceptOrder(tasks);
    hide Day.ConceptOrder, Day.Column, DistinctIds, KeyOf;
    ConceptOrderIsDistinct(day, tasks);
    forall i | 0 <= i < |ds|
      ensures NoRepeats(ds[i])
    {
      ColumnIsOrdered(day, tasks, order[i]);
    }
    forall i, j, a, b | 0 <= i < |ds| && 0 <= j < |ds| && i != j && 0 <= a < |ds[i]| && 0 <= b < |ds[j]|
      ensures ds[i][a] != ds[j][b]
    {
      ColumnOfConcept(day, tasks, i);
      ColumnOfConcept(day, tasks, j);
      assert ds[i][a] in ds[i] && ds[j][b] in ds[j];
      assert order[i] != order[j];
    }
  }

  lemma {:induction false} NoLongerThan(s: seq<Task>, rows: seq<Task>)
    requires NoRepeats(s) && forall t :: t in s ==> t in rows
    ensures |s| <= |rows|
  {
    DistinctCount(s);
    DistinctCount(rows);
    SubsetSize(set t | t in s, set t | t in rows);
  }

  /** A candidate list poses exactly the problems of its pass. */
  lemma {:induction false} CandidatesCover(q: Request, excludeRecent: bool, weakOnly: bool)
    requires DistinctIds(q.table)
    ensures var rows := q.QueryRows(excludeRecent, weakOnly);
            q.Candidates(excludeRecent, weakOnly) == ColumnMajor(q.day.Columns(rows))
    ensures forall t :: t in q.Candidates(excludeRecent, weakOnly) ==>
            t in q.table && q.InPass(t, excludeRecent, weakOnly)
    ensures forall t :: t in q.table && q.InPass(t, excludeRecent, weakOnly)
                    ==> KeyOf(t) in Keys(q.Candidates(excludeRecent, weakOnly))
  {
    hide Request.QueryRows, Request.InPass, Day.Columns, DistinctIds, ColumnMajor, KeyOf, Keys;
    var rows := q.QueryRows(excludeRecent, weakOnly);
    QueryRowsElements(q, excludeRecent, weakOnly);
    ColumnsApart(q.day, rows);
    ReadingNoRepeats(q.day.Columns(rows));
    DiversifiedFrom(q.day, rows);
    NoLongerThan(ColumnMajor(q.day.Columns(rows)), rows);
    forall t | t in q.table && q.InPass(t, excludeRecent, weakOnly)
      ensures KeyOf(t) in Keys(ColumnMajor(q.day.Columns(rows)))
    {
      DiversifiedCovers(q.day, rows, t);
    }
  }

  lemma {:induction false} ReadingNoRepeats(ds: seq<seq<Task>>)
    requires Apart(ds)
    ensures NoRepeats(ColumnMajor(ds))
  {
    RowsNoRepeats(ds, Longest(ds));
  }

  // ----- The filler loop -----

  lemma {:induction false} FreshSnoc(tasks: seq<Task>, t: Task, seen: set<ProblemKey>)
    ensures Fresh(tasks + [t], seen) == Fresh(tasks, seen) + (if KeyOf(t) in seen + Keys(tasks) then [] else [t])
  {
    hide KeyOf;
    if tasks == [] {
      assert tasks + [t] == [t];
    } else {
      var rest := tasks[1..];
      assert (tasks + [t])[1..] == rest + [t];
      assert tasks == [tasks[0]] + rest;
      KeysCons(tasks[0], rest);
      FreshSnoc(rest, t, if KeyOf(tasks[0]) in seen then seen else seen + {KeyOf(tasks[0])});
    }
  }

  lemma {:induction false} FreshPrefix(a: seq<Task>, b: seq<Task>)
    ensures Fresh(a, {}) <= Fresh(a + b, {})
  {
    if b == [] {
      assert a + b == a;
    } else {
      var init, last := b[..|b| - 1], b[|b| - 1];
      FreshPrefix(a, init);
      assert a + b == (a + init) + [last];
      FreshSnoc(a + init, last, {});
    }
  }

  /** What the filler remembers: the page so far, its ids and its problems. */
  ghost predicate Filled(done: seq<Task>, selected: seq<Task>, ids: set<nat>, keys: set<ProblemKey>) {
    && selected == Fresh(done, {})
    && ids == (set t | t in selected :: t.id)
    && keys == Keys(selected)
  }

  /** Skipping on a known id or a known problem is the same as skipping on a known problem. */
  lemma {:induction false} FilledStep(table: seq<Task>, done: seq<Task>, selected: seq<Task>, ids: set<nat>,
                                      keys: set<ProblemKey>, t: Task)
    requires DistinctIds(table) && t in table && (forall u :: u in done ==> u in table)
    requires Filled(done, selected, ids, keys)
    ensures t.id in ids || KeyOf(t) in keys ==> Filled(done + [t], selected, ids, keys)
    ensures !(t.id in ids || KeyOf(t) in keys) ==> Filled(done + [t], selected + [t], ids + {t.id}, keys + {KeyOf(t)})
  {
    hide KeyOf, Fresh;
    FreshIsDistinct(done, {});
    FreshSnoc(done, t, {});
    assert Keys(done) == keys;
    if t.id in ids {
      var u :| u in selected && u.id == t.id;
      SameIdSameTask(table, t, u);
    }
    KeysSnoc(selected, t);
    assert (set u | u in selected + [t] :: u.id) == ids + {t.id};
  }

  lemma {:induction false} SameIdSameTask(table: seq<Task>, t: Task, u: Task)
    requires DistinctIds(table) && t in table && u in table && t.id == u.id
    ensures t == u
  {
  }

  lemma {:induction false} KeysSnoc(tasks: seq<Task>, t: Task)
    ensures Keys(tasks + [t]) == Keys(tasks) + {KeyOf(t)}
  {
  }

  /** Go through one candidate list; stop when the page is full. */
  method FillFrom(candidates: seq<Task>, before: seq<Task>, idsBefore: set<nat>, keysBefore: set<ProblemKey>,
                  limit: int, ghost table: seq<Task>, ghost done: seq<Task>)
    returns (selected: seq<Task>, ids: set<nat>, keys: set<ProblemKey>)
    requires DistinctIds(table) && (forall t :: t in candidates ==> t in table)
    requires (forall t :: t in done ==> t in table)
    requires Filled(done, before, idsBefore, keysBefore) && (limit >= 1 ==> |before| < limit)
    ensures if limit >= 1 && |selected| == limit then selected <= Fresh(done + candidates, {})
            else Filled(done + candidates, selected, ids, keys) && (limit >= 1 ==> |selected| < limit)
  {
    hide KeyOf, Fresh, DistinctIds, Filled;
    selected, ids, keys := before, idsBefore, keysBefore;
    assert done + candidates[..0] == done;
    for k := 0 to |candidates|
      invariant Filled(done + candidates[..k], selected, ids, keys)
      invariant limit >= 1 ==> |selected| < limit
    {
      var task := candidates[k];
      FilledStep(table, done + candidates[..k], selected, ids, keys, task);
      assert (done + candidates[..k]) + [task] == done + candidates[..k + 1];
      var key := KeyOf(task);
      if !(task.id in ids || key in keys) {
        selected := selected + [task];
        ids := ids + {task.id};
        keys := keys + {key};
        if |selected| == limit {
          FullPage(done, candidates, k + 1, selected, ids, keys);
          return;
        }
      }
    }
    assert candidates[..|candidates|] == candidates;
  }

  lemma {:induction false} FullPage(done: seq<Task>, candidates: seq<Task>, k: nat, selected: seq<Task>, ids: set<nat>,
                                    keys: set<ProblemKey>)
    requires k <= |candidates| && Filled(done + candidates[..k], selected, ids, keys)
    ensures selected <= Fresh(done + candidates, {})
  {
    hide Fresh, Keys;
    assert done + candidates == (done + candidates[..k]) + candidates[k..];
    FreshPrefix(done + candidates[..k], candidates[k..]);
  }

  /** The page filled from the four lists, as the loops build it. */
  method RecommendedTasks(q: Request) returns (selected: seq<Task>)
    requires DistinctIds(q.table)
    ensures selected == q.Recommended()
  {
    hide *;
    selected := [];
    var ids: set<nat>, keys: set<ProblemKey> := {}, {};
    FilledStart(q);
    for n := 0 to 4
      invariant Filled(q.Lists(n), selected, ids, keys)
      invariant q.limit >= 1 ==> |selected| < q.limit
    {
      ListsStep(q, n);
      if PASSES[n].1 && q.day.weak == [] {
        continue;
      }
      var rows := q.QueryRows(PASSES[n].0, PASSES[n].1);
      QueryRowsElements(q, PASSES[n].0, PASSES[n].1);
      var candidates := DiversifyDailyTasks(rows, q.day, |rows|);
      selected, ids, keys := FillFrom(candidates, selected, ids, keys, q.limit, q.table, q.Lists(n));
      if q.limit >= 1 && |selected| == q.limit {
        PageOfLists(q, n + 1, selected);
        return;
      }
    }
    AllPassesDone(q, selected, ids, keys);
  }

  lemma {:induction false} FilledStart(q: Request)
    ensures |PASSES| == 4 && Filled(q.Lists(0), [], {}, {})
  {
  }

  lemma {:induction false} PassElements(q: Request, n: nat)
    requires DistinctIds(q.table) && n < 4
    ensures forall t :: t in q.PassList(n) ==> t in q.table && q.Eligible(t)
  {
    hide Request.Candidates, DistinctIds, KeyOf, Keys;
    CandidatesCover(q, PASSES[n].0, PASSES[n].1);
  }

  lemma {:induction false} ListsElements(q: Request, n: nat)
    requires DistinctIds(q.table) && n <= 4
    ensures forall t :: t in q.Lists(n) ==> t in q.table && q.Eligible(t)
  {
    hide Request.PassList, DistinctIds, Request.Eligible;
    if n > 0 {
      ListsElements(q, n - 1);
      PassElements(q, n - 1);
    }
  }

  /** What pass n contributes, and that only table rows are ever listed. */
  lemma {:induction false} ListsStep(q: Request, n: nat)
    requires DistinctIds(q.table) && n < 4
    ensures forall t :: t in q.Lists(n) ==> t in q.table
    ensures if PASSES[n].1 && q.day.weak == [] then q.Lists(n + 1) == q.Lists(n)
            else var rows := q.QueryRows(PASSES[n].0, PASSES[n].1);
              var candidates := q.day.Diversified(rows, |rows|);
              q.Lists(n + 1) == q.Lists(n) + candidates && forall t :: t in candidates ==> t in q.table
  {
    hide Request.QueryRows, Day.Diversified, DistinctIds, Request.Eligible;
    ListsElements(q, n);
    PassElements(q, n);
  }

  lemma {:induction false} ListsPrefix(q: Request, n: nat)
    requires n <= 4
    ensures Fresh(q.Lists(n), {}) <= Fresh(q.Lists(4), {})
    decreases 4 - n
  {
    hide Fresh, Request.PassList;
    if n < 4 {
      ListsPrefix(q, n + 1);
      FreshPrefix(q.Lists(n), q.PassList(n));
    }
  }

  lemma {:induction false} PageOfLists(q: Request, n: nat, selected: seq<Task>)
    requires n <= 4 && q.limit >= 1 && |selected| == q.limit && selected <= Fresh(q.Lists(n), {})
    ensures selected == q.Recommended()
  {
    hide Fresh, Request.Lists;
    ListsPrefix(q, n);
  }

  lemma {:induction false} AllPassesDone(q: Request, selected: seq<Task>, ids: set<nat>, keys: set<ProblemKey>)
    requires Filled(q.Lists(4), selected, ids, keys) && (q.limit >= 1 ==> |selected| < q.limit)
    ensures selected == q.Recommended()
  {
    hide Fresh, Request.Lists, Keys;
  }

  // ----- What a page guarantees -----

  lemma {:induction false} RecommendedFromAll(q: Request)
    ensures q.Recommended() <= Fresh(q.Lists(4), {})
    ensures q.limit < 1 || |q.Recommended()| < q.limit ==> q.Recommended() == Fresh(q.Lists(4), {})
    ensures q.limit >= 1 ==> |q.Recommended()| <= q.limit
  {
  }

  /** A page never poses one problem twice and only holds tasks the learner may get. */
  lemma {:induction false} PageIsDistinct(q: Request)
    requires DistinctIds(q.table)
    ensures forall a, b :: 0 <= a < b < |q.Recommended()| ==> KeyOf(q.Recommended()[a]) != KeyOf(q.Recommended()[b])
    ensures forall t :: t in q.Recommended() ==> t in q.table && q.Eligible(t)
  {
    hide Fresh, Request.Lists, KeyOf, Request.Recommended, Request.Eligible, Keys;
    RecommendedFromAll(q);
    FreshIsDistinct(q.Lists(4), {});
    ListsElements(q, 4);
  }

  /** A larger page extends a smaller one. */
  lemma {:induction false} LargerPageExtends(q: Request, larger: Request)
    requires 1 <= q.limit <= larger.limit && larger == q.(limit := larger.limit)
    ensures q.Recommended() <= larger.Recommended()
  {
    hide Fresh;
    assert q.Lists(4) == larger.Lists(4) by {
      ListsIgnoreLimit(q, larger.limit, 4);
    }
    hide Request.Lists;
  }

  lemma {:induction false} ListsIgnoreLimit(q: Request, limit: int, n: nat)
    requires n <= 4
    ensures q.Lists(n) == q.(limit := limit).Lists(n)
  {
    hide Day.Diversified, OrderRows;
    if n > 0 {
      ListsIgnoreLimit(q, limit, n - 1);
      FilterIgnoresLimit(q, limit, q.table, PASSES[n - 1].0, PASSES[n - 1].1);
    }
  }

  lemma {:induction false} FilterIgnoresLimit(q: Request, limit: int, tasks: seq<Task>, excludeRecent: bool,
                                              weakOnly: bool)
    ensures q.Filter(tasks, excludeRecent, weakOnly) == q.(limit := limit).Filter(tasks, excludeRecent, weakOnly)
  {
    if tasks != [] {
      FilterIgnoresLimit(q, limit, tasks[1..], excludeRecent, weakOnly);
    }
  }

  /** A page shorter than asked for, or asked for without a positive size, poses every eligible problem. */
  lemma {:induction false} ShortPageCovers(q: Request, t: Task)
    requires DistinctIds(q.table) && t in q.table && q.Eligible(t)
    requires q.limit < 1 || |q.Recommended()| < q.limit
    ensures KeyOf(t) in Keys(q.Recommended())
  {
    hide Fresh, KeyOf, Request.Recommended, DistinctIds, Request.Candidates, Keys, Request.Eligible;
    RecommendedFromAll(q);
    CandidatesCover(q, false, false);
    assert q.InPass(t, false, false);
    assert q.PassList(3) == q.Candidates(false, false);
    KeysJoin(q.Lists(3), q.PassList(3));
    FreshKeepsKeys(q.Lists(4));
  }

  /** A page stays within its limit exactly when the limit is positive, or there is nothing to recommend. */
  lemma {:induction false} PageWithinLimit(q: Request)
    requires DistinctIds(q.table)
    ensures |q.Recommended()| <= Max(0, q.limit) <==> (q.limit >= 1 || forall t :: t in q.table ==> !q.Eligible(t))
  {
    RecommendedFromAll(q);
    PageIsDistinct(q);
    hide Request.Recommended, Request.Eligible, Fresh, Request.Lists, DistinctIds, Keys, KeyOf;
    var page := q.Recommended();
    if q.limit < 1 {
      if t :| t in q.table && q.Eligible(t) {
        ShortPageCovers(q, t);
        NoKeysOfNothing(page);
      }
      if page != [] {
        assert page[0] in q.table && q.Eligible(page[0]);
      }
    }
  }

  lemma {:induction false} NoKeysOfNothing(tasks: seq<Task>)
    ensures tasks == [] ==> Keys(tasks) == {}
  {
  }

  lemma {:induction false} FreshKeepsKeys(tasks: seq<Task>)
    ensures Keys(Fresh(tasks, {})) == Keys(tasks)
  {
    hide KeyOf, Fresh;
    FreshIsDistinct(tasks, {});
  }

  lemma {:induction false} KeysJoin(a: seq<Task>, b: seq<Task>)
    ensures Keys(a + b) == Keys(a) + Keys(b)
  {
  }
}
