/**
 Rectangles on the room grid and the sets of cells they cover, after _ensure_placement_free in
 app/modules/housing/service.py.
 */
module Grid {
  import opened FiniteSets

  const GRID_WIDTH: int := 10
  const GRID_HEIGHT: int := 8

  /** Coordinates are floating point numbers in the source; only whole ones are accepted on the grid. */
  datatype Rect = Rect(x: real, y: real, width: nat, height: nat)

  predicate IsWhole(r: real) {
    r.Floor as real == r
  }

  predicate InsideRoom(r: Rect) {
    r.x >= 0.0 && r.y >= 0.0 && r.x + r.width as real <= GRID_WIDTH as real
        && r.y + r.height as real <= GRID_HEIGHT as real
  }

  /** The comparison the service makes. */
  predicate Overlaps(a: Rect, b: Rect) {
    && a.x < b.x + b.width as real
    && a.x + a.width as real > b.x
    && a.y < b.y + b.height as real
    && a.y + a.height as real > b.y
  }

  /** On the grid: whole coordinates, inside the room, not empty. */
  predicate OnGrid(r: Rect) {
    IsWhole(r.x) && IsWhole(r.y) && InsideRoom(r) && r.width >= 1 && r.height >= 1
  }

  function Span(start: int, length: nat): set<int> {
    if length == 0 then {} else Span(start, length - 1) + {start + length - 1}
  }

  /** The grid cells a rectangle covers. */
  function Cells(r: Rect): set<(int, int)> {
    Product(Span(r.x.Floor, r.width), Span(r.y.Floor, r.height))
  }

  function Room(): set<(int, int)> {
    Cells(Rect(0.0, 0.0, GRID_WIDTH, GRID_HEIGHT))
  }

  lemma {:induction false} InSpan(start: int, length: nat, i: int)
    ensures i in Span(start, length) <==> start <= i < start + length
  {
    if length > 0 {
      InSpan(start, length - 1, i);
    }
  }

  lemma {:induction false} InCells(r: Rect, i: int, j: int)
    ensures (i, j) in Cells(r) <==> r.x.Floor <= i < r.x.Floor + r.width && r.y.Floor <= j < r.y.Floor + r.height
  {
    InSpan(r.x.Floor, r.width, i);
    InSpan(r.y.Floor, r.height, j);
    hide Span;
  }

  /** Two half-open intervals meet exactly when each starts before the other ends. */
  lemma {:induction false} SpansMeet(a: int, m: nat, b: int, n: nat)
    requires m >= 1 && n >= 1
    ensures Span(a, m) * Span(b, n) != {} <==> (a < b + n && a + m > b)
  {
    var later := if a >= b then a else b;
    InSpan(a, m, later);
    InSpan(b, n, later);
    if a < b + n && a + m > b {
      assert later in Span(a, m) * Span(b, n);
    } else {
      forall i | i in Span(a, m)
        ensures i !in Span(b, n)
      {
        InSpan(a, m, i);
        InSpan(b, n, i);
      }
    }
  }

  /** The four comparisons hold exactly when the two rectangles share a cell. */
  lemma {:induction false} OverlapIffSharedCell(a: Rect, b: Rect)
    requires OnGrid(a) && OnGrid(b)
    ensures Overlaps(a, b) <==> Cells(a) * Cells(b) != {}
    ensures Overlaps(a, b) <==> !(Cells(a) !! Cells(b))
  {
    SpansMeet(a.x.Floor, a.width, b.x.Floor, b.width);
    SpansMeet(a.y.Floor, a.height, b.y.Floor, b.height);
    var xs, ys := Span(a.x.Floor, a.width), Span(a.y.Floor, a.height);
    var xs', ys' := Span(b.x.Floor, b.width), Span(b.y.Floor, b.height);
    hide Product, Span;
    ProductsMeet(xs, ys, xs', ys');
    ProductsMeet(xs * xs', ys * ys', {}, {});
    MeetMeansShared(Cells(a), Cells(b));
  }

  lemma {:induction false} CellsInRoom(r: Rect)
    requires OnGrid(r)
    ensures Cells(r) <= Room()
  {
    forall c | c in Cells(r)
      ensures c in Room()
    {
      InCells(r, c.0, c.1);
      InCells(Rect(0.0, 0.0, GRID_WIDTH, GRID_HEIGHT), c.0, c.1);
    }
  }

  lemma {:induction false} SpanSize(start: int, length: nat)
    ensures |Span(start, length)| == length
  {
    if length > 0 {
      SpanSize(start, length - 1);
      InSpan(start, length - 1, start + length - 1);
    }
  }

  lemma {:induction false} CellsSize(r: Rect)
    ensures |Cells(r)| == r.width * r.height
  {
    SpanSize(r.x.Floor, r.width);
    SpanSize(r.y.Floor, r.height);
    ProductSize(Span(r.x.Floor, r.width), Span(r.y.Floor, r.height));
  }

  // ----- Disjoint rectangles -----

  ghost predicate Disjoint(rects: seq<Rect>) {
    forall i, j :: 0 <= i < j < |rects| ==> Cells(rects[i]) !! Cells(rects[j])
  }

  function TotalArea(rects: seq<Rect>): nat {
    if rects == [] then 0 else TotalArea(rects[1..]) + rects[0].width * rects[0].height
  }

  function Covered(rects: seq<Rect>): set<(int, int)> {
    if rects == [] then {} else Covered(rects[1..]) + Cells(rects[0])
  }

  lemma {:induction false} CoveredBy(rects: seq<Rect>, c: (int, int))
    ensures c in Covered(rects) <==> exists i :: 0 <= i < |rects| && c in Cells(rects[i])
  {
    hide Cells;
    if rects != [] {
      CoveredBy(rects[1..], c);
      if i :| 0 <= i < |rects| && c in Cells(rects[i]) {
        assert i > 0 ==> rects[1..][i - 1] == rects[i];
      }
      if c in Covered(rects[1..]) {
        var i :| 0 <= i < |rects[1..]| && c in Cells(rects[1..][i]);
        assert rects[i + 1] == rects[1..][i];
      }
    }
  }

  lemma {:induction false} AreaIsCovered(rects: seq<Rect>)
    requires Disjoint(rects)
    ensures |Covered(rects)| == TotalArea(rects)
  {
    hide Cells;
    if rects != [] {
      AreaIsCovered(rects[1..]);
      CellsSize(rects[0]);
      forall c | c in Covered(rects[1..])
        ensures c !in Cells(rects[0])
      {
        CoveredBy(rects[1..], c);
        var i :| 0 <= i < |rects[1..]| && c in Cells(rects[1..][i]);
        assert rects[i + 1] == rects[1..][i];
      }
    }
  }

  /** Disjoint rectangles on the grid never take more than its 80 cells. */
  lemma {:induction false} AreaFits(rects: seq<Rect>)
    requires Disjoint(rects) && forall i :: 0 <= i < |rects| ==> OnGrid(rects[i])
    ensures TotalArea(rects) <= 80
  {
    AreaIsCovered(rects);
    forall c | c in Covered(rects)
      ensures c in Room()
    {
      CoveredBy(rects, c);
      var i :| 0 <= i < |rects| && c in Cells(rects[i]);
      CellsInRoom(rects[i]);
    }
    SubsetSize(Covered(rects), Room());
    CellsSize(Rect(0.0, 0.0, GRID_WIDTH, GRID_HEIGHT));
  }
}
