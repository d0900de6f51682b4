/** Products and sizes of finite sets. */
module FiniteSets {

  function Product<A, B>(xs: set<A>, ys: set<B>): set<(A, B)> {
    set i, j | i in xs && j in ys :: (i, j)
  }

  lemma {:induction false} InProduct<A, B>(xs: set<A>, ys: set<B>, p: (A, B))
    ensures p in Product(xs, ys) <==> p.0 in xs && p.1 in ys
  {
  }

  lemma {:induction false} ProductsMeet<A, B>(xs: set<A>, ys: set<B>, xs': set<A>, ys': set<B>)
    ensures Product(xs, ys) * Product(xs', ys') == Product(xs * xs', ys * ys')
    ensures Product(xs, ys) != {} <==> (xs != {} && ys != {})
  {
    if xs != {} && ys != {} {
      var x :| x in xs;
      var y :| y in ys;
      assert (x, y) in Product(xs, ys);
    }
  }

  lemma {:induction false} MeetMeansShared<T>(a: set<T>, b: set<T>)
    ensures a !! b <==> a * b == {}
  {
    if a !! b {
      assert a * b == {};
    } else {
      var x :| x in a && x in b;
      assert x in a * b;
    }
  }

  lemma {:induction false} ColumnSize<A, B>(x: A, ys: set<B>)
    ensures |Product({x}, ys)| == |ys|
  {
    if |ys| != 0 {
      var y :| y in ys;
      ColumnSize(x, ys - {y});
      assert Product({x}, ys) == Product({x}, ys - {y}) + {(x, y)};
    } else {
      assert Product({x}, ys) == {} && ys == {};
    }
  }

  lemma {:induction false} ProductSplit<A, B>(xs: set<A>, x: A, ys: set<B>)
    requires x in xs
    ensures Product(xs, ys) == Product(xs - {x}, ys) + Product({x}, ys)
    ensures Product(xs - {x}, ys) !! Product({x}, ys)
  {
  }

  lemma {:induction false} ProductSize<A, B>(xs: set<A>, ys: set<B>)
    ensures |Product(xs, ys)| == |xs| * |ys|
  {
    if |xs| != 0 {
      var x :| x in xs;
      ProductSize(xs - {x}, ys);
      ColumnSize(x, ys);
      ProductSplit(xs, x, ys);
      hide Product;
      assert |xs| * |ys| == (|xs| - 1) * |ys| + |ys|;
    } else {
      assert Product(xs, ys) == {} && xs == {};
    }
  }

  lemma {:induction false} SubsetSize<T>(a: set<T>, b: set<T>)
    requires a <= b
    ensures |a| <= |b|
  {
    assert b == a + (b - a);
  }
}
