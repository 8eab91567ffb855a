/**
 * The traversal behind `paint`: the painted cells of a grid as an ordered
 * list of shadow entries, walking columns x-ascending and, inside a column,
 * cells y-ascending. An entry carries the 1-based offsets `(x+1, y+1)`
 * because the painting layer sits one cell above and left of the canvas.
 */
module Render {
  import opened Optional
  import opened Grid

  /** One box-shadow entry: horizontal and vertical offset in `em`, and its colour. */
  datatype Shadow = Shadow(dx: nat, dy: nat, color: Color)

  /** `a` comes strictly before `b` in x-then-y order. */
  predicate Before(a: Shadow, b: Shadow) {
    a.dx < b.dx || (a.dx == b.dx && a.dy < b.dy)
  }

  /** Every entry comes strictly before every later one. */
  predicate Ordered(ss: seq<Shadow>) {
    forall i, j :: 0 <= i < j < |ss| ==> Before(ss[i], ss[j])
  }

  /** `s` is the entry of a painted cell of `g`: its offsets are the cell's coordinates plus one, its colour the cell's. */
  predicate Describes(s: Shadow, g: Grid) {
    s.dx >= 1 && s.dy >= 1 && At(g, s.dx - 1, s.dy - 1) == Some(s.color)
  }

  /** Entries for the first `n` cells of column `x` (the inner `forEach`). */
  function ColumnShadows(column: seq<Option<Color>>, x: nat, n: nat): seq<Shadow>
    requires n <= |column|
    decreases n
  {
    if n == 0 then []
    else
      ColumnShadows(column, x, n - 1)
      + (match column[n - 1]
         case Some(c) => [Shadow(x + 1, n, c)]
         case None => [])
  }

  /** Entries for the first `n` columns of `g` (the outer `forEach`). */
  function GridShadows(g: Grid, n: nat): seq<Shadow>
    requires n <= |g|
    decreases n
  {
    if n == 0 then [] else GridShadows(g, n - 1) + ColumnShadows(g[n - 1], n - 1, |g[n - 1]|)
  }

  /**
   * The compositing description of `g`, before it is spelled as a string:
   * an entry `(x+1, y+1, c)` exactly for the cells `(x, y)` holding `c`, in
   * strict x-then-y order, so each painted cell appears exactly once.
   */
  function Shadows(g: Grid): (ss: seq<Shadow>)
    ensures Ordered(ss)
    ensures forall s :: s in ss <==> Describes(s, g)
  {
    GridShadowsSpec(g, |g|);
    GridShadows(g, |g|)
  }

  lemma {:induction false} ColumnShadowsSpec(column: seq<Option<Color>>, x: nat, n: nat)
    requires n <= |column|
    ensures Ordered(ColumnShadows(column, x, n))
    ensures forall s :: s in ColumnShadows(column, x, n) <==>
      s.dx == x + 1 && 1 <= s.dy <= n && column[s.dy - 1] == Some(s.color)
    decreases n
  {
    if n > 0 {
      ColumnShadowsSpec(column, x, n - 1);
      var pre := ColumnShadows(column, x, n - 1);
      var last: seq<Shadow> := match column[n - 1]
        case Some(c) => [Shadow(x + 1, n, c)]
        case None => [];
      assert ColumnShadows(column, x, n) == pre + last;
      assert forall i, j :: 0 <= i < |pre| && 0 <= j < |last| ==> Before(pre[i], last[j]) by {
        forall i, j | 0 <= i < |pre| && 0 <= j < |last|
          ensures Before(pre[i], last[j])
        {
          assert pre[i] in pre;
        }
      }
      OrderedAppend(pre, last);
    }
  }

  lemma {:induction false} GridShadowsSpec(g: Grid, n: nat)
    requires n <= |g|
    ensures Ordered(GridShadows(g, n))
    ensures forall s :: s in GridShadows(g, n) <==> s.dx <= n && Describes(s, g)
    decreases n
  {
    if n > 0 {
      GridShadowsSpec(g, n - 1);
      LastColumnSpec(g, n);
      GridShadowsStep(g, n, GridShadows(g, n - 1), ColumnShadows(g[n - 1], n - 1, |g[n - 1]|));
    }
  }

  /** The entries of column `n - 1` are those of the painted cells in that column. */
  lemma LastColumnSpec(g: Grid, n: nat)
    requires 0 < n <= |g|
    ensures Ordered(ColumnShadows(g[n - 1], n - 1, |g[n - 1]|))
    ensures forall s :: s in ColumnShadows(g[n - 1], n - 1, |g[n - 1]|) <==> s.dx == n && Describes(s, g)
  {
    ColumnShadowsSpec(g[n - 1], n - 1, |g[n - 1]|);
  }

  lemma GridShadowsStep(g: Grid, n: nat, a: seq<Shadow>, b: seq<Shadow>)
    requires 0 < n <= |g|
    requires a == GridShadows(g, n - 1) && b == ColumnShadows(g[n - 1], n - 1, |g[n - 1]|)
    requires Ordered(a) && forall s :: s in a <==> s.dx <= n - 1 && Describes(s, g)
    requires Ordered(b) && forall s :: s in b <==> s.dx == n && Describes(s, g)
    ensures Ordered(GridShadows(g, n))
    ensures forall s :: s in GridShadows(g, n) <==> s.dx <= n && Describes(s, g)
  {
    assert GridShadows(g, n) == a + b;
    forall i, j | 0 <= i < |a| && 0 <= j < |b|
      ensures Before(a[i], b[j])
    {
      assert a[i] in a;
      assert b[j] in b;
    }
    OrderedAppend(a, b);
    forall s
      ensures s in a + b <==> s.dx <= n && Describes(s, g)
    {
      assert s in a + b <==> s in a || s in b;
    }
  }

  lemma OrderedAppend(a: seq<Shadow>, b: seq<Shadow>)
    requires Ordered(a) && Ordered(b)
    requires forall i, j :: 0 <= i < |a| && 0 <= j < |b| ==> Before(a[i], b[j])
    ensures Ordered(a + b)
  {
  }

  /** Two ordered lists with the same entries are the same list. */
  lemma {:induction false} OrderedUnique(a: seq<Shadow>, b: seq<Shadow>)
    requires Ordered(a) && Ordered(b)
    requires forall s :: s in a <==> s in b
    ensures a == b
    decreases |a|
  {
    assert |a| > 0 ==> a[0] in b;
    assert |b| > 0 ==> b[0] in a;
    if a != [] {
      assert a[0] == b[0] by {
        var k :| 0 <= k < |b| && b[k] == a[0];
        var m :| 0 <= m < |a| && a[m] == b[0];
        assert k != 0 ==> Before(b[0], a[0]);
        assert m != 0 ==> Before(a[0], b[0]);
      }
      forall s
        ensures s in a[1..] <==> s in b[1..]
      {
        if s in a[1..] {
          var i :| 1 <= i < |a| && a[i] == s;
          assert Before(a[0], s);
        }
        if s in b[1..] {
          var j :| 1 <= j < |b| && b[j] == s;
          assert Before(b[0], s);
        }
        assert s in a <==> s == a[0] || s in a[1..] by {
          assert a == [a[0]] + a[1..];
        }
        assert s in b <==> s == b[0] || s in b[1..] by {
          assert b == [b[0]] + b[1..];
        }
      }
      OrderedUnique(a[1..], b[1..]);
      assert a == [a[0]] + a[1..];
      assert b == [b[0]] + b[1..];
    }
  }

  /**
   * The description is the only ordered list that names exactly the painted
   * cells: any list with those two properties is it.
   */
  lemma ShadowsCharacterised(g: Grid, ss: seq<Shadow>)
    requires Ordered(ss)
    requires forall s :: s in ss <==> Describes(s, g)
    ensures Shadows(g) == ss
  {
    OrderedUnique(Shadows(g), ss);
  }

  /**
   * The description depends on the painted cells alone, and tells them
   * apart: two grids get the same description exactly when every cell
   * reads the same.
   */
  lemma ShadowsDeterminedByCells(g1: Grid, g2: Grid)
    ensures (forall x, y :: At(g1, x, y) == At(g2, x, y)) <==> Shadows(g1) == Shadows(g2)
  {
    if forall x, y :: At(g1, x, y) == At(g2, x, y) {
      forall s
        ensures s in Shadows(g1) <==> s in Shadows(g2)
      {
        if s.dx >= 1 && s.dy >= 1 {
          assert At(g1, s.dx - 1, s.dy - 1) == At(g2, s.dx - 1, s.dy - 1);
        }
      }
      OrderedUnique(Shadows(g1), Shadows(g2));
    }
    if Shadows(g1) == Shadows(g2) {
      forall x, y
        ensures At(g1, x, y) == At(g2, x, y)
      {
        if x >= 0 && y >= 0 {
          if At(g1, x, y).Some? {
            assert Describes(Shadow(x + 1, y + 1, At(g1, x, y).value), g1);
          }
          if At(g2, x, y).Some? {
            assert Describes(Shadow(x + 1, y + 1, At(g2, x, y).value), g2);
          }
        }
      }
    }
  }

  /** `paint` emits nothing exactly when no cell is painted. */
  lemma ShadowsEmptyIffUnpainted(g: Grid)
    ensures Shadows(g) == [] <==> forall x, y :: At(g, x, y) == None
  {
    var ss := Shadows(g);
    if ss == [] {
      forall x, y
        ensures At(g, x, y) == None
      {
        if x >= 0 && y >= 0 {
          var s := Shadow(x + 1, y + 1, At(g, x, y).Or(""));
          assert s !in ss;
        }
      }
    } else {
      var s := ss[0];
      assert s in ss;
      assert At(g, s.dx - 1, s.dy - 1) != None;
    }
  }
}
