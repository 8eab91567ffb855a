/**
 * The grid store ("shadow stack") of the painting engine: a column-major
 * grid indexed `[x][y]`, each cell unpainted (`None`, JavaScript's `null`)
 * or holding a colour.
 */
module Grid {
  import opened Optional

  /** A CSS colour value, kept as the opaque string the engine was given. */
  type Color = string

  /** `g[x]` is column `x`; `g[x][y]` is the cell at column `x`, row `y`. */
  type Grid = seq<seq<Option<Color>>>

  /** How many iterations `for (i = 0; i < n; i++)` performs. */
  function Clamp(n: int): nat {
    if n < 0 then 0 else n
  }

  /** The cell at `(x, y)`; a coordinate outside the stored grid reads as unpainted. */
  function At(g: Grid, x: int, y: int): Option<Color> {
    if 0 <= x < |g| && 0 <= y < |g[x]| then g[x][y] else None
  }

  /** `g` has exactly `Clamp(w)` columns, each of exactly `Clamp(h)` cells. */
  predicate Shaped(g: Grid, w: int, h: int) {
    |g| == Clamp(w) && forall x :: 0 <= x < |g| ==> |g[x]| == Clamp(h)
  }

  /** No cell of `g` holds a colour. */
  predicate Unpainted(g: Grid) {
    forall x, y :: 0 <= x < |g| && 0 <= y < |g[x]| ==> g[x][y].None?
  }

  /** The grid `initShadowStack` leaves behind, as a value. */
  function Blank(w: int, h: int): (g: Grid)
    ensures Shaped(g, w, h)
    ensures Unpainted(g)
  {
    seq(Clamp(w), _ => seq(Clamp(h), _ => None))
  }

  /** A grid with the shape of `Blank(w, h)` and nothing painted is `Blank(w, h)`. */
  lemma BlankUnique(g: Grid, w: int, h: int)
    requires Shaped(g, w, h) && Unpainted(g)
    ensures g == Blank(w, h)
  {
    var b := Blank(w, h);
    forall x | 0 <= x < |g|
      ensures g[x] == b[x]
    {
    }
  }

  /**
   * `initShadowStack`: the nested loop building `w` columns of `h` nulls each.
   */
  method InitShadowStack(w: int, h: int) returns (g: Grid)
    ensures Shaped(g, w, h)
    ensures Unpainted(g)
    ensures forall x, y :: At(g, x, y) == None
    ensures g == Blank(w, h)
  {
    g := [];
    var x := 0;
    while x < w
      invariant 0 <= x <= Clamp(w)
      invariant |g| == x
      invariant forall i :: 0 <= i < x ==> |g[i]| == Clamp(h)
      invariant forall i, j :: 0 <= i < x && 0 <= j < |g[i]| ==> g[i][j] == None
    {
      var column: seq<Option<Color>> := [];
      var y := 0;
      while y < h
        invariant 0 <= y <= Clamp(h)
        invariant |column| == y
        invariant forall j :: 0 <= j < y ==> column[j] == None
      {
        column := column + [None];
        y := y + 1;
      }
      g := g + [column];
      x := x + 1;
    }
    BlankUnique(g, w, h);
  }

  /**
   * The assignment `shadowStack[x][y] = color`. Assigning one past the end
   * of a JavaScript array appends, so `y` may equal the column's length.
   */
  function Write(g: Grid, x: nat, y: nat, c: Color): (r: Grid)
    requires x < |g| && y <= |g[x]|
    ensures |r| == |g|
    ensures forall i :: 0 <= i < |g| && i != x ==> |r[i]| == |g[i]|
    ensures |r[x]| == if y < |g[x]| then |g[x]| else |g[x]| + 1
    ensures At(r, x, y) == Some(c)
    ensures forall i, j :: (i != x || j != y) ==> At(r, i, j) == At(g, i, j)
  {
    var column := if y < |g[x]| then g[x][y := Some(c)] else g[x] + [Some(c)];
    g[x := column]
  }
}
