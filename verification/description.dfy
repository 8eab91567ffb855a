/**
 * The string `paint` hands to the painting layer as its `box-shadow`: one
 * `"<x+1>em <y+1>em <color>"` entry per painted cell, joined by commas, or
 * the empty string when nothing is painted. Also a reader for that string,
 * which recovers the entries whenever no colour contains a comma.
 */
module Description {
  import opened Optional
  import opened Decimal
  import opened Grid
  import opened Render

  /**
   * The source's `(x + 1) + 'em ' + (y + 1) + 'em ' + color`: the entry ends
   * with the colour, and no comma appears before it, so a comma in an entry
   * can only come from its colour.
   */
  function Entry(s: Shadow): (r: string)
    ensures |r| > |s.color| && r[|r| - |s.color|..] == s.color
    ensures NoComma(r[..|r| - |s.color|])
  {
    var a := NatToString(s.dx);
    var b := NatToString(s.dy);
    var r := a + "em " + b + "em " + s.color;
    assert r[..|r| - |s.color|] == a + "em " + b + "em ";
    assert forall i :: 0 <= i < |a| ==> IsDigit(a[i]);
    assert forall i :: 0 <= i < |b| ==> IsDigit(b[i]);
    r
  }

  function Entries(ss: seq<Shadow>): seq<string> {
    seq(|ss|, i requires 0 <= i < |ss| => Entry(ss[i]))
  }

  /**
   * `Array.prototype.join(',')`. Cutting the result at its commas gives the
   * parts back, provided there is at least one part and none holds a comma.
   */
  function Join(parts: seq<string>): (r: string)
    ensures |parts| > 0 && (forall i :: 0 <= i < |parts| ==> NoComma(parts[i])) ==> Split(r) == parts
    decreases |parts|
  {
    if |parts| == 0 then ""
    else if |parts| == 1 then
      assert NoComma(parts[0]) ==> Split(parts[0]) == parts by {
        if NoComma(parts[0]) {
          SplitNoComma(parts[0]);
        }
      }
      parts[0]
    else
      var t := Join(parts[1..]);
      assert (forall i :: 0 <= i < |parts| ==> NoComma(parts[i])) ==> Split(parts[0] + "," + t) == parts by {
        if forall i :: 0 <= i < |parts| ==> NoComma(parts[i]) {
          assert forall i :: 0 <= i < |parts[1..]| ==> NoComma(parts[1..][i]) by {
            forall i | 0 <= i < |parts[1..]|
              ensures NoComma(parts[1..][i])
            {
              assert parts[1..][i] == parts[i + 1];
            }
          }
          SplitCons(parts[0], t);
          assert parts == [parts[0]] + parts[1..];
        }
      }
      parts[0] + "," + t
  }

  lemma SplitNoComma(p: string)
    requires NoComma(p)
    ensures Split(p) == [p]
  {
    FirstCommaOfConcat(p, "");
    assert p + "" == p;
  }

  /** A comma-free part, a comma, then the rest: the cut falls after the part. */
  lemma SplitCons(p: string, t: string)
    requires NoComma(p)
    ensures Split(p + "," + t) == [p] + Split(t)
  {
    assert p + "," + t == p + ("," + t);
    FirstCommaOfConcat(p, "," + t);
    assert (p + ("," + t))[..|p|] == p;
    assert (p + ("," + t))[|p| + 1..] == t;
  }

  /** `shadows.length > 0 ? shadows.join(',') : ''`: empty exactly when there are no entries. */
  function Describe(ss: seq<Shadow>): (r: string)
    ensures r == "" <==> ss == []
  {
    if |ss| > 0 then
      var parts := Entries(ss);
      assert |parts[0]| > 0;
      assert |parts| > 1 ==> Join(parts) == parts[0] + "," + Join(parts[1..]);
      Join(parts)
    else ""
  }

  predicate NoComma(s: string) {
    forall i :: 0 <= i < |s| ==> s[i] != ','
  }

  /** Index of the first comma in `s`, or `|s|` when there is none. */
  function FirstComma(s: string): (k: nat)
    ensures k <= |s|
    ensures NoComma(s[..k])
    ensures k < |s| ==> s[k] == ','
    decreases |s|
  {
    if s == [] || s[0] == ',' then 0 else 1 + FirstComma(s[1..])
  }

  /** Cut `s` at every comma. */
  function Split(s: string): seq<string>
    decreases |s|
  {
    var k := FirstComma(s);
    if k == |s| then [s] else [s[..k]] + Split(s[k + 1..])
  }

  predicate StartsWithEm(t: string) {
    |t| >= 3 && t[..3] == "em "
  }

  /** Reads one entry back: digits, `em `, digits, `em `, then the colour. */
  function ParseEntry(e: string): Option<Shadow> {
    var k := LeadingDigits(e);
    if k == 0 || !StartsWithEm(e[k..]) then None
    else
      var rest := e[k + 3..];
      var k2 := LeadingDigits(rest);
      if k2 == 0 || !StartsWithEm(rest[k2..]) then None
      else Some(Shadow(DigitsValue(e[..k]), DigitsValue(rest[..k2]), rest[k2 + 3..]))
  }

  function ParseEntries(parts: seq<string>): Option<seq<Shadow>>
    decreases |parts|
  {
    if parts == [] then Some([])
    else
      match (ParseEntry(parts[0]), ParseEntries(parts[1..]))
      case (Some(s), Some(rest)) => Some([s] + rest)
      case _ => None
  }

  /** Reads a whole description back into its entries. */
  function ParseDescription(d: string): Option<seq<Shadow>> {
    if d == "" then Some([]) else ParseEntries(Split(d))
  }

  /** A digit field followed by `em `: the reader finds the field and skips the unit. */
  lemma ReadField(a: string, t: string)
    requires |a| > 0 && AllDigits(a)
    ensures LeadingDigits(a + "em " + t) == |a|
    ensures (a + "em " + t)[..|a|] == a
    ensures StartsWithEm((a + "em " + t)[|a|..])
    ensures (a + "em " + t)[|a| + 3..] == t
  {
    var e := a + "em " + t;
    assert e == a + ("em " + t);
    LeadingDigitsOfConcat(a, "em " + t);
    assert e[|a|..] == "em " + t;
    assert e[|a|..][..3] == "em ";
  }

  /** Reading an entry back recovers its offsets and its colour, whatever the colour. */
  lemma EntryRoundTrip(s: Shadow)
    ensures ParseEntry(Entry(s)) == Some(s)
  {
    var a := NatToString(s.dx);
    var b := NatToString(s.dy);
    var tail := b + "em " + s.color;
    assert Entry(s) == a + "em " + tail;
    ReadField(a, tail);
    ReadField(b, s.color);
    DigitsValueOfNatToString(s.dx);
    DigitsValueOfNatToString(s.dy);
  }

  lemma {:induction false} FirstCommaOfConcat(p: string, t: string)
    requires NoComma(p)
    requires t == [] || t[0] == ','
    ensures FirstComma(p + t) == |p|
    decreases |p|
  {
    if p != [] {
      assert (p + t)[1..] == p[1..] + t;
      FirstCommaOfConcat(p[1..], t);
    } else {
      assert p + t == t;
    }
  }

  lemma {:induction false} ParseEntriesOfEntries(ss: seq<Shadow>)
    ensures ParseEntries(Entries(ss)) == Some(ss)
    decreases |ss|
  {
    if ss != [] {
      var parts := Entries(ss);
      assert parts == [Entry(ss[0])] + Entries(ss[1..]);
      EntryRoundTrip(ss[0]);
      ParseEntriesOfEntries(ss[1..]);
      ParseEntriesCons(Entry(ss[0]), Entries(ss[1..]), ss[0], ss[1..]);
      assert ss == [ss[0]] + ss[1..];
    }
  }

  lemma ParseEntriesCons(part: string, parts: seq<string>, s: Shadow, ss: seq<Shadow>)
    requires ParseEntry(part) == Some(s) && ParseEntries(parts) == Some(ss)
    ensures ParseEntries([part] + parts) == Some([s] + ss)
  {
    assert ([part] + parts)[1..] == parts;
  }

  /**
   * Reading a description back yields exactly the entries it was written
   * from, provided no colour contains a comma (a colour such as
   * `rgb(1,2,3)` would be cut apart).
   */
  lemma DescriptionRoundTrip(ss: seq<Shadow>)
    requires forall i :: 0 <= i < |ss| ==> NoComma(ss[i].color)
    ensures ParseDescription(Describe(ss)) == Some(ss)
  {
    if ss != [] {
      var parts := Entries(ss);
      forall i | 0 <= i < |parts|
        ensures NoComma(parts[i])
      {
        var e := Entry(ss[i]);
        assert e == e[..|e| - |ss[i].color|] + e[|e| - |ss[i].color|..];
      }
      ParseEntriesOfEntries(ss);
    }
  }

  lemma EntriesSnoc(ss: seq<Shadow>, s: Shadow)
    ensures Entries(ss + [s]) == Entries(ss) + [Entry(s)]
  {
  }

  /**
   * `paint`: walks the grid x-outer, y-inner, pushes one entry per non-null
   * cell, then joins the entries with commas (or yields `''` for none).
   */
  method Paint(g: Grid) returns (css: string)
    ensures css == Describe(Shadows(g))
  {
    var shadows: seq<string> := [];
    var x := 0;
    while x < |g|
      invariant 0 <= x <= |g|
      invariant shadows == Entries(GridShadows(g, x))
    {
      var column := g[x];
      var y := 0;
      while y < |column|
        invariant 0 <= y <= |column|
        invariant shadows == Entries(GridShadows(g, x) + ColumnShadows(column, x, y))
      {
        var prefix := GridShadows(g, x) + ColumnShadows(column, x, y);
        match column[y] {
          case Some(c) =>
            EntriesSnoc(prefix, Shadow(x + 1, y + 1, c));
            assert prefix + [Shadow(x + 1, y + 1, c)]
              == GridShadows(g, x) + ColumnShadows(column, x, y + 1);
            shadows := shadows + [Entry(Shadow(x + 1, y + 1, c))];
          case None =>
            assert ColumnShadows(column, x, y + 1) == ColumnShadows(column, x, y) + [];
        }
        y := y + 1;
      }
      x := x + 1;
    }
    css := if |shadows| > 0 then Join(shadows) else "";
  }

  /** The painted output is empty exactly when no cell of the grid holds a colour. */
  lemma PaintEmptyIffUnpainted(g: Grid)
    ensures Describe(Shadows(g)) == "" <==> forall x, y :: At(g, x, y) == None
  {
    ShadowsEmptyIffUnpainted(g);
  }

  /** Every colour stored in `g` is free of commas. */
  predicate CommaFreeColors(g: Grid) {
    forall x, y :: 0 <= x < |g| && 0 <= y < |g[x]| && g[x][y].Some? ==> NoComma(g[x][y].value)
  }

  lemma ShadowColorsCommaFree(g: Grid)
    requires CommaFreeColors(g)
    ensures forall i :: 0 <= i < |Shadows(g)| ==> NoComma(Shadows(g)[i].color)
  {
    forall i | 0 <= i < |Shadows(g)|
      ensures NoComma(Shadows(g)[i].color)
    {
      var s := Shadows(g)[i];
      assert s in Shadows(g);
      assert At(g, s.dx - 1, s.dy - 1) == Some(s.color);
    }
  }

  /**
   * With comma-free colours, the painted string identifies the grid's
   * cells: two grids produce the same string exactly when every cell reads
   * the same.
   */
  lemma DescriptionDeterminedByCells(g1: Grid, g2: Grid)
    requires CommaFreeColors(g1) && CommaFreeColors(g2)
    ensures (forall x, y :: At(g1, x, y) == At(g2, x, y))
      <==> Describe(Shadows(g1)) == Describe(Shadows(g2))
  {
    ShadowsDeterminedByCells(g1, g2);
    ShadowColorsCommaFree(g1);
    ShadowColorsCommaFree(g2);
    if Describe(Shadows(g1)) == Describe(Shadows(g2)) {
      DescriptionRoundTrip(Shadows(g1));
      DescriptionRoundTrip(Shadows(g2));
    }
  }
}
