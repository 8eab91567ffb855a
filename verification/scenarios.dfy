/**
 * End-to-end runs of the engine: a press and a drag, and a colour change
 * between two paint steps.
 */
module Scenarios {
  import opened Optional
  import opened Decimal
  import opened Grid
  import opened Render
  import opened Description
  import opened Configuration
  import opened Engine
  import opened Session

  /** The engine with default settings on a canvas whose border box sits at page position `raw`. */
  function DefaultEngine(p: Policy, raw: Offset): Engine {
    Init(p, NoOptions, raw)
  }

  /**
   * An idle engine with 10px cells, nothing painted, room for cell (2, 4),
   * and its painting area at a non-negative page position.
   */
  ghost predicate FreshCanvas(p: Policy, e: Engine) {
    && Valid(p, e)
    && !e.mouseDown
    && e.settings.pixelSize == 10
    && e.settings.canvasWidth > 2
    && e.settings.canvasHeight > 4
    && e.canvasOffset.left >= 0 && e.canvasOffset.top >= 0
    && forall x, y :: At(e.shadowStack, x, y) == None
  }

  lemma InitIsFresh(p: Policy, o: Options, raw: Offset)
    requires Merge(o).pixelSize == 10 && Merge(o).canvasWidth > 2 && Merge(o).canvasHeight > 4
    requires CanvasOffset(raw, Merge(o).canvasBorderWidth).left >= 0
    requires CanvasOffset(raw, Merge(o).canvasBorderWidth).top >= 0
    ensures FreshCanvas(p, Init(p, o, raw))
  {
  }

  lemma DefaultEngineIsFresh(p: Policy, raw: Offset)
    requires raw.left >= 0 && raw.top >= 0
    ensures FreshCanvas(p, DefaultEngine(p, raw))
    ensures DefaultEngine(p, raw).color == "#f00"
    ensures DefaultEngine(p, raw).canvasOffset == Offset(raw.left + 1, raw.top + 1)
  {
    MergeSpec(Defaults, 10, 50);
    InitIsFresh(p, NoOptions, raw);
  }

  /**
   * For a painting area at page position `o`: a press 25px right and 35px
   * down, over cell (2, 3) at 10px cells, then a move 10px further down,
   * over cell (2, 4).
   */
  function DragEvents(o: Offset): seq<Event> {
    [MouseDown(o.left + 25, o.top + 35), MouseMove(o.left + 25, o.top + 45)]
  }

  /** The two steps of the drag: press on cell (2, 3), move onto cell (2, 4). */
  lemma DragCells(p: Policy, e: Engine)
    requires FreshCanvas(p, e)
    ensures forall x, y ::
      At(Run(p, e, DragEvents(e.canvasOffset)).shadowStack, x, y) == (if x == 2 && 3 <= y <= 4 then Some(e.color) else None)
  {
    var evs := DragEvents(e.canvasOffset);
    var e1 := Step(p, e, evs[0]);
    assert Run(p, e, evs[..1]) == e1 by {
      assert evs[..1][..0] == [];
    }
    assert evs[..2] == evs;
    var o := e.canvasOffset;
    MapToCellIff(10, o, o.left + 25, o.top + 35, Cell(2, 3));
    MapToCellIff(10, o, o.left + 25, o.top + 45, Cell(2, 4));
    StepCells(p, e, evs[0]);
    StepCells(p, e1, evs[1]);
  }

  /**
   * Press on cell (2, 3), drag to cell (2, 4): `paint` produces exactly the
   * two entries for those cells, in order.
   */
  lemma Drag(p: Policy, e: Engine)
    requires FreshCanvas(p, e)
    ensures var r := Run(p, e, DragEvents(e.canvasOffset));
      && Shadows(r.shadowStack) == [Shadow(3, 4, e.color), Shadow(3, 5, e.color)]
  {
    var r := Run(p, e, DragEvents(e.canvasOffset));
    DragCells(p, e);
    var ss := [Shadow(3, 4, e.color), Shadow(3, 5, e.color)];
    forall s
      ensures s in ss <==> Describes(s, r.shadowStack)
    {
      assert At(r.shadowStack, s.dx - 1, s.dy - 1)
        == (if s.dx - 1 == 2 && 3 <= s.dy - 1 <= 4 then Some(e.color) else None);
      if Describes(s, r.shadowStack) {
        assert s == Shadow(s.dx, s.dy, s.color);
        assert s.dy == 4 || s.dy == 5;
      }
    }
    ShadowsCharacterised(r.shadowStack, ss);
  }

  /** The drag's description: `3em 4em <color>,3em 5em <color>`. */
  lemma DragDescription(p: Policy, e: Engine)
    requires FreshCanvas(p, e)
    ensures Describe(Shadows(Run(p, e, DragEvents(e.canvasOffset)).shadowStack)) == ("3em 4em " + e.color) + "," + ("3em 5em " + e.color)
  {
    Drag(p, e);
    DragEntriesSpelled(e.color);
  }

  lemma DragEntriesSpelled(c: Color)
    ensures Describe([Shadow(3, 4, c), Shadow(3, 5, c)]) == ("3em 4em " + c) + "," + ("3em 5em " + c)
  {
    DescribePair(Shadow(3, 4, c), Shadow(3, 5, c));
    DragEntries(c);
    JoinPair(Entry(Shadow(3, 4, c)), Entry(Shadow(3, 5, c)));
  }

  lemma DescribePair(a: Shadow, b: Shadow)
    ensures Describe([a, b]) == Join([Entry(a), Entry(b)])
  {
    assert Entries([a, b]) == [Entry(a), Entry(b)];
  }

  lemma DragEntries(c: Color)
    ensures Entry(Shadow(3, 4, c)) == "3em 4em " + c
    ensures Entry(Shadow(3, 5, c)) == "3em 5em " + c
  {
    EntrySpelled(3, 4, c);
    EntrySpelled(3, 5, c);
    assert DigitChar(3) == '3' && DigitChar(4) == '4' && DigitChar(5) == '5';
  }

  lemma EntrySpelled(dx: nat, dy: nat, c: Color)
    requires 1 <= dx <= 9 && 1 <= dy <= 9
    ensures Entry(Shadow(dx, dy, c)) == [DigitChar(dx)] + "em " + [DigitChar(dy)] + "em " + c
  {
  }

  lemma JoinPair(a: string, b: string)
    ensures Join([a, b]) == a + "," + b
  {
    assert [a, b][1..] == [b];
  }

  /**
   * With the defaults (10px cells, 1px border), wherever the canvas sits,
   * the drag yields the string `3em 4em #f00,3em 5em #f00`.
   */
  lemma DefaultDrag(p: Policy, raw: Offset, e: Engine)
    requires raw.left >= 0 && raw.top >= 0
    requires e == DefaultEngine(p, raw)
    ensures Describe(Shadows(Run(p, e, DragEvents(e.canvasOffset)).shadowStack)) == "3em 4em #f00,3em 5em #f00"
  {
    DefaultEngineIsFresh(p, raw);
    DragDescription(p, e);
    DefaultColorSpelled(e.color);
  }

  lemma DefaultColorSpelled(c: Color)
    requires c == "#f00"
    ensures ("3em 4em " + c) + "," + ("3em 5em " + c) == "3em 4em #f00,3em 5em #f00"
  {
  }

  /**
   * Painting (2, 3), switching to blue, then painting (2, 4): the first cell
   * keeps the colour it was painted with; only the later write is blue.
   */
  lemma ColorChangeKeepsEarlierPaint(p: Policy, e: Engine)
    requires FreshCanvas(p, e)
    ensures var e1 := Step(p, e, MouseDown(e.canvasOffset.left + 25, e.canvasOffset.top + 35));
      var r := Step(p, SetColor(e1, "#00f"), MouseMove(e.canvasOffset.left + 25, e.canvasOffset.top + 45));
      && At(r.shadowStack, 2, 3) == Some(e.color)
      && At(r.shadowStack, 2, 4) == Some("#00f")
  {
    var e1 := Step(p, e, MouseDown(e.canvasOffset.left + 25, e.canvasOffset.top + 35));
    var e2 := SetColor(e1, "#00f");
    var o := e.canvasOffset;
    MapToCellIff(10, o, o.left + 25, o.top + 35, Cell(2, 3));
    MapToCellIff(10, o, o.left + 25, o.top + 45, Cell(2, 4));
    StepCells(p, e, MouseDown(e.canvasOffset.left + 25, e.canvasOffset.top + 35));
    StepCells(p, e2, MouseMove(e.canvasOffset.left + 25, e.canvasOffset.top + 45));
  }
}
