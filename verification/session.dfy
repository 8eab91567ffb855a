/**
 * Properties of the paint session: what a single mouse event does to the
 * grid, and what any sequence of events can and cannot do.
 */
module Session {
  import opened Optional
  import opened Grid
  import opened Render
  import opened Description
  import opened Configuration
  import opened Engine

  /** Event `ev` writes the current colour into cell `(x, y)`. */
  predicate Writes(p: Policy, e: Engine, ev: Event, x: int, y: int) {
    && !ev.MouseUp?
    && (if ev.MouseDown? then PaintsOnDown(p, ev.pageX, ev.pageY) else e.mouseDown)
    && var c := MapToCell(e.settings.pixelSize, e.canvasOffset, ev.pageX, ev.pageY);
       InBounds(p, e.settings, c) && c == Cell(x, y)
  }

  /**
   * Cell by cell, an event writes the current colour into at most the one
   * cell the pointer maps to, and only while the session is painting (or on
   * the mousedown that opens it); every other cell keeps its content.
   */
  lemma StepCells(p: Policy, e: Engine, ev: Event)
    requires Valid(p, e)
    ensures forall x, y ::
      At(Step(p, e, ev).shadowStack, x, y) == (if Writes(p, e, ev, x, y) then Some(e.color) else At(e.shadowStack, x, y))
  {
    match ev
    case MouseDown(pageX, pageY) =>
      var down := e.(mouseDown := true);
      if PaintsOnDown(p, pageX, pageY) {
        var r := PaintAt(p, down, pageX, pageY);
        assert Step(p, e, ev) == r;
      }
    case MouseMove(pageX, pageY) =>
    case MouseUp =>
  }

  /** A mouseup with no session open is a no-op. */
  lemma UpWhenIdleIsNoop(p: Policy, e: Engine)
    requires Valid(p, e) && !e.mouseDown
    ensures Step(p, e, MouseUp) == e
  {
  }

  /**
   * A second mousedown inside an open session does what a move to the same
   * point does (under `AsWritten` only when neither coordinate is 0).
   */
  lemma DownWhilePaintingActsAsMove(p: Policy, e: Engine, pageX: int, pageY: int)
    requires Valid(p, e) && e.mouseDown
    requires PaintsOnDown(p, pageX, pageY)
    ensures Step(p, e, MouseDown(pageX, pageY)) == Step(p, e, MouseMove(pageX, pageY))
  {
    assert e.(mouseDown := true) == e;
  }

  /** No mouseup at any index after `i`. */
  predicate NoUpAfter(evs: seq<Event>, i: int) {
    forall j :: 0 <= j < |evs| && i < j ==> !evs[j].MouseUp?
  }

  /**
   * After a run of events the session is open exactly when some mousedown
   * has no mouseup after it, or the session was open already and no mouseup
   * arrived at all.
   */
  predicate SessionOpen(start: bool, evs: seq<Event>) {
    || (exists i :: 0 <= i < |evs| && evs[i].MouseDown? && NoUpAfter(evs, i))
    || (start && NoUpAfter(evs, -1))
  }

  lemma {:induction false} RunSessionState(p: Policy, e: Engine, evs: seq<Event>)
    requires Valid(p, e)
    ensures Run(p, e, evs).mouseDown <==> SessionOpen(e.mouseDown, evs)
    decreases |evs|
  {
    if evs != [] {
      var n := |evs| - 1;
      var pre := evs[..n];
      var ev := evs[n];
      RunSessionState(p, e, pre);
      assert forall j :: 0 <= j < n ==> pre[j] == evs[j];
      match ev
      case MouseUp =>
        assert !NoUpAfter(evs, -1);
        assert forall i :: 0 <= i < |evs| && evs[i].MouseDown? ==> !NoUpAfter(evs, i);
      case MouseDown(_, _) =>
        assert NoUpAfter(evs, n);
      case MouseMove(_, _) =>
        assert forall i :: -1 <= i < n ==> (NoUpAfter(evs, i) <==> NoUpAfter(pre, i));
        if SessionOpen(e.mouseDown, pre) {
          if !(e.mouseDown && NoUpAfter(pre, -1)) {
            var i :| 0 <= i < |pre| && pre[i].MouseDown? && NoUpAfter(pre, i);
            assert evs[i].MouseDown? && NoUpAfter(evs, i);
          }
        }
    }
  }

  /** Moves while no session is open never change anything. */
  lemma {:induction false} IdleMovesChangeNothing(p: Policy, e: Engine, evs: seq<Event>)
    requires Valid(p, e) && !e.mouseDown
    requires forall i :: 0 <= i < |evs| ==> evs[i].MouseMove?
    ensures Run(p, e, evs) == e
    decreases |evs|
  {
    if evs != [] {
      IdleMovesChangeNothing(p, e, evs[..|evs| - 1]);
    }
  }

  /**
   * Whatever the events, every cell afterwards either reads as before or
   * holds the engine's colour: the session never erases and never writes
   * any other colour.
   */
  lemma {:induction false} RunPaintsOnlyCurrentColor(p: Policy, e: Engine, evs: seq<Event>)
    requires Valid(p, e)
    ensures forall x, y :: At(Run(p, e, evs).shadowStack, x, y) == At(e.shadowStack, x, y)
                        || At(Run(p, e, evs).shadowStack, x, y) == Some(e.color)
    decreases |evs|
  {
    if evs != [] {
      var pre := Run(p, e, evs[..|evs| - 1]);
      RunPaintsOnlyCurrentColor(p, e, evs[..|evs| - 1]);
      StepCells(p, pre, evs[|evs| - 1]);
    }
  }

  /**
   * A paint step on an in-bounds cell leaves exactly one entry at that
   * cell's offsets in the description, and it carries the current colour.
   */
  lemma PaintShowsInDescription(p: Policy, e: Engine, pageX: int, pageY: int)
    requires Valid(p, e) && e.mouseDown
    requires InBounds(p, e.settings, MapToCell(e.settings.pixelSize, e.canvasOffset, pageX, pageY))
    ensures var c := MapToCell(e.settings.pixelSize, e.canvasOffset, pageX, pageY);
      var ss := Shadows(Step(p, e, MouseMove(pageX, pageY)).shadowStack);
      && Shadow(c.x + 1, c.y + 1, e.color) in ss
      && forall i :: 0 <= i < |ss| && ss[i].dx == c.x + 1 && ss[i].dy == c.y + 1 ==> ss[i].color == e.color
  {
    var c := MapToCell(e.settings.pixelSize, e.canvasOffset, pageX, pageY);
    var g := Step(p, e, MouseMove(pageX, pageY)).shadowStack;
    assert Describes(Shadow(c.x + 1, c.y + 1, e.color), g);
    forall i | 0 <= i < |Shadows(g)| && Shadows(g)[i].dx == c.x + 1 && Shadows(g)[i].dy == c.y + 1
      ensures Shadows(g)[i].color == e.color
    {
      assert Shadows(g)[i] in Shadows(g);
    }
  }

  /** After `setCanvasSize` nothing is painted, so `paint` yields the empty string. */
  lemma ResizeClearsDescription(p: Policy, e: Engine, width: int, height: int)
    ensures Describe(Shadows(SetCanvasSize(p, e, width, height).shadowStack)) == ""
  {
    PaintEmptyIffUnpainted(SetCanvasSize(p, e, width, height).shadowStack);
  }
}
