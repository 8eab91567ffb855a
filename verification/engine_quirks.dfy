/**
 * The three places where the engine departs from what it evidently means,
 * each shown on the source as written and repaired under `Corrected`: the
 * vertical bounds check, the mousedown coordinate test, and the missing
 * repaint after a resize.
 */
module EngineQuirks {
  import opened Optional
  import opened Grid
  import opened Render
  import opened Description
  import opened Configuration
  import opened Engine
  import opened Session

  /**
   * As written, the vertical check `y <= canvasHeight` lets a drag onto the
   * row just below the canvas through: the column grows by one cell and
   * `paint` emits an entry at vertical offset `canvasHeight + 1`, outside
   * the canvas, after which the grid no longer has the canvas's shape.
   */
  lemma AsWrittenPaintsBelowCanvas(e: Engine, x: int)
    requires Valid(AsWritten, e) && e.mouseDown
    requires 0 <= x < e.settings.canvasWidth && e.settings.canvasHeight >= 0
    ensures var s := e.settings;
      var r := Step(AsWritten, e, MouseMove(e.canvasOffset.left + x * s.pixelSize,
                                            e.canvasOffset.top + s.canvasHeight * s.pixelSize));
      && Shadow(x + 1, s.canvasHeight + 1, e.color) in Shadows(r.shadowStack)
      && !Shaped(r.shadowStack, s.canvasWidth, s.canvasHeight)
  {
    var s := e.settings;
    var pageX := e.canvasOffset.left + x * s.pixelSize;
    var pageY := e.canvasOffset.top + s.canvasHeight * s.pixelSize;
    var ev := MouseMove(pageX, pageY);
    var r := Step(AsWritten, e, ev);
    MapToCellIff(s.pixelSize, e.canvasOffset, pageX, pageY, Cell(x, s.canvasHeight));
    StepCells(AsWritten, e, ev);
    assert Writes(AsWritten, e, ev, x, s.canvasHeight);
    assert At(r.shadowStack, x, s.canvasHeight) == Some(e.color);
    assert Describes(Shadow(x + 1, s.canvasHeight + 1, e.color), r.shadowStack);
  }

  /**
   * Corrected, every state the engine reaches keeps the canvas's shape, so
   * every entry `paint` emits lies on the canvas: `1 <= dx <= canvasWidth`
   * and `1 <= dy <= canvasHeight`.
   */
  lemma CorrectedShadowsInsideCanvas(e: Engine, evs: seq<Event>)
    requires Valid(Corrected, e)
    ensures var r := Run(Corrected, e, evs);
      && Shaped(r.shadowStack, e.settings.canvasWidth, e.settings.canvasHeight)
      && forall s :: s in Shadows(r.shadowStack) ==>
           1 <= s.dx <= e.settings.canvasWidth && 1 <= s.dy <= e.settings.canvasHeight
  {
    var r := Run(Corrected, e, evs);
  }

  /**
   * An engine whose painting area starts at page position (0, 0), with cells
   * wider than 5px and cell (0, 0) on the canvas and still unpainted.
   */
  ghost predicate AtPageOrigin(e: Engine) {
    && Valid(AsWritten, e)
    && e.canvasOffset == Offset(0, 0)
    && e.settings.pixelSize > 5
    && e.settings.canvasWidth > 0 && e.settings.canvasHeight > 0
    && At(e.shadowStack, 0, 0) == None
  }

  /**
   * A freshly built engine with a zero border on a canvas at the page
   * origin is such an engine; with the other options left at their
   * defaults it qualifies.
   */
  lemma OriginEngineQualifies(p: Policy, o: Options)
    requires o.canvasBorderWidth == Some(0)
    requires Merge(o).pixelSize > 5 && Merge(o).canvasWidth > 0 && Merge(o).canvasHeight > 0
    ensures AtPageOrigin(Init(p, o, Offset(0, 0)))
    ensures var d := NoOptions.(canvasBorderWidth := Some(0));
      Merge(d).pixelSize > 5 && Merge(d).canvasWidth > 0 && Merge(d).canvasHeight > 0
  {
  }

  /**
   * As written, a mousedown at page x 0 paints nothing although it lies
   * on cell (0, 0) of a canvas at the page origin: the handler tests the
   * forwarded coordinates for truthiness, and 0 is falsy.
   */
  lemma AsWrittenZeroDownPaintsNothing(e: Engine)
    requires AtPageOrigin(e)
    ensures && MapToCell(e.settings.pixelSize, e.canvasOffset, 0, 5) == Cell(0, 0)
            && InBounds(AsWritten, e.settings, Cell(0, 0))
            && At(Step(AsWritten, e, MouseDown(0, 5)).shadowStack, 0, 0) == None
  {
    MapToCellIff(e.settings.pixelSize, e.canvasOffset, 0, 5, Cell(0, 0));
  }

  /**
   * As written, a mousedown with a 0 page coordinate, anywhere and on any
   * engine, only opens the session: no cell is written and the layer is
   * not repainted.
   */
  lemma AsWrittenZeroDownOnlyOpens(e: Engine, pageX: int, pageY: int)
    requires Valid(AsWritten, e)
    requires pageX == 0 || pageY == 0
    ensures Step(AsWritten, e, MouseDown(pageX, pageY)) == e.(mouseDown := true)
  {
  }

  /**
   * Corrected, a mousedown always paints the in-bounds cell under the
   * pointer, whatever its coordinates, and opens the session.
   */
  lemma CorrectedDownPaints(e: Engine, pageX: int, pageY: int)
    requires Valid(Corrected, e)
    requires InBounds(Corrected, e.settings, MapToCell(e.settings.pixelSize, e.canvasOffset, pageX, pageY))
    ensures var c := MapToCell(e.settings.pixelSize, e.canvasOffset, pageX, pageY);
      var r := Step(Corrected, e, MouseDown(pageX, pageY));
      && r.mouseDown
      && At(r.shadowStack, c.x, c.y) == Some(e.color)
      && forall x, y :: (x != c.x || y != c.y) ==> At(r.shadowStack, x, y) == At(e.shadowStack, x, y)
  {
    StepCells(Corrected, e, MouseDown(pageX, pageY));
  }

  /**
   * As written, `setCanvasSize` empties the grid but does not call `paint`:
   * once anything was painted, the layer keeps showing the old picture
   * although `paint` would now produce the empty string.
   */
  lemma AsWrittenResizeLeavesStalePicture(e: Engine, width: int, height: int, x: int, y: int)
    requires Synced(e) && At(e.shadowStack, x, y).Some?
    ensures var r := SetCanvasSize(AsWritten, e, width, height);
      && Layer(r) != ""
      && Describe(Shadows(r.shadowStack)) == ""
      && !Synced(r)
  {
    PaintEmptyIffUnpainted(SetCanvasSize(AsWritten, e, width, height).shadowStack);
  }

  /**
   * Corrected, a resize repaints, and from then on every run of mouse
   * events keeps the layer showing exactly what `paint` produces from the
   * grid.
   */
  lemma CorrectedLayerStaysSynced(e: Engine, width: int, height: int, evs: seq<Event>)
    ensures var r := SetCanvasSize(Corrected, e, width, height);
      && Synced(r)
      && Synced(Run(Corrected, r, evs))
  {
    RunKeepsSynced(Corrected, SetCanvasSize(Corrected, e, width, height), evs);
  }
}
