/**
 * One painting-engine instance: its settings, its grid, its current colour,
 * the canvas offset captured when the mouse handlers were installed, the
 * `mouseDown` flag of the paint session, and the grid as it stood at the
 * last `paint`, whose description is the `box-shadow` the painting layer
 * shows. Mouse events are calls to `Step`.
 *
 * Three behaviours are open to a choice, recorded as a `Policy`:
 * `AsWritten` follows the source line for line, `Corrected` repairs it
 * (see `InBounds`, `PaintsOnDown` and `SetCanvasSize`).
 */
module Engine {
  import opened Optional
  import opened Grid
  import opened Render
  import opened Description
  import opened Configuration

  datatype Offset = Offset(left: int, top: int)

  /** A grid coordinate as computed from the pointer, not yet bounds-checked. */
  datatype Cell = Cell(x: int, y: int)

  datatype Policy = AsWritten | Corrected

  datatype Event = MouseDown(pageX: int, pageY: int) | MouseMove(pageX: int, pageY: int) | MouseUp

  datatype Engine = Engine(
    settings: Settings,
    shadowStack: Grid,
    color: Color,
    canvasOffset: Offset,
    mouseDown: bool,
    lastPainted: Grid)

  /** The prototype's initial `color`. */
  const InitialColor: Color := "#f00"

  // ---------------------------------------------------------------------
  // Settings and the grid's shape
  // ---------------------------------------------------------------------

  /** A column of `n` cells fits a canvas `h` cells high under policy `p`. */
  predicate ColumnFits(p: Policy, n: nat, h: int) {
    n == Clamp(h) || (p == AsWritten && h >= 0 && n == h + 1)
  }

  /**
   * The engine's invariant: one column per unit of `canvasWidth`, each
   * `canvasHeight` cells long; under `AsWritten` a column may also have
   * grown by the one extra cell the vertical bounds check lets through.
   */
  predicate Valid(p: Policy, e: Engine) {
    && |e.shadowStack| == Clamp(e.settings.canvasWidth)
    && forall x :: 0 <= x < |e.shadowStack| ==> ColumnFits(p, |e.shadowStack[x]|, e.settings.canvasHeight)
  }

  /** The `box-shadow` the painting layer shows: the description `paint` last applied. */
  function Layer(e: Engine): (css: string)
    ensures css == "" <==> forall x, y :: At(e.lastPainted, x, y) == None
  {
    PaintEmptyIffUnpainted(e.lastPainted);
    Describe(Shadows(e.lastPainted))
  }

  /** Every cell reads the same in the grid and in the picture the layer shows. */
  ghost predicate Synced(e: Engine) {
    forall x, y :: At(e.lastPainted, x, y) == At(e.shadowStack, x, y)
  }

  /**
   * In step, the layer shows exactly what `paint` would produce from the
   * grid now; with comma-free colours the converse holds as well.
   */
  lemma SyncedLayer(e: Engine)
    ensures Synced(e) ==> Layer(e) == Describe(Shadows(e.shadowStack))
    ensures CommaFreeColors(e.lastPainted) && CommaFreeColors(e.shadowStack) ==>
      (Synced(e) <==> Layer(e) == Describe(Shadows(e.shadowStack)))
  {
    ShadowsDeterminedByCells(e.lastPainted, e.shadowStack);
    if CommaFreeColors(e.lastPainted) && CommaFreeColors(e.shadowStack) {
      DescriptionDeterminedByCells(e.lastPainted, e.shadowStack);
    }
  }

  /** `paint`: the layer now shows the grid as it is; nothing else changes. */
  function Repaint(e: Engine): (r: Engine)
    ensures r == e.(lastPainted := r.lastPainted)
    ensures Synced(r)
    ensures Layer(r) == Describe(Shadows(e.shadowStack))
  {
    e.(lastPainted := e.shadowStack)
  }

  /** `setPixelSize`: a new cell size; the painting and everything else stay. */
  function SetPixelSize(e: Engine, pixelSize: PixelSize): (r: Engine)
    ensures r.settings.pixelSize == pixelSize
    ensures r.settings.(pixelSize := e.settings.pixelSize) == e.settings
    ensures r == e.(settings := r.settings)
    ensures forall p :: Valid(p, e) ==> Valid(p, r)
  {
    e.(settings := e.settings.(pixelSize := pixelSize))
  }

  /**
   * `setCanvasSize`: records the new dimensions and rebuilds the grid, so
   * every cell is unpainted afterwards, whatever was painted before. The
   * source does not call `paint` here, so the layer keeps showing the old
   * picture (`AsWritten`); `Corrected` repaints, clearing the layer.
   */
  function SetCanvasSize(p: Policy, e: Engine, width: int, height: int): (r: Engine)
    ensures r.settings.canvasWidth == width && r.settings.canvasHeight == height
    ensures r.settings.(canvasWidth := e.settings.canvasWidth, canvasHeight := e.settings.canvasHeight) == e.settings
    ensures Shaped(r.shadowStack, width, height)
    ensures forall x, y :: At(r.shadowStack, x, y) == None
    ensures r == e.(settings := r.settings, shadowStack := r.shadowStack, lastPainted := r.lastPainted)
    ensures p == AsWritten ==> Layer(r) == Layer(e)
    ensures p == Corrected ==> Layer(r) == "" && Synced(r)
    ensures forall q :: Valid(q, r)
  {
    var g := Blank(width, height);
    assert forall x, y :: At(g, x, y) == None;
    var resized := e.(settings := e.settings.(canvasWidth := width, canvasHeight := height), shadowStack := g);
    if p == AsWritten then resized else Repaint(resized)
  }

  /** `setCanvasBackground`: styling only. */
  function SetCanvasBackground(e: Engine, background: string): (r: Engine)
    ensures r.settings.canvasBackground == background
    ensures r.settings.(canvasBackground := e.settings.canvasBackground) == e.settings
    ensures r == e.(settings := r.settings)
  {
    e.(settings := e.settings.(canvasBackground := background))
  }

  /** `setCanvasBorderColor`: styling only. */
  function SetCanvasBorderColor(e: Engine, color: string): (r: Engine)
    ensures r.settings.canvasBorderColor == color
    ensures r.settings.(canvasBorderColor := e.settings.canvasBorderColor) == e.settings
    ensures r == e.(settings := r.settings)
  {
    e.(settings := e.settings.(canvasBorderColor := color))
  }

  /**
   * `setCanvasBorderWidth`: records the width; the canvas offset already
   * captured is NOT recomputed, so it goes stale until the handlers are
   * installed again.
   */
  function SetCanvasBorderWidth(e: Engine, width: int): (r: Engine)
    ensures r.settings.canvasBorderWidth == width
    ensures r.settings.(canvasBorderWidth := e.settings.canvasBorderWidth) == e.settings
    ensures r == e.(settings := r.settings)
  {
    e.(settings := e.settings.(canvasBorderWidth := width))
  }

  /** `setCanvasBorderStyle`: styling only. */
  function SetCanvasBorderStyle(e: Engine, style: string): (r: Engine)
    ensures r.settings.canvasBorderStyle == style
    ensures r.settings.(canvasBorderStyle := e.settings.canvasBorderStyle) == e.settings
    ensures r == e.(settings := r.settings)
  {
    e.(settings := e.settings.(canvasBorderStyle := style))
  }

  /**
   * Replacing the instance's `color`: later writes use it; no cell is
   * repainted, the layer is left as it is, and nothing else changes.
   */
  function SetColor(e: Engine, color: Color): (r: Engine)
    ensures r.color == color
    ensures r == e.(color := color)
    ensures forall p :: Valid(p, e) ==> Valid(p, r)
  {
    e.(color := color)
  }

  // ---------------------------------------------------------------------
  // Pointer to cell
  // ---------------------------------------------------------------------

  /**
   * `getCanvasOffset`: the canvas's page position (a layout query, given
   * here as `raw`) moved inward by the border width on both axes.
   */
  function CanvasOffset(raw: Offset, borderWidth: int): (o: Offset)
    ensures o.left - borderWidth == raw.left && o.top - borderWidth == raw.top
  {
    Offset(raw.left + borderWidth, raw.top + borderWidth)
  }

  /**
   * With the offset `getCanvasOffset` captures, the first page pixel inside
   * the border maps to cell (0, 0), and the last pixel of the border itself
   * maps to cell (-1, -1), which no bounds check admits.
   */
  lemma CanvasOffsetCorner(pixelSize: PixelSize, raw: Offset, borderWidth: int)
    ensures var o := CanvasOffset(raw, borderWidth);
      && MapToCell(pixelSize, o, raw.left + borderWidth, raw.top + borderWidth) == Cell(0, 0)
      && MapToCell(pixelSize, o, raw.left + borderWidth - 1, raw.top + borderWidth - 1) == Cell(-1, -1)
  {
    var o := CanvasOffset(raw, borderWidth);
    MapToCellIff(pixelSize, o, raw.left + borderWidth, raw.top + borderWidth, Cell(0, 0));
    MapToCellIff(pixelSize, o, raw.left + borderWidth - 1, raw.top + borderWidth - 1, Cell(-1, -1));
  }

  /**
   * `Math.floor((page - offset) / pixelSize)` on both axes: the cell whose
   * band of `pixelSize` page pixels contains the pointer.
   */
  function MapToCell(pixelSize: PixelSize, offset: Offset, pageX: int, pageY: int): (c: Cell)
    ensures c.x * pixelSize <= pageX - offset.left < (c.x + 1) * pixelSize
    ensures c.y * pixelSize <= pageY - offset.top < (c.y + 1) * pixelSize
  {
    FloorBand(pageX - offset.left, pixelSize);
    FloorBand(pageY - offset.top, pixelSize);
    Cell((pageX - offset.left) / pixelSize, (pageY - offset.top) / pixelSize)
  }

  lemma FloorBand(d: int, n: PixelSize)
    ensures (d / n) * n <= d < (d / n + 1) * n
  {
  }

  /** At most one `k` has `d` in its band `[k*n, (k+1)*n)`. */
  lemma BandUnique(d: int, n: PixelSize, k: int, k': int)
    requires k * n <= d < (k + 1) * n
    requires k' * n <= d < (k' + 1) * n
    ensures k == k'
  {
    if k < k' {
      assert (k + 1) * n <= k' * n by {
        assert k + 1 <= k';
        MulMonotone(k + 1, k', n);
      }
    } else if k' < k {
      assert (k' + 1) * n <= k * n by {
        MulMonotone(k' + 1, k, n);
      }
    }
  }

  lemma MulMonotone(a: int, b: int, n: PixelSize)
    requires a <= b
    ensures a * n <= b * n
  {
  }

  /**
   * A cell is the one the pointer maps to exactly when the pointer lies in
   * its band on both axes.
   */
  lemma MapToCellIff(pixelSize: PixelSize, offset: Offset, pageX: int, pageY: int, c: Cell)
    ensures c == MapToCell(pixelSize, offset, pageX, pageY) <==>
      && c.x * pixelSize <= pageX - offset.left < (c.x + 1) * pixelSize
      && c.y * pixelSize <= pageY - offset.top < (c.y + 1) * pixelSize
  {
    var m := MapToCell(pixelSize, offset, pageX, pageY);
    if && c.x * pixelSize <= pageX - offset.left < (c.x + 1) * pixelSize
       && c.y * pixelSize <= pageY - offset.top < (c.y + 1) * pixelSize
    {
      BandUnique(pageX - offset.left, pixelSize, c.x, m.x);
      BandUnique(pageY - offset.top, pixelSize, c.y, m.y);
    }
  }

  // ---------------------------------------------------------------------
  // The paint session
  // ---------------------------------------------------------------------

  /**
   * The handler's bounds check. `AsWritten` is the source's
   * `x < canvasWidth && y <= canvasHeight`, which admits one row past the
   * last; `Corrected` uses `y < canvasHeight`, matching the horizontal axis.
   * Measured against the grid `setCanvasSize` builds: `Corrected` admits
   * exactly the cells it stores, `AsWritten` also the slot one past the end
   * of each column.
   */
  predicate InBounds(p: Policy, s: Settings, c: Cell)
    ensures var g := Blank(s.canvasWidth, s.canvasHeight);
      p == Corrected ==> (InBounds(p, s, c) <==> 0 <= c.x < |g| && 0 <= c.y < |g[c.x]|)
    ensures var g := Blank(s.canvasWidth, s.canvasHeight);
      p == AsWritten && s.canvasHeight >= 0 ==> (InBounds(p, s, c) <==> 0 <= c.x < |g| && 0 <= c.y <= |g[c.x]|)
  {
    && 0 <= c.x < s.canvasWidth
    && 0 <= c.y
    && (if p == AsWritten then c.y <= s.canvasHeight else c.y < s.canvasHeight)
  }

  /**
   * The body of the `mousemove` handler once `mouseDown` holds: map the
   * pointer to a cell and, if the bounds check passes, write the current
   * colour there and `paint`. Exactly that cell changes, and the layer then
   * shows the new grid; when the check fails nothing changes.
   */
  function PaintAt(p: Policy, e: Engine, pageX: int, pageY: int): (r: Engine)
    requires Valid(p, e)
    ensures Valid(p, r)
    ensures r == e.(shadowStack := r.shadowStack, lastPainted := r.lastPainted)
    ensures InBounds(p, e.settings, MapToCell(e.settings.pixelSize, e.canvasOffset, pageX, pageY)) ==> Synced(r)
    ensures !InBounds(p, e.settings, MapToCell(e.settings.pixelSize, e.canvasOffset, pageX, pageY)) ==> r == e
    ensures var c := MapToCell(e.settings.pixelSize, e.canvasOffset, pageX, pageY);
      && (InBounds(p, e.settings, c) ==> At(r.shadowStack, c.x, c.y) == Some(e.color))
      && (forall x, y :: !(InBounds(p, e.settings, c) && x == c.x && y == c.y) ==>
            At(r.shadowStack, x, y) == At(e.shadowStack, x, y))
  {
    var c := MapToCell(e.settings.pixelSize, e.canvasOffset, pageX, pageY);
    if InBounds(p, e.settings, c) then
      var g := Write(e.shadowStack, c.x, c.y, e.color);
      assert forall x :: 0 <= x < |g| ==> ColumnFits(p, |g[x]|, e.settings.canvasHeight) by {
        forall x | 0 <= x < |g|
          ensures ColumnFits(p, |g[x]|, e.settings.canvasHeight)
        {
          assert ColumnFits(p, |e.shadowStack[x]|, e.settings.canvasHeight);
        }
      }
      e.(shadowStack := g, lastPainted := g)
    else
      e
  }

  /**
   * `mousedown` asks for a paint step at the down coordinates by
   * triggering `mousemove` with them as extra arguments. The handler uses
   * them only when both are truthy; a 0 coordinate falls back to the
   * triggered event's own, absent, page coordinates, and the resulting NaN
   * fails the bounds check. `Corrected` always paints at the down point.
   */
  predicate PaintsOnDown(p: Policy, pageX: int, pageY: int)
    ensures p == Corrected ==> PaintsOnDown(p, pageX, pageY)
    ensures pageX != 0 && pageY != 0 ==> PaintsOnDown(p, pageX, pageY)
    ensures p == AsWritten && (pageX == 0 || pageY == 0) ==> !PaintsOnDown(p, pageX, pageY)
  {
    p == Corrected || (pageX != 0 && pageY != 0)
  }

  /** One mouse event. */
  function Step(p: Policy, e: Engine, ev: Event): (r: Engine)
    requires Valid(p, e)
    ensures Valid(p, r)
    ensures r.settings == e.settings && r.color == e.color && r.canvasOffset == e.canvasOffset
    ensures r.mouseDown == match ev
      case MouseDown(_, _) => true
      case MouseUp => false
      case MouseMove(_, _) => e.mouseDown
    ensures ev.MouseUp? ==> r == e.(mouseDown := false)
    ensures ev.MouseMove? && !e.mouseDown ==> r == e
  {
    match ev
    case MouseDown(pageX, pageY) =>
      var down := e.(mouseDown := true);
      if PaintsOnDown(p, pageX, pageY) then PaintAt(p, down, pageX, pageY) else down
    case MouseMove(pageX, pageY) =>
      if e.mouseDown then PaintAt(p, e, pageX, pageY) else e
    case MouseUp =>
      e.(mouseDown := false)
  }

  /** A sequence of mouse events, handled in arrival order. */
  function Run(p: Policy, e: Engine, evs: seq<Event>): (r: Engine)
    requires Valid(p, e)
    ensures Valid(p, r)
    ensures r.settings == e.settings && r.color == e.color && r.canvasOffset == e.canvasOffset
    decreases |evs|
  {
    if evs == [] then e else Step(p, Run(p, e, evs[..|evs| - 1]), evs[|evs| - 1])
  }

  /** A mouse event never leaves the layer out of step with the grid: every write is followed by `paint`. */
  lemma StepKeepsSynced(p: Policy, e: Engine, ev: Event)
    requires Valid(p, e) && Synced(e)
    ensures Synced(Step(p, e, ev))
  {
    match ev
    case MouseDown(pageX, pageY) =>
      var down := e.(mouseDown := true);
      assert Synced(down);
    case MouseMove(_, _) =>
    case MouseUp =>
      assert Step(p, e, ev).shadowStack == e.shadowStack;
  }

  /** Nor does any run of events. */
  lemma {:induction false} RunKeepsSynced(p: Policy, e: Engine, evs: seq<Event>)
    requires Valid(p, e) && Synced(e)
    ensures Synced(Run(p, e, evs))
    decreases |evs|
  {
    if evs != [] {
      RunKeepsSynced(p, e, evs[..|evs| - 1]);
      StepKeepsSynced(p, Run(p, e, evs[..|evs| - 1]), evs[|evs| - 1]);
    }
  }

  /**
   * `setMouseEvents`: captures the canvas offset (with the current border
   * width) and starts the session idle.
   */
  function SetMouseEvents(e: Engine, raw: Offset): (r: Engine)
    ensures r.canvasOffset == CanvasOffset(raw, e.settings.canvasBorderWidth)
    ensures !r.mouseDown
    ensures r == e.(canvasOffset := r.canvasOffset, mouseDown := r.mouseDown)
  {
    e.(canvasOffset := CanvasOffset(raw, e.settings.canvasBorderWidth), mouseDown := false)
  }

  /**
   * The constructor and `init`: merge the options over the defaults, then
   * apply every setter in the source's order and install the handlers. The
   * starting settings are immaterial since every setter overwrites its
   * field. The layer starts with no shadow, which is also what `paint`
   * would produce from the blank grid.
   */
  function Init(p: Policy, o: Options, raw: Offset): (e: Engine)
    ensures e.settings == Merge(o)
    ensures e.color == InitialColor
    ensures !e.mouseDown
    ensures e.canvasOffset == CanvasOffset(raw, Merge(o).canvasBorderWidth)
    ensures Shaped(e.shadowStack, Merge(o).canvasWidth, Merge(o).canvasHeight)
    ensures forall x, y :: At(e.shadowStack, x, y) == None
    ensures forall q :: Valid(q, e)
    ensures Layer(e) == "" && Synced(e)
  {
    var s := Merge(o);
    var e0 := Engine(Defaults, [], InitialColor, Offset(0, 0), false, []);
    var e1 := SetPixelSize(e0, s.pixelSize);
    var e2 := SetCanvasSize(p, e1, s.canvasWidth, s.canvasHeight);
    var e3 := SetCanvasBackground(e2, s.canvasBackground);
    var e4 := SetCanvasBorderColor(e3, s.canvasBorderColor);
    var e5 := SetCanvasBorderWidth(e4, s.canvasBorderWidth);
    var e6 := SetCanvasBorderStyle(e5, s.canvasBorderStyle);
    SetMouseEvents(e6, raw)
  }
}
