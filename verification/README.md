# paintCSS painting engine in Dafny

paintCSS is a jQuery plugin. It turns an element into a pixel canvas. Each painted "pixel" is one entry of a
`box-shadow` list on a single 1em × 1em child element, the painting layer. This project models the plugin's
engine. It has three parts:

- **The grid store** (`shadowStack`). This is a column-major grid `[x][y]`, with `null` for an unpainted cell. It
  is rebuilt, empty, whenever the canvas size is set (`grid.dfy`, module `Grid`).
- **The paint session.** A mouse position minus the canvas offset is floor-divided by `pixelSize` to give a cell.
  A bounds check decides whether the current colour is written there; after a write, `paint` refreshes the
  layer. Writes happen only while `mouseDown` holds; mousedown sets the flag and paints at once, and mouseup
  clears it (`engine.dfy`, module `Engine`; `session.dfy`, module `Session`). The settings and the defaults are
  in `configuration.dfy`.
- **The serialiser** (`paint`). It walks the grid x-outer, y-inner and emits `"<x+1>em <y+1>em <color>"` for each
  painted cell. It joins the entries with `,`, or yields `''` when nothing is painted (`render.dfy`,
  `description.dfy`, `decimal.dfy`).

Everything is pure. An engine instance is an immutable `Engine` record. A setter or a mouse event is a function
from one record to the next. The layer's `box-shadow` is kept as the grid it was last computed from
(`lastPainted`); `Engine.Layer` spells it as the string `paint` applied.

Three points of the source are open to a choice, recorded as a `Policy` (`engine_quirks.dfy`, module
`EngineQuirks`, shows each one both ways):

- The vertical bounds check is `y <= canvasHeight`, while the horizontal one is `x < canvasWidth`. `AsWritten`
  follows the source: a write at `y == canvasHeight` appends one cell to that column, as a JavaScript array
  assignment one past the end does. `Corrected` uses `y < canvasHeight`; under it the grid always has the
  canvas's shape.
- A mousedown at a zero page coordinate paints nothing under `AsWritten`; `Corrected` always paints.
- `setCanvasSize` empties the grid without calling `paint`. Under `AsWritten` the layer keeps the old picture;
  `Corrected` repaints.

Points worth knowing about the code:

- The canvas offset is computed once, when the handlers are installed (`setMouseEvents`). It is not recomputed
  on each mousedown. `setCanvasBorderWidth` does not refresh it.
- The setters validate nothing. A negative width or height makes the construction loop run zero times (`Clamp`).
- There is no colour setter. The colour is the instance's `color` field, initially `#f00`, which `SetColor`
  replaces.

## Model

| member | source | states |
|---|---|---|
| `Grid.Blank` | src/assets-dev/js/paint-css.js:123-131 | the grid `initShadowStack` leaves: exactly `canvasWidth` columns of exactly `canvasHeight` cells (none for a negative size), none painted |
| `Grid.InitShadowStack` | src/assets-dev/js/paint-css.js:123-131 | the nested loop builds that same grid: the right shape, every cell null, and equal to `Grid.Blank` |
| `Grid.BlankUnique` | src/assets-dev/js/paint-css.js:123-131 | a grid of that shape with nothing painted is the one `initShadowStack` builds |
| `Grid.Write` | src/assets-dev/js/paint-css.js:115 | `shadowStack[x][y] = color` makes cell `[x][y]` hold the colour and leaves every other cell reading as before; at `y` equal to the column length the column grows by one |
| `Render.Shadows` | src/assets-dev/js/paint-css.js:134-141 | the traversal emits an entry `(x+1, y+1, c)` exactly when cell `(x, y)` holds `c`, in strictly increasing x-then-y order, so each painted cell appears exactly once |
| `Render.ShadowsCharacterised` | src/assets-dev/js/paint-css.js:134-141 | any ordered list naming exactly the painted cells is the traversal's output |
| `Render.ShadowsDeterminedByCells` | src/assets-dev/js/paint-css.js:134-141 | two grids give the same entry list if and only if every cell of the one reads the same as in the other |
| `Render.ShadowsEmptyIffUnpainted` | src/assets-dev/js/paint-css.js:134-141 | the entry list is empty exactly when no cell is painted |
| `Decimal.NatToString` | src/assets-dev/js/paint-css.js:138 | a number is spelled as a non-empty digit string with no leading zero |
| `Decimal.DigitsValueOfNatToString` | src/assets-dev/js/paint-css.js:138 | reading the spelled offset back gives the number |
| `Description.Entry` | src/assets-dev/js/paint-css.js:138 | an entry ends with its colour and has no comma before it, so any comma in an entry comes from the colour |
| `Description.EntryRoundTrip` | src/assets-dev/js/paint-css.js:138 | an entry `"<dx>em <dy>em <color>"` reads back to the same offsets and colour, whatever the colour |
| `Description.Join` | src/assets-dev/js/paint-css.js:142 | cutting a comma-joined string at its commas gives back the parts, when there is at least one part and no part contains a comma |
| `Description.Describe` | src/assets-dev/js/paint-css.js:142 | the description is `''` exactly when there are no entries |
| `Description.DescriptionRoundTrip` | src/assets-dev/js/paint-css.js:138-142 | reading a description back yields exactly its entries, when no colour contains a comma |
| `Description.Paint` | src/assets-dev/js/paint-css.js:133-142 | the nested-loop `paint` produces exactly the joined description of the grid's entry list |
| `Description.PaintEmptyIffUnpainted` | src/assets-dev/js/paint-css.js:134-142 | `paint` yields `''` exactly when no cell is painted |
| `Description.DescriptionDeterminedByCells` | src/assets-dev/js/paint-css.js:133-142 | with comma-free colours, two grids give the same string if and only if every cell reads the same |
| `Configuration.Merge` | src/assets-dev/js/paint-css.js:15 | field by field: a field the options give wins, a field they leave out keeps its default |
| `Configuration.MergeSpec` | src/assets-dev/js/paint-css.js:4-15 | with no options the settings are the defaults; with options naming every field they are exactly those options; options naming only `pixelSize` or only `canvasWidth` give the defaults with that one field replaced |
| `Engine.SetPixelSize` | src/assets-dev/js/paint-css.js:51-54 | the pixel size is set and nothing else changes: no other setting, no cell, not the colour, the captured offset, the session or the layer; the engine's invariant still holds |
| `Engine.SetCanvasSize` | src/assets-dev/js/paint-css.js:56-62 | width and height are set, the other settings are kept, and the grid has the new shape with no painted cell, whatever was painted before; as written the layer keeps its old picture, corrected it is cleared and in step with the grid |
| `Engine.SetCanvasBackground` | src/assets-dev/js/paint-css.js:64-67 | only the background setting changes |
| `Engine.SetCanvasBorderColor` | src/assets-dev/js/paint-css.js:69-72 | only the border colour setting changes |
| `Engine.SetCanvasBorderWidth` | src/assets-dev/js/paint-css.js:74-77 | only the border width setting changes; the captured canvas offset stays as it was |
| `Engine.SetCanvasBorderStyle` | src/assets-dev/js/paint-css.js:79-82 | only the border style setting changes |
| `Engine.SetColor` | src/assets-dev/js/paint-css.js:25 | replacing the instance's colour changes nothing else: no cell is repainted, and the layer, settings, offset and session stay as they were |
| `Engine.CanvasOffset` | src/assets-dev/js/paint-css.js:84-89 | the offset is the canvas's page position moved by the border width on both axes |
| `Engine.CanvasOffsetCorner` | src/assets-dev/js/paint-css.js:84-89 | with that offset, the first page pixel inside the border maps to cell (0, 0) and the last border pixel to cell (-1, -1), for every pixel size |
| `Engine.MapToCell` | src/assets-dev/js/paint-css.js:112-113 | the computed cell is the one whose band of `pixelSize` page pixels contains the pointer on each axis (`Math.floor` of the division) |
| `Engine.MapToCellIff` | src/assets-dev/js/paint-css.js:112-113 | a cell is the computed one if and only if the pointer lies in its band on both axes |
| `Engine.InBounds` | src/assets-dev/js/paint-css.js:114 | measured against the grid `setCanvasSize` builds, the corrected check admits exactly the stored cells, and the check as written, for a non-negative height, also admits the slot one past the end of each column |
| `Engine.PaintsOnDown` | src/assets-dev/js/paint-css.js:108-111 | the corrected handler always paints on mousedown; the handler as written paints when neither coordinate is 0 and does not paint when either is 0 |
| `Engine.PaintAt` | src/assets-dev/js/paint-css.js:112-117 | when the bounds check passes, the mapped cell gets the current colour, every other cell is unchanged, and after `paint` the layer is in step with the grid; when it fails nothing changes |
| `Engine.Layer` | src/assets-dev/js/paint-css.js:142-143 | the layer's `box-shadow` is empty exactly when the grid it was last painted from has no painted cell |
| `Engine.SyncedLayer` | src/assets-dev/js/paint-css.js:133-143 | when every cell reads the same in the grid and in the last painted grid, the layer shows what `paint` would produce now; with comma-free colours the converse holds too |
| `Engine.Repaint` | src/assets-dev/js/paint-css.js:133-143 | `paint` brings the layer in step with the grid and changes nothing else |
| `Engine.Step` | src/assets-dev/js/paint-css.js:94-120 | mousedown sets `mouseDown`, mouseup clears it and changes nothing else, a move keeps it, and a move while it is clear changes nothing; settings, colour and offset never change, and the invariant holds |
| `Engine.Run` | src/assets-dev/js/paint-css.js:94-120 | any sequence of events keeps the grid's shape invariant and leaves settings, colour and offset alone |
| `Engine.StepKeepsSynced` | src/assets-dev/js/paint-css.js:114-117 | no mouse event leaves the layer out of step with the grid, since every write is followed by `paint` |
| `Engine.RunKeepsSynced` | src/assets-dev/js/paint-css.js:94-120 | no sequence of mouse events leaves the layer out of step with the grid |
| `Engine.SetMouseEvents` | src/assets-dev/js/paint-css.js:91-93 | installing the handlers captures the offset with the current border width, starts idle, and changes nothing else |
| `Engine.Init` | src/assets-dev/js/paint-css.js:27-49 | after construction the settings are the merged options, the colour is `#f00`, the session is idle, the offset includes the border width, no cell is painted, and the layer is empty and in step with the grid |
| `Session.StepCells` | src/assets-dev/js/paint-css.js:100-117 | an event writes the current colour into at most the one mapped, in-bounds cell, and only on mousedown or while painting; every other cell is unchanged |
| `Session.UpWhenIdleIsNoop` | src/assets-dev/js/paint-css.js:95-97 | a mouseup with no session open changes nothing |
| `Session.DownWhilePaintingActsAsMove` | src/assets-dev/js/paint-css.js:100-111 | a second mousedown inside a session acts exactly like a move to the same point, provided the mousedown paints at all (under `AsWritten`, neither coordinate is 0) |
| `Session.RunSessionState` | src/assets-dev/js/paint-css.js:93-107 | after any run, `mouseDown` holds if and only if some mousedown has no mouseup after it, or it held before and no mouseup came |
| `Session.IdleMovesChangeNothing` | src/assets-dev/js/paint-css.js:105-107 | moves with no session open leave the engine exactly as it was |
| `Session.RunPaintsOnlyCurrentColor` | src/assets-dev/js/paint-css.js:114-115 | after any run every cell reads as before or holds the engine's colour: nothing is erased or painted in another colour |
| `Session.PaintShowsInDescription` | src/assets-dev/js/paint-css.js:114-116 | after an in-bounds paint step, the entry list has an entry at that cell's offsets, and every entry at those offsets carries the current colour |
| `Session.ResizeClearsDescription` | src/assets-dev/js/paint-css.js:56-62 | after `setCanvasSize`, `paint` computed on the new grid yields `''` |
| `EngineQuirks.AsWrittenPaintsBelowCanvas` | src/assets-dev/js/paint-css.js:114 | as written, a drag onto the row below the canvas paints an entry at vertical offset `canvasHeight + 1`, and the grid loses the canvas's shape |
| `EngineQuirks.CorrectedShadowsInsideCanvas` | src/assets-dev/js/paint-css.js:114 | corrected, after any run the grid keeps the canvas's shape and every entry lies on the canvas |
| `EngineQuirks.OriginEngineQualifies` | src/assets-dev/js/paint-css.js:27-49 | an engine built with a zero border on a canvas at the page origin, and cells wider than 5px, has its painting area at the page origin with cell (0, 0) on the canvas and unpainted; the default options with a zero border qualify |
| `EngineQuirks.AsWrittenZeroDownPaintsNothing` | src/assets-dev/js/paint-css.js:102-111 | as written, a mousedown at page x 0 over cell (0, 0) of a painting area at the page origin paints nothing |
| `EngineQuirks.AsWrittenZeroDownOnlyOpens` | src/assets-dev/js/paint-css.js:100-111 | as written, a mousedown with a 0 page coordinate, on any engine, only sets `mouseDown`: the grid and the layer are unchanged |
| `EngineQuirks.CorrectedDownPaints` | src/assets-dev/js/paint-css.js:100-103 | corrected, a mousedown paints the in-bounds cell under the pointer and nothing else, and opens the session |
| `EngineQuirks.AsWrittenResizeLeavesStalePicture` | src/assets-dev/js/paint-css.js:56-62 | as written, once a cell was painted, `setCanvasSize` leaves the layer showing a non-empty picture while `paint` would now yield `''` |
| `EngineQuirks.CorrectedLayerStaysSynced` | src/assets-dev/js/paint-css.js:56-62 | corrected, after a resize the layer is in step with the grid, and stays so through any run of mouse events |
| `Scenarios.Drag` | src/assets-dev/js/paint-css.js:100-141 | press on cell (2, 3) then drag onto cell (2, 4): the entry list is exactly `(3, 4, c)`, `(3, 5, c)` |
| `Scenarios.DefaultDrag` | src/assets-dev/js/paint-css.js:4-12 | with the defaults the same drag yields the string `3em 4em #f00,3em 5em #f00` |
| `Scenarios.ColorChangeKeepsEarlierPaint` | src/assets-dev/js/paint-css.js:115 | a colour change between two paint steps leaves the first cell's colour as it was; only the later write uses the new colour |

## Left out

- DOM effects are not modelled: every `.css(...)` call, `$(element)`, `.children`, `$.data` and the `$.fn.paintCSS` registration. The layer's `box-shadow` is engine state (see below), not a property of an element.
- `$canvas.offset()` is a layout query. The canvas's page position is the parameter `raw` of `Engine.SetMouseEvents` and `Engine.Init`.
- Event binding (`$(window).on`/`.off`, `$canvas.on`) is not modelled. Events are calls to `Engine.Step`. The global mouseup listener, which a later instance replaces, is not modelled.
- The prototype-level `settings` and `shadowStack` objects shared between instances are not modelled. One engine owns its own state.
- Page coordinates and `pixelSize` are integers, with `pixelSize > 0` (type `PixelSize`). Fractional coordinates and a non-numeric pixel size are not modelled, because they would need floating point. A zero pixel size is not modelled because JavaScript then divides by zero and gets an infinity or NaN. A negative pixel size is not modelled because `Math.floor` of the quotient and Dafny's Euclidean `/` then round in opposite directions, so the cell mapping would need its own definition for that case.
- Settings given as non-numbers (for example a width string) are not modelled, because the model's settings are typed.
- `Engine.Init` starts from placeholder settings in place of the prototype's empty `settings` object. Every setter in `init` overwrites its field, so the placeholder never shows.
- The layer's `box-shadow` is kept as the grid `paint` last read (`lastPainted`), not as the string it applied; `Engine.Layer` spells it. Before the first `paint` the layer has no shadow, modelled as the empty grid, whose description is `''`.
- `Description.DescriptionRoundTrip`: holds only for comma-free colours. A colour such as `rgb(1,2,3)` makes the joined string ambiguous, and the source does nothing about it.
- `Description.DescriptionDeterminedByCells`: the direction from equal strings to equal cells assumes comma-free colours, for the same reason.
- `Scenarios.DefaultDrag`: assumes a canvas at a non-negative page position. Under the as-written policy a mousedown at a page coordinate of 0 does not paint (see `EngineQuirks.AsWrittenZeroDownPaintsNothing`).

## Findings

| source | as written | input that shows it | evidently intended | confidence | as-written member | corrected member |
|---|---|---|---|---|---|---|
| src/assets-dev/js/paint-css.js:114 | the vertical check is `y <= canvasHeight` | mouse held and the pointer on the row just below the canvas: with 10px cells and canvas height 50, `pageY - offset.top = 500` gives `y = 50` | `y < canvasHeight`, as on the horizontal axis | not executed; high | `EngineQuirks.AsWrittenPaintsBelowCanvas` | `EngineQuirks.CorrectedShadowsInsideCanvas` |
| src/assets-dev/js/paint-css.js:108 | mousedown forwards its coordinates to the move handler, which uses them only if `mouseDownX && mouseDownY` is truthy; a 0 falls back to the forwarded event's own `pageX`, which is absent, so the cell is NaN and the bounds check fails | border width 0, canvas at page (0, 0), mousedown at page (0, 5): the pointer is on cell (0, 0) but nothing is painted | paint the cell under the pointer on every mousedown | not executed; medium (depends on jQuery leaving `pageX` unset on a triggered event) | `EngineQuirks.AsWrittenZeroDownPaintsNothing` | `EngineQuirks.CorrectedDownPaints` |
| src/assets-dev/js/paint-css.js:56-62 | `setCanvasSize` empties the grid but does not call `paint`, which only runs after a write (line 116) | paint any cell, then call `setCanvasSize(50, 50)`: the grid is blank but the layer still shows the old `box-shadow` until the next in-bounds write, which then drops it | call `paint` after `initShadowStack`, so the layer shows the blank grid | not executed; medium (the old picture may be wanted as a backdrop, but the next stroke would then wipe it) | `EngineQuirks.AsWrittenResizeLeavesStalePicture` | `EngineQuirks.CorrectedLayerStaysSynced` |
