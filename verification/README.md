# SadConsole console core in Dafny

A model of the cell-surface and viewport engine of SadConsole's `Console`
class (`src/SadConsole.Shared/Console.cs`). A console owns a grid of text
cells, a viewport selecting the part of the grid to draw, a render cache
holding the (pixel rectangle, cell) pairs for that viewport, an offscreen
pixel buffer sized to the viewport, and a text cursor drawn on top. The
model covers five parts:

- **viewport normalisation**: the clamps done by the `ViewPort` setter and repeated in the constructor;
- **render cache rebuild** (`SetRenderCells`): the two row-major arrays, the pixel area, and the buffer that is replaced only when its size changes;
- **resize** (`Resize`): cell migration into a `width*height` array, with the viewport stored verbatim;
- **input and overlay policy**: keyboard dispatch, cursor visibility on focus, and the cursor drawn only inside the viewport;
- **update gating**: a paused console does nothing, and a hidden cursor is not advanced.

Everything is a pure function over immutable records. The modules are:

- `Geometry`: rectangles, `ToIndex`, and the row-major grid builder `RowMajor` with its indexing lemmas.
- `Cells`: `Cell`, the `Surface` with invariant `|cells| == width*height`, and resize migration.
- `Viewport`: `Normalize`.
- `Render`: the font metrics, the render cache, `AbsoluteArea` and the render target.
- `Consoles`: the `Console` record and its operations.
- `Errors`: the failure results.

Modelling choices:

- **Cells are values.** In the program a cell is a reference object. So `RenderCells` aliases the surface's cells, and a clearing `Resize` also mutates the cells of the old array. Here the cache is a snapshot taken at rebuild time, and a resize builds a new surface while the old one stays as it was.
- **The font** is a record holding the cell pixel size (positive in both directions) and `renderRect`, an arbitrary deterministic function standing for `GetRenderRect`.
- **The render target** is its size plus an identity number. The console keeps an allocation counter, so "a new buffer" means "a number never handed out before".
- **Runtime exceptions are `Failure` results.** Two are modelled:
  - a negative allocation size (`NegativeSize`);
  - a cell read outside the array (`IndexOutOfRange`).

  A rebuild reads the cell at linear index `(y+Top)*Width + (x+Left)`, as the program does. So a viewport that sticks out to the right but stays inside the array reads cells of the next row rather than failing.
- **Collaborators are parameters.** The keyboard handler, the cursor's keyboard and update routines, and the base update are passed in as functions.
- **Quirks kept as written:**
  - `Resize` stores its viewport argument without clamping. `Consoles.ResizeKeepsOversizedViewport` shows that the next rebuild can then read past the cell array.
  - The copy loop of `Resize` judges `IsValidCell` against the old size, because the program updates `Width` and `Height` only after the loop. `Cells.MigratedCell` reads the old surface for the same reason.
  - Normalisation is not idempotent. A zero-size rectangle moved to the origin becomes the default rectangle, which a second assignment reads as "whole surface" (`Viewport.NormalizeZeroSizeBecomesDefault`).

## Model

| member | source | states |
|---|---|---|
| Viewport.Normalize | src/SadConsole.Shared/Console.cs:39-58 | A requested rectangle of non-negative size ends wholly on the surface (0 ≤ X, 0 ≤ Y, X+W ≤ Width, Y+H ≤ Height). The default rectangle becomes the whole surface. A non-default rectangle already on the surface is returned unchanged. Sizes change only where they exceed the surface. |
| Viewport.NormalizeClosedForm | src/SadConsole.Shared/Console.cs:43-58 | For any non-default rectangle, the result has size min(requested, surface), and its origin is the requested origin clamped into [0, surface − size]. Only the origin moves when the size fits. |
| Viewport.NormalizeIdempotent | src/SadConsole.Shared/Console.cs:43-58 | Assigning a normalised viewport again changes nothing, unless the first result is the all-zero default rectangle. |
| Viewport.NormalizeZeroSizeBecomesDefault | src/SadConsole.Shared/Console.cs:43-53 | (-1,0,0,0) normalises to (0,0,0,0). Assigning that value again selects the whole surface, so assignment is not idempotent there. |
| Geometry.IndexInRange | src/SadConsole.Shared/Console.cs:210 | `ToIndex(x, y, w)` of a cell of a w×h grid lies in [0, w·h). |
| Geometry.RowMajor | src/SadConsole.Shared/Console.cs:173-183 | The sequence built by the nested y/x loop over a W×H grid has exactly W·H slots. |
| Geometry.RowMajorAt | src/SadConsole.Shared/Console.cs:173-183 | The nested y/x loop with a running index puts the value for (x, y) at slot y·W + x. |
| Geometry.RowMajorUnique | src/SadConsole.Shared/Console.cs:173-183 | A sequence of length W·H that holds the value for (x, y) at every y·W + x is exactly the row-major grid. |
| Render.Rebuild | src/SadConsole.Shared/Console.cs:165-192 | Succeeds exactly when the viewport size is non-negative and every read lies in the cell array, which always holds for a viewport on the surface. Then both arrays have length W·H and AbsoluteArea = (0, 0, W·fw, H·fh). The buffer is kept (same identity) exactly when it already has that size; otherwise the new buffer has that size and a never-used number. |
| Render.PixelArea | src/SadConsole.Shared/Console.cs:185 | `AbsoluteArea` always has its origin at (0, 0). A viewport of non-negative size gives an area of non-negative size, so the buffer a rebuild sizes to it is never negative. A negative viewport width or height gives a negative area width or height. |
| Render.InBoundsReadsInRange | src/SadConsole.Shared/Console.cs:180 | For a viewport on the surface, the first and the last rebuild reads lie in [0, Width·Height). By `Render.ReadsInRangeAll`, so does every read (y+Top)·Width + (x+Left). |
| Render.RebuildMapping | src/SadConsole.Shared/Console.cs:175-182 | After a rebuild, slot y·W + x holds GetRenderRect(x, y) and the surface cell at linear index (y+Top)·Width + (x+Left), and that index lies in the cell array. |
| Render.RebuildShowsWindow | src/SadConsole.Shared/Console.cs:175-182 | For a viewport on the surface, cache slot (x, y) holds the surface cell at (x+Left, y+Top). |
| Render.ReadsInRangeAll | src/SadConsole.Shared/Console.cs:180 | Every rebuild read (y+Top)·Width + (x+Left) stays in the cell array if and only if the first read (0,0) and the last read (W−1, H−1) do. The linear index grows with both coordinates. |
| Render.RebuildTwiceKeepsTarget | src/SadConsole.Shared/Console.cs:185-191 | A second rebuild with nothing changed keeps the buffer, its identity and everything else. |
| Consoles.SetRenderCells | src/SadConsole.Shared/Console.cs:165-192 | Rebuilding the console changes only the cache, AbsoluteArea, the buffer and the allocation counter. The new cache, area and buffer are exactly those `Render.Rebuild` builds for the surface, viewport and font, so its slot-by-slot lemmas carry over. It cannot fail for a viewport on the surface. It keeps the buffer-number invariant. |
| Consoles.Construct | src/SadConsole.Shared/Console.cs:99-149 | The constructor stores the normalised viewport and the given cursor, leaves AutoCursorOnFocus false, and succeeds for any viewport of non-negative size. The cache, AbsoluteArea, buffer and counter are exactly what `Render.Rebuild` builds for that viewport. The font and the keyboard, pause and dirty flags are carried over from the base object; the constructor does not set IsDirty. |
| Consoles.SetViewPort | src/SadConsole.Shared/Console.cs:39-63 | The setter succeeds exactly when the requested size is non-negative. It stores Normalize(requested), which then lies on the surface, and marks the console dirty. The cache, AbsoluteArea, buffer and counter are exactly what `Render.Rebuild` builds for the normalised viewport, and the old buffer is kept exactly when it already fits the new area. Nothing else changes: the surface, font, cursor and the keyboard, focus and pause flags are kept. |
| Consoles.SetViewPortShowsWindow | src/SadConsole.Shared/Console.cs:39-63 | After assigning a viewport of non-negative size, every slot (x, y) of the normalised viewport is in the cache. It pairs `GetRenderRect(x, y)` with the surface cell at (x + Left, y + Top), and that cell lies on the surface. The slots are filled by the loop of `SetRenderCells` (lines 173-183). |
| Consoles.ConstructorMatchesSetter | src/SadConsole.Shared/Console.cs:104-148 | Constructing with a viewport gives the same viewport, cache, pixel area and buffer size as constructing with the whole surface and then assigning that viewport. |
| Cells.ResizeCells | src/SadConsole.Shared/Console.cs:202-227 | The copy loop yields a surface of the requested width and height with exactly w·h cells, and the default colours are kept. Cell contents are given by `Cells.ResizeKeepsOverlap` and `Cells.ResizeFillsNewArea`. |
| Cells.ResizeKeepsOverlap | src/SadConsole.Shared/Console.cs:208-218 | A cell valid in both the old and the new bounds keeps its coordinate: it is the old cell, or the old cell reset to defaults when clearing. |
| Cells.ResizeFillsNewArea | src/SadConsole.Shared/Console.cs:220-221 | A cell outside the old bounds is a fresh cell with the default colours and glyph 0, whatever the clear flag. |
| Cells.ResizeClearResets | src/SadConsole.Shared/Console.cs:212-221 | After a clearing resize, every cell has the default foreground and background, glyph 0 and no transient state. |
| Cells.ResizeSameSizeIsIdentity | src/SadConsole.Shared/Console.cs:202-210 | Resizing to the current size without clearing gives back the same surface. |
| Cells.ResizeGrowShrinkRoundTrip | src/SadConsole.Shared/Console.cs:202-227 | Growing without clearing and then shrinking back to the original size restores the original surface exactly. |
| Consoles.Resize | src/SadConsole.Shared/Console.cs:200-231 | After Resize(w, h, clear, vp): Width = w, Height = h, \|Cells\| = w·h, and the viewport is vp verbatim. The surface keeps its default foreground and background colours. Nothing else changes. A negative size fails. |
| Consoles.ResizeMigratesCells | src/SadConsole.Shared/Console.cs:204-222 | Resize carries over cells valid in both bounds (reset when clearing) and fills the rest with default cells. |
| Consoles.ResizeRoundTrip | src/SadConsole.Shared/Console.cs:200-231 | Growing without clearing and then resizing back with the original viewport restores the console exactly. |
| Consoles.ResizeKeepsOversizedViewport | src/SadConsole.Shared/Console.cs:229 | Resize does not clamp its viewport. Shrinking to 1×1 while keeping a 2×2 viewport leaves it off the surface, and the next SetRenderCells fails with IndexOutOfRange. |
| Consoles.ProcessKeyboard | src/SadConsole.Shared/Console.cs:238-244 | With UseKeyboard false, the answer is false and nobody is asked. Otherwise an installed handler's answer is returned, false included. The cursor answers only when no handler is installed. |
| Consoles.HandlerShadowsCursor | src/SadConsole.Shared/Console.cs:242-243 | With a handler installed, the outcome does not depend on the cursor's keyboard routine, and a false from the handler is final. |
| Consoles.OnFocused | src/SadConsole.Shared/Console.cs:254-258 | With AutoCursorOnFocus set, focus shows the cursor. Otherwise the console is unchanged. Only cursor visibility can change. |
| Consoles.OnFocusLost | src/SadConsole.Shared/Console.cs:247-251 | With AutoCursorOnFocus set, losing focus hides the cursor. Otherwise the console is unchanged. Only cursor visibility can change. |
| Consoles.FocusCycle | src/SadConsole.Shared/Console.cs:247-258 | With AutoCursorOnFocus set, visibility follows the last focus event, whatever came before. |
| Consoles.OnBeforeRender | src/SadConsole.Shared/Console.cs:269-273 | The cursor is drawn if and only if it is visible and X ≤ pos.X < X+W and Y ≤ pos.Y < Y+H. It is then drawn at GetRenderRect(pos.X−X, pos.Y−Y), whose arguments lie in [0,W)×[0,H). |
| Consoles.CursorDrawnOverItsCell | src/SadConsole.Shared/Console.cs:271-272 | Right after a viewport assignment, the cursor's rectangle is the cache rectangle of the slot holding the surface cell under the cursor. |
| Consoles.Update | src/SadConsole.Shared/Console.cs:152-160 | A paused console is returned unchanged. Otherwise the cursor is advanced only when visible, and then the base update runs. |
| Consoles.UpdateGating | src/SadConsole.Shared/Console.cs:154-157 | With the cursor hidden, the result does not depend on the cursor's update routine. When paused, it depends on neither collaborator. |

## Left out

- AnimatedSurface playback (frame advance, looping): none of the modelled code implements it. `SerializedTypes/AnimatedSurface.cs` is a JSON converter that only copies fields (and a float duration), so it is not modelled.
- The editor's pencil tool (`EditorForms/Tools/Pencil.cs`) is WinForms input plumbing; it is not modelled.
- `FromSurface` only forwards to the constructor; it is not modelled separately.
- The base screen object (`ScreenObject`), `CellSurface`'s indexer with its bounds checks, the `Cell` class and the `Cursor` class are not part of this model. The indexer appears as `Cells.CellAt` with the bounds as a precondition. The cursor is reduced to its visibility and position.
- `FreshCell`: the program's `Cell` constructor is not part of this model. A new cell is assumed to have no mirroring and no transient state.
- `ClearState`, `EffectsManager` recreation in `Resize`, `OnCellsReset`, `OnViewPortChanged` and `base.Update` are foreign code. `ClearState` is modelled as dropping the cell's transient state. `OnViewPortChanged` is a no-op. The other three are left out or passed in as parameters (`Consoles.Update`).
- `Consoles.SetRenderCells`: the backend calls are abstract. `Dispose` of the old buffer, `Global.GraphicsDevice` and the `SpriteBatch` become the buffer's size and number. `Renderer.BeforeRenderTintCallback` wiring in the constructor is not modelled.
- `Render.Rebuild`: on failure the program has already overwritten part of the cache arrays before the exception. The model returns the failure and does not describe that partial state.
- `Render.Rebuild`: when a viewport size is negative but W·H ≥ 0, the array allocation succeeds. The failure then comes from the graphics backend refusing a buffer of negative size; `Render.PixelArea` shows that the area is then negative in that direction. The model reports `NegativeSize` directly.
- `Render.Rebuild`: buffer allocation is treated as always succeeding for sizes of 0 or more, so a zero-width or zero-height viewport gets a zero-size buffer. Whether the graphics backend accepts a zero-size buffer is not part of this model.
- `Consoles.SetViewPort`: when the rebuild fails (negative requested size), the program has already stored the clamped viewport and set `IsDirty` before the exception. The model returns only the failure and does not describe that console state.
- `Consoles.Resize`: a negative width or height is reported as `NegativeSize`. The program throws only when `width*height < 0`. When the product is 0 or positive (for example `Resize(0, -1, …)`), it stores the negative dimension unchecked, along with an array of `width*height` empty slots.
- The reuse of the cache arrays when their length is unchanged (lines 167-171) has no observable effect once cells are values, because every slot is overwritten. The model always builds new sequences.
- 32-bit integer overflow is not modelled, because integers are unbounded. This covers `Width*Height`, the linear index and the pixel area.
- `Viewport.Normalize`: 32-bit overflow of the clamp sums `X + Width` and `Y + Height` (Console.cs lines 55, 57, 118 and 120) is not modelled. In the program a request such as (2147483647, 0, 1, 1) on a 10×10 surface wraps `X + Width` negative and skips the clamp. The viewport then lies off the surface, and the rebuild throws `IndexOutOfRange`. The model computes (9, 0, 1, 1), so its on-surface guarantee holds only for requests whose sums fit in 32 bits.
- `Render.Font`: cell sizes are positive, as every loaded font's are. A zero cell size, with which a negative viewport size could still give a buffer size of 0 and no exception, is not modelled.
- `KeyboardHandler` and `UseKeyboard` belong to the base screen object. The handler is passed to `Consoles.ProcessKeyboard` as a parameter.
- Dirty tracking: the setter sets `IsDirty`, and `Resize` does not touch it. Both are modelled as written. The rest of the dirty/clean cycle lives in code outside this model.
