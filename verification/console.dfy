/**
 * The console: a surface, its viewport, the render cache for that viewport,
 * the offscreen buffer, and the text cursor drawn over it. Each operation of
 * the program's `Console` class is a function from the old console to the new
 * one (or to its answer).
 */
module Consoles {
  import opened Geometry
  import opened Cells
  import opened Viewport
  import opened Errors
  import opened Render

  /** What this model needs of the cursor: whether it is shown and where (in surface cells). */
  datatype Cursor = Cursor(isVisible: bool, position: Point)

  datatype Console = Console(
    surface: Surface,
    font: Font,
    viewport: Rect,
    cache: RenderCache,
    absoluteArea: Rect,
    target: RenderTarget,
    nextTargetId: nat,
    cursor: Cursor,
    autoCursorOnFocus: bool,
    useKeyboard: bool,
    isPaused: bool,
    isDirty: bool)

  /** The buffer's number was handed out by the allocation counter. */
  predicate Valid(c: Console) {
    c.target.id < c.nextTargetId
  }

  /**
   * The state the base screen object has built when the console's own
   * constructor body starts: the surface, the font, the buffer, and the
   * input and update flags.
   */
  datatype ScreenBase = ScreenBase(
    surface: Surface,
    font: Font,
    target: RenderTarget,
    nextTargetId: nat,
    useKeyboard: bool,
    isPaused: bool,
    isDirty: bool)

  /** The whole surface as a rectangle. */
  function FullView(s: Surface): Rect {
    Rect(0, 0, s.width, s.height)
  }

  /**
   * `SetRenderCells()`: rebuild the cache for the current viewport. Only the
   * cache, the pixel area, the buffer and the allocation counter change.
   */
  function SetRenderCells(c: Console): (r: Result<Console>)
    ensures r.Success? <==> Rebuild(c.surface, c.viewport, c.font, c.target, c.nextTargetId).Success?
    ensures InBounds(c.viewport, c.surface.width, c.surface.height) ==> r.Success?
    ensures r.Success? ==>
      r.value == c.(cache := r.value.cache, absoluteArea := r.value.absoluteArea,
                    target := r.value.target, nextTargetId := r.value.nextTargetId)
    // the new cache, area and buffer are those the rebuild produces
    ensures r.Success? ==>
      Rebuild(c.surface, c.viewport, c.font, c.target, c.nextTargetId)
        == Success(Rendered(r.value.cache, r.value.absoluteArea, r.value.target, r.value.nextTargetId))
    ensures r.Success? ==>
      && |r.value.cache.cells| == |r.value.cache.rects| == c.viewport.width * c.viewport.height
      && r.value.absoluteArea == PixelArea(c.viewport, c.font)
    ensures r.Success? && Valid(c) ==> Valid(r.value) && (r.value.target == c.target <==> Fits(c.target, r.value.absoluteArea))
  {
    match Rebuild(c.surface, c.viewport, c.font, c.target, c.nextTargetId)
    case Failure(e) => Failure(e)
    case Success(rd) =>
      Success(c.(cache := rd.cache, absoluteArea := rd.absoluteArea,
                 target := rd.target, nextTargetId := rd.nextTargetId))
  }

  /**
   * The constructor `Console(width, height, font, viewPort, initialCells)`
   * after the base object is built: the cursor is created, the requested
   * viewport is normalised and the cache is built for it. `AutoCursorOnFocus`
   * starts false.
   */
  function Construct(b: ScreenBase, viewport: Rect, cursor: Cursor): (r: Result<Console>)
    ensures viewport.width >= 0 && viewport.height >= 0 ==> r.Success?
    ensures r.Success? ==>
      && r.value.surface == b.surface
      && r.value.viewport == Normalize(viewport, b.surface.width, b.surface.height)
      && r.value.cursor == cursor
      && !r.value.autoCursorOnFocus
    // the font and the base object's flags are carried over; the constructor does not mark the console dirty
    ensures r.Success? ==>
      && r.value.font == b.font
      && r.value.useKeyboard == b.useKeyboard
      && r.value.isPaused == b.isPaused
      && r.value.isDirty == b.isDirty
    // the cache, area and buffer are those the rebuild produces for the normalised viewport
    ensures r.Success? ==>
      Rebuild(b.surface, r.value.viewport, b.font, b.target, b.nextTargetId)
        == Success(Rendered(r.value.cache, r.value.absoluteArea, r.value.target, r.value.nextTargetId))
    ensures r.Success? && b.target.id < b.nextTargetId ==> Valid(r.value)
  {
    var c := Console(b.surface, b.font, Normalize(viewport, b.surface.width, b.surface.height),
                     RenderCache([], []), EmptyRect, b.target, b.nextTargetId,
                     cursor, false, b.useKeyboard, b.isPaused, b.isDirty);
    SetRenderCells(c)
  }

  /**
   * The `ViewPort` setter: normalise the requested rectangle, mark the console
   * dirty and rebuild the cache. The `OnViewPortChanged` hook does nothing
   * here.
   */
  function SetViewPort(c: Console, requested: Rect): (r: Result<Console>)
    ensures r.Success? <==> requested.width >= 0 && requested.height >= 0
    ensures requested.width >= 0 && requested.height >= 0 ==>
      r.Success? && InBounds(r.value.viewport, c.surface.width, c.surface.height)
    // only the viewport, the dirty flag and what the rebuild writes change
    ensures r.Success? ==>
      r.value == c.(viewport := Normalize(requested, c.surface.width, c.surface.height), isDirty := true,
                    cache := r.value.cache, absoluteArea := r.value.absoluteArea,
                    target := r.value.target, nextTargetId := r.value.nextTargetId)
    // the cache, area and buffer are those the rebuild produces for the normalised viewport
    ensures r.Success? ==>
      Rebuild(c.surface, Normalize(requested, c.surface.width, c.surface.height), c.font, c.target, c.nextTargetId)
        == Success(Rendered(r.value.cache, r.value.absoluteArea, r.value.target, r.value.nextTargetId))
    ensures r.Success? && Valid(c) ==> Valid(r.value) && (r.value.target == c.target <==> Fits(c.target, r.value.absoluteArea))
  {
    SetRenderCells(c.(viewport := Normalize(requested, c.surface.width, c.surface.height), isDirty := true))
  }

  /**
   * After assigning a viewport of non-negative size, slot (x, y) of the cache
   * pairs `GetRenderRect(x, y)` with the surface cell at (x + Left, y + Top)
   * of the normalised viewport, for every cell of that viewport.
   */
  lemma SetViewPortShowsWindow(c: Console, requested: Rect, x: int, y: int)
    requires requested.width >= 0 && requested.height >= 0
    requires var v := Normalize(requested, c.surface.width, c.surface.height);
      0 <= x < v.width && 0 <= y < v.height
    ensures var v := Normalize(requested, c.surface.width, c.surface.height);
      var r := SetViewPort(c, requested).value;
      && IsValidCell(c.surface, x + v.x, y + v.y)
      && r.cache.cells[GridIndex(x, y, v.width, v.height)] == CellAt(c.surface, x + v.x, y + v.y)
      && r.cache.rects[GridIndex(x, y, v.width, v.height)] == c.font.renderRect(x, y)
  {
    var v := Normalize(requested, c.surface.width, c.surface.height);
    RebuildShowsWindow(c.surface, v, c.font, c.target, c.nextTargetId, x, y);
    RebuildMapping(c.surface, v, c.font, c.target, c.nextTargetId, x, y);
  }

  /**
   * Constructing with a viewport gives the same viewport, cache and pixel
   * area as constructing with the whole surface and then assigning that
   * viewport; the buffers have the same size (their numbers may differ).
   */
  lemma ConstructorMatchesSetter(b: ScreenBase, viewport: Rect, cursor: Cursor)
    ensures Construct(b, FullView(b.surface), cursor).Success?
    ensures var direct := Construct(b, viewport, cursor);
      var viaSetter := SetViewPort(Construct(b, FullView(b.surface), cursor).value, viewport);
      && (direct.Success? <==> viaSetter.Success?)
      && (direct.Success? ==>
            && direct.value.viewport == viaSetter.value.viewport
            && direct.value.cache == viaSetter.value.cache
            && direct.value.absoluteArea == viaSetter.value.absoluteArea
            && direct.value.target.width == viaSetter.value.target.width
            && direct.value.target.height == viaSetter.value.target.height)
  {
  }

  /**
   * `Resize(width, height, clear, viewPort)`: migrate the cells, then store
   * the given viewport AS IS, without the setter's clamping and without a
   * rebuild. A negative size fails, as the program's array allocation does.
   */
  function Resize(c: Console, w: int, h: int, clear: bool, vp: Rect): (r: Result<Console>)
    ensures r.Success? <==> w >= 0 && h >= 0
    ensures r.Success? ==>
      && r.value.surface.width == w && r.value.surface.height == h
      && |r.value.surface.cells| == w * h
      && r.value.viewport == vp
      && r.value.surface.defaultForeground == c.surface.defaultForeground
      && r.value.surface.defaultBackground == c.surface.defaultBackground
      && r.value == c.(surface := r.value.surface, viewport := vp)
  {
    if w < 0 || h < 0 then Failure(NegativeSize)
    else Success(c.(surface := ResizeCells(c.surface, w, h, clear), viewport := vp))
  }

  /**
   * Resize keeps every cell valid in both the old and the new bounds at its
   * coordinate (reset when clearing) and fills the rest with default cells.
   */
  lemma ResizeMigratesCells(c: Console, w: int, h: int, clear: bool, vp: Rect, x: int, y: int)
    requires w >= 0 && h >= 0 && 0 <= x < w && 0 <= y < h
    ensures var s := Resize(c, w, h, clear, vp).value.surface;
      && (IsValidCell(c.surface, x, y) && !clear ==> CellAt(s, x, y) == CellAt(c.surface, x, y))
      && (IsValidCell(c.surface, x, y) && clear ==> CellAt(s, x, y) == ClearCell(c.surface, CellAt(c.surface, x, y)))
      && (!IsValidCell(c.surface, x, y) ==> CellAt(s, x, y) == FreshCell(c.surface))
  {
    if IsValidCell(c.surface, x, y) {
      ResizeKeepsOverlap(c.surface, w, h, clear, x, y);
    } else {
      ResizeFillsNewArea(c.surface, w, h, clear, x, y);
    }
  }

  /**
   * Growing without clearing and shrinking back, restoring the viewport,
   * gives back the console exactly.
   */
  lemma ResizeRoundTrip(c: Console, w: int, h: int, vp: Rect)
    requires c.surface.width <= w && c.surface.height <= h
    ensures var grown := Resize(c, w, h, false, vp);
      grown.Success? && Resize(grown.value, c.surface.width, c.surface.height, false, c.viewport) == Success(c)
  {
    ResizeGrowShrinkRoundTrip(c.surface, w, h);
  }

  /**
   * The viewport Resize stores is not clamped: shrinking a console to 1 by 1
   * while keeping a 2 by 2 viewport leaves a viewport off the surface, and the
   * next cache rebuild reads past the cell array.
   */
  lemma ResizeKeepsOversizedViewport(c: Console)
    ensures var r := Resize(c, 1, 1, false, Rect(0, 0, 2, 2));
      && r.Success?
      && !InBounds(r.value.viewport, 1, 1)
      && SetRenderCells(r.value) == Failure(IndexOutOfRange)
  {
    var r := Resize(c, 1, 1, false, Rect(0, 0, 2, 2)).value;
    assert SourceIndex(r.surface, r.viewport, 1, 1) == 2;
  }

  /** A keyboard handler installed on the console, if any. */
  datatype KeyboardHandler<-K> = NoHandler | Handler(invoke: (Console, K) -> bool)

  /** Who answered a keyboard event. */
  datatype KeyRoute = NotProcessed | ByHandler | ByCursor

  datatype KeyOutcome = KeyOutcome(handled: bool, route: KeyRoute)

  /**
   * `ProcessKeyboard(info)`: nothing when the console ignores the keyboard;
   * otherwise the installed handler answers, and only when there is none does
   * the cursor answer.
   */
  function ProcessKeyboard<K>(c: Console, handler: KeyboardHandler<K>, cursorKeys: (Cursor, K) -> bool, info: K): (r: KeyOutcome)
    ensures !c.useKeyboard ==> r == KeyOutcome(false, NotProcessed)
    ensures c.useKeyboard && handler.Handler? ==> r == KeyOutcome(handler.invoke(c, info), ByHandler)
    ensures c.useKeyboard && handler.NoHandler? ==> r == KeyOutcome(cursorKeys(c.cursor, info), ByCursor)
  {
    if !c.useKeyboard then KeyOutcome(false, NotProcessed)
    else match handler
      case Handler(invoke) => KeyOutcome(invoke(c, info), ByHandler)
      case NoHandler => KeyOutcome(cursorKeys(c.cursor, info), ByCursor)
  }

  /**
   * An installed handler shadows the cursor completely: the outcome does not
   * depend on what the cursor would answer, even when the handler answers false.
   */
  lemma HandlerShadowsCursor<K>(c: Console, invoke: (Console, K) -> bool, cursor1: (Cursor, K) -> bool, cursor2: (Cursor, K) -> bool, info: K)
    ensures ProcessKeyboard(c, Handler(invoke), cursor1, info) == ProcessKeyboard(c, Handler(invoke), cursor2, info)
    ensures !invoke(c, info) ==> !ProcessKeyboard(c, Handler(invoke), cursor1, info).handled
  {
  }

  /** `OnFocused`: shows the cursor when `AutoCursorOnFocus` is set; nothing else changes. */
  function OnFocused(c: Console): (r: Console)
    ensures c.autoCursorOnFocus ==> r.cursor.isVisible
    ensures !c.autoCursorOnFocus ==> r == c
    ensures r == c.(cursor := c.cursor.(isVisible := r.cursor.isVisible))
  {
    if c.autoCursorOnFocus then c.(cursor := c.cursor.(isVisible := true)) else c
  }

  /** `OnFocusLost`: hides the cursor when `AutoCursorOnFocus` is set; nothing else changes. */
  function OnFocusLost(c: Console): (r: Console)
    ensures c.autoCursorOnFocus ==> !r.cursor.isVisible
    ensures !c.autoCursorOnFocus ==> r == c
    ensures r == c.(cursor := c.cursor.(isVisible := r.cursor.isVisible))
  {
    if c.autoCursorOnFocus then c.(cursor := c.cursor.(isVisible := false)) else c
  }

  /**
   * With `AutoCursorOnFocus` set, cursor visibility follows the last focus
   * event, whatever it was before.
   */
  lemma FocusCycle(c: Console)
    requires c.autoCursorOnFocus
    ensures !OnFocusLost(OnFocused(c)).cursor.isVisible
    ensures OnFocused(OnFocusLost(c)).cursor.isVisible
    ensures OnFocused(OnFocusLost(c)) == OnFocused(c)
    ensures OnFocusLost(OnFocused(c)) == OnFocusLost(c)
  {
  }

  /** What the pre-render hook draws: nothing, or the cursor at a pixel rectangle. */
  datatype CursorDraw = NotDrawn | DrawnAt(rect: Rect)

  /**
   * `OnBeforeRender`: the cursor is drawn only when it is visible and its
   * surface position lies in the viewport, at the font rectangle of its
   * viewport-local position.
   */
  function OnBeforeRender(c: Console): (r: CursorDraw)
    ensures r.DrawnAt? <==> c.cursor.isVisible && c.viewport.Contains(c.cursor.position)
    ensures r.DrawnAt? ==>
      var lx := c.cursor.position.x - c.viewport.x;
      var ly := c.cursor.position.y - c.viewport.y;
      && 0 <= lx < c.viewport.width && 0 <= ly < c.viewport.height
      && r.rect == c.font.renderRect(lx, ly)
  {
    if c.cursor.isVisible && c.viewport.Contains(c.cursor.position) then
      DrawnAt(c.font.renderRect(c.cursor.position.x - c.viewport.x, c.cursor.position.y - c.viewport.y))
    else NotDrawn
  }

  /**
   * Right after a viewport assignment the cursor is drawn over its own cell:
   * its rectangle is the cache rectangle of the slot that holds the surface
   * cell under the cursor.
   */
  lemma CursorDrawnOverItsCell(c: Console, requested: Rect)
    requires requested.width >= 0 && requested.height >= 0
    requires OnBeforeRender(SetViewPort(c, requested).value).DrawnAt?
    ensures var d := SetViewPort(c, requested).value;
      var lx := d.cursor.position.x - d.viewport.x;
      var ly := d.cursor.position.y - d.viewport.y;
      && IsValidCell(d.surface, d.cursor.position.x, d.cursor.position.y)
      && OnBeforeRender(d).rect == d.cache.rects[GridIndex(lx, ly, d.viewport.width, d.viewport.height)]
      && d.cache.cells[GridIndex(lx, ly, d.viewport.width, d.viewport.height)]
         == CellAt(d.surface, d.cursor.position.x, d.cursor.position.y)
  {
    var d := SetViewPort(c, requested).value;
    var lx := d.cursor.position.x - d.viewport.x;
    var ly := d.cursor.position.y - d.viewport.y;
    var pre := c.(viewport := d.viewport, isDirty := true);
    RebuildShowsWindow(d.surface, d.viewport, d.font, pre.target, pre.nextTargetId, lx, ly);
    RebuildMapping(d.surface, d.viewport, d.font, pre.target, pre.nextTargetId, lx, ly);
  }

  /**
   * `Update(delta)`: a paused console does nothing; otherwise the cursor is
   * advanced only when visible, and then the base update (children, effects)
   * runs. Both collaborators are parameters.
   */
  function Update<D>(c: Console, delta: D, cursorUpdate: (Cursor, D) -> Cursor, baseUpdate: (Console, D) -> Console): (r: Console)
    ensures c.isPaused ==> r == c
    ensures !c.isPaused && !c.cursor.isVisible ==> r == baseUpdate(c, delta)
    ensures !c.isPaused && c.cursor.isVisible ==> r == baseUpdate(c.(cursor := cursorUpdate(c.cursor, delta)), delta)
  {
    if c.isPaused then c
    else
      var advanced := if c.cursor.isVisible then c.(cursor := cursorUpdate(c.cursor, delta)) else c;
      baseUpdate(advanced, delta)
  }

  /**
   * A hidden cursor is never advanced and a paused console never reaches its
   * collaborators: in those states the outcome does not depend on them.
   */
  lemma UpdateGating<D>(c: Console, delta: D, cu1: (Cursor, D) -> Cursor, cu2: (Cursor, D) -> Cursor,
                        bu1: (Console, D) -> Console, bu2: (Console, D) -> Console)
    ensures !c.cursor.isVisible ==> Update(c, delta, cu1, bu1) == Update(c, delta, cu2, bu1)
    ensures c.isPaused ==> Update(c, delta, cu1, bu1) == Update(c, delta, cu2, bu2)
  {
  }
}
