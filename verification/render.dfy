/**
 * The render cache rebuild (`SetRenderCells`): the pairs of pixel rectangle
 * and cell that a backend draws for the current viewport, the pixel area they
 * cover, and the offscreen buffer sized to that area.
 */
module Render {
  import opened Geometry
  import opened Cells
  import opened Viewport
  import opened Errors

  /**
   * The font metrics the cache needs: the pixel size of one cell and
   * `GetRenderRect`, a deterministic map from a viewport-local cell to its
   * pixel rectangle whose definition is not part of this model. A font's
   * cells are at least one pixel wide and high.
   */
  datatype Font = Font(cellWidth: PixelSize, cellHeight: PixelSize, renderRect: (int, int) -> Rect)

  /** A length in pixels of a font cell's side. */
  type PixelSize = n: int | 0 < n witness 1

  /** The offscreen pixel buffer: its size and its identity (an allocation number). */
  datatype RenderTarget = RenderTarget(width: int, height: int, id: nat)

  /** `RenderRects` and `RenderCells`: parallel arrays, row-major over the viewport. */
  datatype RenderCache = RenderCache(rects: seq<Rect>, cells: seq<Cell>)

  /** Everything a rebuild writes: the cache, `AbsoluteArea`, the buffer and the allocation counter. */
  datatype Rendered = Rendered(cache: RenderCache, absoluteArea: Rect, target: RenderTarget, nextTargetId: nat)

  /** Linear index of the surface cell that viewport-local cell (x, y) shows. */
  function SourceIndex(s: Surface, vp: Rect, x: int, y: int): int {
    ToIndex(x + vp.x, y + vp.y, s.width)
  }

  /**
   * The first and the last read of the rebuild loop land inside the cell
   * array. Because the linear index grows with both coordinates, every other
   * read then does too (`ReadsInRangeAll`). A read that leaves its row but
   * stays in the array wraps to a neighbouring row, as the program's linear
   * index does.
   */
  predicate ReadsInRange(s: Surface, vp: Rect) {
    || vp.width <= 0 || vp.height <= 0
    || (0 <= SourceIndex(s, vp, 0, 0) && SourceIndex(s, vp, vp.width - 1, vp.height - 1) < |s.cells|)
  }

  /** The cell the rebuild loop reads for viewport-local (x, y); unused unless the read is in range. */
  function ReadCell(s: Surface, vp: Rect, x: int, y: int): Cell {
    var i := SourceIndex(s, vp, x, y);
    if 0 <= i < |s.cells| then s.cells[i] else FreshCell(s)
  }

  /** `AbsoluteArea`: the viewport measured in pixels. */
  function PixelArea(vp: Rect, font: Font): (a: Rect)
    ensures a.x == 0 && a.y == 0
    // a viewport of non-negative size never asks for a buffer of negative size
    ensures vp.width >= 0 && vp.height >= 0 ==> a.width >= 0 && a.height >= 0
    // and a viewport of negative size always does
    ensures vp.width < 0 ==> a.width < 0
    ensures vp.height < 0 ==> a.height < 0
  {
    Rect(0, 0, vp.width * font.cellWidth, vp.height * font.cellHeight)
  }

  /** The buffer is already the size of `area`. */
  predicate Fits(target: RenderTarget, area: Rect) {
    target.width == area.width && target.height == area.height
  }

  /**
   * `SetRenderCells`: fails when the viewport has a negative size (the
   * program's array or buffer allocation throws) or when some read leaves the
   * cell array; otherwise fills both arrays in row-major order, recomputes the
   * pixel area, and replaces the buffer by a newly numbered one only when its
   * size differs from the area.
   */
  function Rebuild(s: Surface, vp: Rect, font: Font, target: RenderTarget, nextId: nat): (r: Result<Rendered>)
    ensures r.Success? <==> vp.width >= 0 && vp.height >= 0 && ReadsInRange(s, vp)
    ensures InBounds(vp, s.width, s.height) ==> r.Success?
    ensures r.Success? ==>
      && |r.value.cache.rects| == vp.width * vp.height
      && |r.value.cache.cells| == vp.width * vp.height
      && r.value.absoluteArea == PixelArea(vp, font)
    // the buffer is kept exactly when it already fits, and a new one gets an unused number
    ensures r.Success? && target.id < nextId ==>
      && (r.value.target == target <==> Fits(target, r.value.absoluteArea))
      && Fits(r.value.target, r.value.absoluteArea)
      && r.value.target.id < r.value.nextTargetId
      && (r.value.target != target ==> nextId <= r.value.target.id)
  {
    if vp.width < 0 || vp.height < 0 then Failure(NegativeSize)
    else if !ReadsInRange(s, vp) then
      InBoundsReadsInRange(s, vp);
      Failure(IndexOutOfRange)
    else
      var w: nat, h: nat := vp.width, vp.height;
      var cache := RenderCache(RowMajor(w, h, font.renderRect), RowMajor(w, h, (x, y) => ReadCell(s, vp, x, y)));
      var area := PixelArea(vp, font);
      if Fits(target, area) then Success(Rendered(cache, area, target, nextId))
      else Success(Rendered(cache, area, RenderTarget(area.width, area.height, nextId), nextId + 1))
  }

  /** A viewport on the surface reads inside the cell array. */
  lemma InBoundsReadsInRange(s: Surface, vp: Rect)
    ensures InBounds(vp, s.width, s.height) ==> ReadsInRange(s, vp)
  {
    if InBounds(vp, s.width, s.height) && vp.width > 0 && vp.height > 0 {
      IndexInRange(vp.width - 1 + vp.x, vp.height - 1 + vp.y, s.width, s.height);
      IndexInRange(vp.x, vp.y, s.width, s.height);
    }
  }

  /**
   * After a successful rebuild, slot `y*W + x` pairs `GetRenderRect(x, y)`
   * with the surface cell at linear index `(y + Top) * Width + (x + Left)`,
   * and that index lies in the cell array.
   */
  lemma RebuildMapping(s: Surface, vp: Rect, font: Font, target: RenderTarget, nextId: nat, x: int, y: int)
    requires Rebuild(s, vp, font, target, nextId).Success?
    requires 0 <= x < vp.width && 0 <= y < vp.height
    ensures var c := Rebuild(s, vp, font, target, nextId).value.cache;
      && 0 <= SourceIndex(s, vp, x, y) < |s.cells|
      && c.cells[GridIndex(x, y, vp.width, vp.height)] == s.cells[SourceIndex(s, vp, x, y)]
      && c.rects[GridIndex(x, y, vp.width, vp.height)] == font.renderRect(x, y)
  {
    ReadsInRangeAll(s, vp);
    var w: nat, h: nat := vp.width, vp.height;
    RowMajorAt(w, h, font.renderRect, x, y);
    RowMajorAt(w, h, (x, y) => ReadCell(s, vp, x, y), x, y);
  }

  /**
   * For a viewport on the surface the cache shows exactly the viewport's
   * window: slot (x, y) holds the surface cell at (x + Left, y + Top).
   */
  lemma RebuildShowsWindow(s: Surface, vp: Rect, font: Font, target: RenderTarget, nextId: nat, x: int, y: int)
    requires InBounds(vp, s.width, s.height)
    requires 0 <= x < vp.width && 0 <= y < vp.height
    ensures IsValidCell(s, x + vp.x, y + vp.y)
    ensures Rebuild(s, vp, font, target, nextId).value.cache.cells[GridIndex(x, y, vp.width, vp.height)]
            == CellAt(s, x + vp.x, y + vp.y)
  {
    RebuildMapping(s, vp, font, target, nextId, x, y);
  }

  /**
   * Every read of the rebuild loop, `(y + Top) * Width + (x + Left)` for each
   * viewport-local (x, y), lies in the cell array exactly when the first and
   * the last one do.
   */
  lemma ReadsInRangeAll(s: Surface, vp: Rect)
    ensures ReadsInRange(s, vp) <==>
      forall x, y :: 0 <= x < vp.width && 0 <= y < vp.height ==> 0 <= SourceIndex(s, vp, x, y) < |s.cells|
  {
    if ReadsInRange(s, vp) {
      forall x, y | 0 <= x < vp.width && 0 <= y < vp.height
        ensures 0 <= SourceIndex(s, vp, x, y) < |s.cells|
      {
        MulLeq(vp.y, y + vp.y, s.width);
        MulLeq(y + vp.y, vp.height - 1 + vp.y, s.width);
      }
    }
  }

  /** Rebuilding again with nothing changed keeps the buffer and its identity. */
  lemma RebuildTwiceKeepsTarget(s: Surface, vp: Rect, font: Font, target: RenderTarget, nextId: nat)
    requires target.id < nextId
    requires Rebuild(s, vp, font, target, nextId).Success?
    ensures var first := Rebuild(s, vp, font, target, nextId).value;
      var second := Rebuild(s, vp, font, first.target, first.nextTargetId);
      second.Success? && second.value == first
  {
  }
}
