/**
 * The cell grid of a console: cells as values, the surface that owns them
 * row-major, and the cell migration performed by `Console.Resize`.
 *
 * In the program a cell is a reference object, so the array built by a
 * resize shares its cells with the old array, and clearing them also changes
 * the old array. Here a cell is a value: a resize builds a new surface and
 * leaves the old one as it was.
 */
module Cells {
  import opened Geometry

  /** A colour with 8-bit red, green, blue and alpha channels. */
  type Byte = b: int | 0 <= b < 256

  datatype Color = Color(r: Byte, g: Byte, b: Byte, a: Byte)

  /** How the glyph is flipped when drawn. */
  datatype Mirror = NoMirror | FlipHorizontally | FlipVertically | FlipBoth

  /**
   * Transient per-cell state that `ClearState` discards (saved appearance,
   * effect bookkeeping). Only whether a cell holds any is modelled.
   */
  datatype Transient = NoTransient | Holding(token: nat)

  datatype Cell = Cell(
    foreground: Color,
    background: Color,
    glyph: int,
    mirror: Mirror,
    transient: Transient)

  /**
   * A `width` by `height` grid of cells stored row-major, with the default
   * colours used for cells that a resize creates or clears.
   */
  datatype SurfaceData = SurfaceData(
    width: nat,
    height: nat,
    cells: seq<Cell>,
    defaultForeground: Color,
    defaultBackground: Color)

  /** A surface whose cell array has exactly one slot per cell. */
  type Surface = s: SurfaceData | |s.cells| == s.width * s.height
    witness SurfaceData(0, 0, [], Color(255, 255, 255, 255), Color(0, 0, 0, 0))

  /** `IsValidCell(x, y)`: the coordinate lies on the surface. */
  predicate IsValidCell(s: Surface, x: int, y: int) {
    0 <= x < s.width && 0 <= y < s.height
  }

  /** The indexer `this[x, y]`. */
  function CellAt(s: Surface, x: int, y: int): Cell
    requires IsValidCell(s, x, y)
  {
    s.cells[GridIndex(x, y, s.width, s.height)]
  }

  /** `new Cell(DefaultForeground, DefaultBackground, 0)`. */
  function FreshCell(s: Surface): Cell {
    Cell(s.defaultForeground, s.defaultBackground, 0, NoMirror, NoTransient)
  }

  /**
   * What `Resize` does to a carried-over cell when `clear` is set: the
   * colours become the defaults, the glyph becomes 0 and the transient state
   * is dropped; the mirror setting is not touched.
   */
  function ClearCell(s: Surface, c: Cell): Cell {
    c.(foreground := s.defaultForeground, background := s.defaultBackground,
       glyph := 0, transient := NoTransient)
  }

  /**
   * The cell `Resize` stores at (x, y) of the new grid. Validity is judged
   * against the OLD surface, because the program updates `Width` and `Height`
   * only after the copy loop.
   */
  function MigratedCell(s: Surface, clear: bool, x: int, y: int): Cell {
    if IsValidCell(s, x, y) then
      if clear then ClearCell(s, CellAt(s, x, y)) else CellAt(s, x, y)
    else FreshCell(s)
  }

  /** The new surface built by the copy loop of `Resize(w, h, clear, _)`. */
  function ResizeCells(s: Surface, w: nat, h: nat, clear: bool): (r: Surface)
    ensures r.width == w && r.height == h && |r.cells| == w * h
    ensures r.defaultForeground == s.defaultForeground && r.defaultBackground == s.defaultBackground
  {
    SurfaceData(w, h, RowMajor(w, h, (x, y) => MigratedCell(s, clear, x, y)),
                s.defaultForeground, s.defaultBackground)
  }

  /**
   * Every cell inside both the old and the new bounds is carried over to the
   * same coordinate; when `clear` is set it is reset instead of copied.
   */
  lemma ResizeKeepsOverlap(s: Surface, w: nat, h: nat, clear: bool, x: int, y: int)
    requires 0 <= x < w && 0 <= y < h && IsValidCell(s, x, y)
    ensures var r := ResizeCells(s, w, h, clear);
      CellAt(r, x, y) == (if clear then ClearCell(s, CellAt(s, x, y)) else CellAt(s, x, y))
  {
    RowMajorAt(w, h, (x, y) => MigratedCell(s, clear, x, y), x, y);
  }

  /** Every cell outside the old bounds is a fresh default cell, whatever `clear` says. */
  lemma ResizeFillsNewArea(s: Surface, w: nat, h: nat, clear: bool, x: int, y: int)
    requires 0 <= x < w && 0 <= y < h && !IsValidCell(s, x, y)
    ensures CellAt(ResizeCells(s, w, h, clear), x, y) == FreshCell(s)
  {
    RowMajorAt(w, h, (x, y) => MigratedCell(s, clear, x, y), x, y);
  }

  /**
   * After a clearing resize every cell has the default colours, glyph 0 and
   * no transient state; only the mirror setting of carried-over cells survives.
   */
  lemma ResizeClearResets(s: Surface, w: nat, h: nat)
    ensures var r := ResizeCells(s, w, h, true);
      forall x, y :: 0 <= x < w && 0 <= y < h ==>
        && CellAt(r, x, y).foreground == s.defaultForeground
        && CellAt(r, x, y).background == s.defaultBackground
        && CellAt(r, x, y).glyph == 0
        && CellAt(r, x, y).transient == NoTransient
  {
    var r := ResizeCells(s, w, h, true);
    forall x, y | 0 <= x < w && 0 <= y < h
      ensures CellAt(r, x, y).foreground == s.defaultForeground
      ensures CellAt(r, x, y).background == s.defaultBackground
      ensures CellAt(r, x, y).glyph == 0
      ensures CellAt(r, x, y).transient == NoTransient
    {
      RowMajorAt(w, h, (x, y) => MigratedCell(s, true, x, y), x, y);
    }
  }

  /** Resizing to the same size without clearing changes nothing. */
  lemma ResizeSameSizeIsIdentity(s: Surface)
    ensures ResizeCells(s, s.width, s.height, false) == s
  {
    var f := (x, y) => MigratedCell(s, false, x, y);
    forall x, y | 0 <= x < s.width && 0 <= y < s.height
      ensures s.cells[GridIndex(x, y, s.width, s.height)] == f(x, y)
    {
    }
    RowMajorUnique(s.width, s.height, f, s.cells);
  }

  /**
   * Growing a surface without clearing and then shrinking it back to its
   * original size restores it exactly.
   */
  lemma ResizeGrowShrinkRoundTrip(s: Surface, w: nat, h: nat)
    requires s.width <= w && s.height <= h
    ensures ResizeCells(ResizeCells(s, w, h, false), s.width, s.height, false) == s
  {
    var big := ResizeCells(s, w, h, false);
    var back := ResizeCells(big, s.width, s.height, false);
    forall x, y | 0 <= x < s.width && 0 <= y < s.height
      ensures back.cells[GridIndex(x, y, s.width, s.height)] == s.cells[GridIndex(x, y, s.width, s.height)]
    {
      ResizeKeepsOverlap(s, w, h, false, x, y);
      ResizeKeepsOverlap(big, s.width, s.height, false, x, y);
    }
    assert back.cells == s.cells by {
      forall i | 0 <= i < |s.cells|
        ensures back.cells[i] == s.cells[i]
      {
        IndexCovers(i, s.width, s.height);
        assert GridIndex(i % s.width, i / s.width, s.width, s.height) == i;
      }
    }
  }
}
