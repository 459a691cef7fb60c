/**
 * Integer geometry shared by the surface, the viewport and the render cache:
 * points, XNA-style rectangles, row-major linear indexing (`Point.ToIndex`)
 * and the row-major sequence builder that every grid in the model uses.
 */
module Geometry {

  /** A cell (or pixel) coordinate. */
  datatype Point = Point(x: int, y: int)

  /**
   * A rectangle as the graphics framework defines it: `x` is `Left`, `y` is
   * `Top`, and neither size is constrained to be non-negative.
   */
  datatype Rect = Rect(x: int, y: int, width: int, height: int) {

    /** Half-open containment: the right and bottom edges are outside. */
    predicate Contains(p: Point) {
      x <= p.x < x + width && y <= p.y < y + height
    }
  }

  /** The all-zero rectangle, the value of `default(Rectangle)`. */
  const EmptyRect: Rect := Rect(0, 0, 0, 0)

  /** Row-major linear index of cell (x, y) in a grid `width` cells wide. */
  function ToIndex(x: int, y: int, width: int): int {
    y * width + x
  }

  /**
   * `ToIndex` for a cell known to lie in a `w` by `h` grid, carrying the
   * bound on the index so that quantified statements about grids stay linear.
   */
  function GridIndex(x: int, y: int, w: nat, h: nat): (i: nat)
    requires 0 <= x < w && 0 <= y < h
    ensures i == ToIndex(x, y, w) && i < w * h
  {
    IndexInRange(x, y, w, h);
    ToIndex(x, y, w)
  }

  /** Every cell of a `w` by `h` grid has its index inside `[0, w*h)`. */
  lemma IndexInRange(x: int, y: int, w: int, h: int)
    requires 0 <= x < w && 0 <= y < h
    ensures 0 <= ToIndex(x, y, w) < w * h
  {
    assert y * w <= (h - 1) * w by { MulLeq(y, h - 1, w); }
    assert (h - 1) * w + w == h * w;
  }

  /** Rows fill the linear order: a cell of an earlier row comes before every cell of a later row. */
  lemma IndexBeforeRow(x: int, y: int, w: int, row: int)
    requires 0 <= x < w && y < row
    ensures ToIndex(x, y, w) < row * w
  {
    MulLeq(y + 1, row, w);
    assert (y + 1) * w == y * w + w;
  }

  /** Every index of a `w` by `h` grid names a cell: column `i % w`, row `i / w`. */
  lemma IndexCovers(i: int, w: nat, h: nat)
    requires 0 <= i < w * h
    ensures 0 < w && 0 <= i % w < w && 0 <= i / w < h
    ensures ToIndex(i % w, i / w, w) == i
  {
    if i / w >= h {
      MulLeq(h, i / w, w);
      assert false;
    }
  }

  /** Multiplication by a non-negative factor is monotone. */
  lemma MulLeq(a: int, b: int, w: int)
    requires a <= b
    ensures (0 <= w ==> a * w <= b * w) && (w <= 0 ==> b * w <= a * w)
  {
    assert b * w - a * w == (b - a) * w;
  }

  /**
   * The `w` by `h` grid whose slot at row-major index `ToIndex(x, y, w)` holds
   * `f(x, y)`: rows `0 .. h-1`, each with columns `0 .. w-1`, in the order a
   * nested `for y { for x { ... } }` loop visits them.
   */
  function RowMajor<T>(w: nat, h: nat, f: (int, int) -> T): (r: seq<T>)
    ensures |r| == w * h
    decreases h
  {
    if h == 0 then []
    else
      var prefix := RowMajor(w, h - 1, f);
      assert (h - 1) * w + w == h * w;
      prefix + seq(w, x => f(x, h - 1))
  }

  /** Slot (x, y) of a row-major grid holds `f(x, y)`. */
  lemma {:induction false} RowMajorAt<T>(w: nat, h: nat, f: (int, int) -> T, x: int, y: int)
    requires 0 <= x < w && 0 <= y < h
    ensures RowMajor(w, h, f)[GridIndex(x, y, w, h)] == f(x, y)
  {
    var prefix := RowMajor(w, h - 1, f);
    assert |prefix| == (h - 1) * w;
    if y == h - 1 {
      assert ToIndex(x, y, w) == |prefix| + x;
    } else {
      IndexBeforeRow(x, y, w, h - 1);
      RowMajorAt(w, h - 1, f, x, y);
    }
  }

  /**
   * A grid is determined by its slots: any sequence of length `w*h` that
   * holds `f(x, y)` at every `ToIndex(x, y, w)` is `RowMajor(w, h, f)`.
   */
  lemma RowMajorUnique<T>(w: nat, h: nat, f: (int, int) -> T, s: seq<T>)
    requires |s| == w * h
    requires forall x, y :: 0 <= x < w && 0 <= y < h ==> s[GridIndex(x, y, w, h)] == f(x, y)
    ensures s == RowMajor(w, h, f)
  {
    var r := RowMajor(w, h, f);
    forall i | 0 <= i < |s|
      ensures s[i] == r[i]
    {
      IndexCovers(i, w, h);
      RowMajorAt(w, h, f, i % w, i / w);
    }
  }
}
