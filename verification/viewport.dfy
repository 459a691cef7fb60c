/**
 * Viewport normalisation, shared by the `ViewPort` setter and the console
 * constructor (the program repeats the same sequence of clamps in both).
 */
module Viewport {
  import opened Geometry

  /** The viewport lies wholly on a `width` by `height` surface. */
  predicate InBounds(v: Rect, width: int, height: int) {
    && 0 <= v.x && 0 <= v.y
    && 0 <= v.width && 0 <= v.height
    && v.x + v.width <= width && v.y + v.height <= height
  }

  function Min(a: int, b: int): int { if a <= b then a else b }

  function Max(a: int, b: int): int { if a <= b then b else a }

  /**
   * The program's clamps, in the program's order: the default rectangle means
   * the whole surface; an over-large size is cut to the surface size; a
   * negative origin is moved to 0; an origin that pushes the far edge past the
   * surface is pulled back so that the far edge meets the surface edge.
   */
  function Normalize(r: Rect, width: nat, height: nat): (v: Rect)
    // a rectangle with non-negative size ends up wholly on the surface
    ensures r.width >= 0 && r.height >= 0 ==> InBounds(v, width, height)
    // the default rectangle stands for the whole surface
    ensures r == EmptyRect ==> v == Rect(0, 0, width, height)
    // a rectangle already on the surface is kept as it is
    ensures r != EmptyRect && InBounds(r, width, height) ==> v == r
    // a size is changed only where it exceeds the surface
    ensures r != EmptyRect ==> v.width == Min(r.width, width) && v.height == Min(r.height, height)
  {
    var r0 := if r == EmptyRect then Rect(0, 0, width, height) else r;
    var r1 := if r0.width > width then r0.(width := width) else r0;
    var r2 := if r1.height > height then r1.(height := height) else r1;
    var r3 := if r2.x < 0 then r2.(x := 0) else r2;
    var r4 := if r3.y < 0 then r3.(y := 0) else r3;
    var r5 := if r4.x + r4.width > width then r4.(x := width - r4.width) else r4;
    var r6 := if r5.y + r5.height > height then r5.(y := height - r5.height) else r5;
    r6
  }

  /**
   * Closed form of the clamps for any rectangle other than the default: the
   * size is the requested size capped at the surface size, and the origin is
   * the requested origin clamped into `[0, surface - size]`.
   */
  lemma NormalizeClosedForm(r: Rect, width: nat, height: nat)
    requires r != EmptyRect
    ensures var w := Min(r.width, width);
      var h := Min(r.height, height);
      Normalize(r, width, height) == Rect(Min(Max(r.x, 0), width - w), Min(Max(r.y, 0), height - h), w, h)
  {
  }

  /**
   * Normalising again changes nothing, unless the first result is the
   * default rectangle, which the second pass reads as "whole surface".
   */
  lemma NormalizeIdempotent(r: Rect, width: nat, height: nat)
    requires Normalize(r, width, height) != EmptyRect
    ensures Normalize(Normalize(r, width, height), width, height) == Normalize(r, width, height)
  {
  }

  /**
   * The exception to idempotence: a zero-size rectangle left of the surface
   * is moved to the origin, where it becomes the default rectangle, so
   * assigning the viewport its own value then selects the whole surface.
   */
  lemma NormalizeZeroSizeBecomesDefault(width: nat, height: nat)
    ensures Normalize(Rect(-1, 0, 0, 0), width, height) == EmptyRect
    ensures Normalize(Normalize(Rect(-1, 0, 0, 0), width, height), width, height) == Rect(0, 0, width, height)
  {
  }
}
