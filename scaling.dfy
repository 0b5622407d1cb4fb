/**
 * Conversion from the coordinates of the displayed (scaled) screenshot to those
 * of the full-resolution capture. Each coordinate is multiplied by the ratio
 * original/scaled of its axis and truncated toward zero, as Python's `int()`
 * does; the ratio is taken as an exact rational number.
 */
module Scaling {
  import opened Geometry

  /** The size every capture is scaled to for display (`display_image`). */
  const DISPLAY: Size := Size(1650, 700)

  /**
   * n / d truncated toward zero: the floor for n >= 0 and the ceiling for n < 0
   * (Dafny's own `/` is Euclidean, so negative numerators are handled apart).
   */
  function TruncDiv(n: int, d: int): (q: int)
    requires d > 0
    ensures n >= 0 ==> 0 <= q && q * d <= n < q * d + d
    ensures n < 0 ==> q <= 0 && q * d - d < n <= q * d
  {
    if n >= 0 then
      DivBounds(n, d);
      n / d
    else
      DivBounds(-n, d);
      -((-n) / d)
  }

  /** Dafny's `/` on a non-negative numerator is the floor. */
  lemma DivBounds(n: int, d: int)
    requires n >= 0 && d > 0
    ensures 0 <= n / d && (n / d) * d <= n < (n / d) * d + d
  {
    var q, r := n / d, n % d;
    assert n == q * d + r && 0 <= r < d;
  }

  /** `int(c * (original / scaled))` on one axis. */
  function ScaleCoord(c: int, original: nat, scaled: nat): (r: int)
    requires scaled > 0
    ensures c * original >= 0 ==> 0 <= r && r * scaled <= c * original < r * scaled + scaled
    ensures c * original < 0 ==> r <= 0 && r * scaled - scaled < c * original <= r * scaled
  {
    TruncDiv(c * original, scaled)
  }

  /** The point mapping of `draw_arrow`: both axes, each with its own ratio. */
  function MapPoint(p: Point, original: Size, scaled: Size): (m: Point)
    requires scaled.width > 0 && scaled.height > 0
    ensures p.x >= 0 ==> 0 <= m.x && m.x * scaled.width <= p.x * original.width
    ensures p.y >= 0 ==> 0 <= m.y && m.y * scaled.height <= p.y * original.height
  {
    Point(ScaleCoord(p.x, original.width, scaled.width),
          ScaleCoord(p.y, original.height, scaled.height))
  }

  /** `_scale_rect`: x and width scale by the horizontal ratio, y and height by the vertical one. */
  function ScaleRect(r: Rect, original: Size, scaled: Size): (m: Rect)
    requires scaled.width > 0 && scaled.height > 0
    ensures r.x >= 0 && r.y >= 0 && r.width >= 0 && r.height >= 0 ==>
      m.x >= 0 && m.y >= 0 && m.width >= 0 && m.height >= 0
  {
    Rect(ScaleCoord(r.x, original.width, scaled.width),
         ScaleCoord(r.y, original.height, scaled.height),
         ScaleCoord(r.width, original.width, scaled.width),
         ScaleCoord(r.height, original.height, scaled.height))
  }

  lemma MulMonotone(a: int, b: int, k: nat)
    requires a <= b
    ensures a * k <= b * k
  {
  }

  lemma MulCancel(a: int, b: int, d: int)
    requires d > 0 && a * d < b * d
    ensures a < b
  {
  }

  /** The quotient is determined by the bounds of TruncDiv's contract. */
  lemma {:induction false} TruncDivUnique(n: int, d: int, q: int)
    requires d > 0 && n >= 0 && 0 <= q
    requires q * d <= n < q * d + d
    ensures TruncDiv(n, d) == q
  {    var r := TruncDiv(n, d);
    assert (q + 1) * d == q * d + d;
    assert (r + 1) * d == r * d + d;
    MulCancel(r, q + 1, d);
    MulCancel(q, r + 1, d);
  }

  lemma {:induction false} TruncDivMonotone(n1: int, n2: int, d: int)
    requires d > 0 && n1 <= n2
    ensures TruncDiv(n1, d) <= TruncDiv(n2, d)
  {    var q1, q2 := TruncDiv(n1, d), TruncDiv(n2, d);
    if n1 < 0 <= n2 {
      // q1 <= 0 <= q2
    } else {
      // q1 * d <= n1 <= n2 < q2 * d + d, or q1 * d - d < n1 <= n2 <= q2 * d
      assert (q2 + 1) * d == q2 * d + d;
      MulCancel(q1, q2 + 1, d);
    }
  }

  /** Truncation toward zero is symmetric about zero, unlike the floor. */
  lemma TruncDivOdd(n: int, d: int)
    requires d > 0
    ensures TruncDiv(-n, d) == -TruncDiv(n, d)
  {
  }

  /** The per-axis mapping is symmetric about zero, as truncation is. */
  lemma ScaleCoordOdd(c: int, original: nat, scaled: nat)
    requires scaled > 0
    ensures ScaleCoord(-c, original, scaled) == -ScaleCoord(c, original, scaled)
  {
    assert (-c) * original == -(c * original);
    TruncDivOdd(c * original, scaled);
  }

  /** A negative coordinate, from a drag that left the label, rounds toward zero. */
  lemma ScaleCoordNegative(c: int, original: nat, scaled: nat)
    requires scaled > 0 && c < 0
    ensures ScaleCoord(c, original, scaled) == -ScaleCoord(-c, original, scaled)
    ensures ScaleCoord(c, original, scaled) <= 0
    ensures c * original <= ScaleCoord(c, original, scaled) * scaled
  {
    assert (-c) * original == -(c * original);
    TruncDivOdd(c * original, scaled);
  }

  /** Non-negative coordinates map to non-negative coordinates. */
  lemma ScaleCoordNonNegative(c: int, original: nat, scaled: nat)
    requires scaled > 0 && c >= 0
    ensures ScaleCoord(c, original, scaled) >= 0
  {
    MulMonotone(0, c, original);
  }

  /** Each axis mapping is monotone, for negative coordinates too. */
  lemma {:induction false} ScaleCoordMonotone(a: int, b: int, original: nat, scaled: nat)
    requires scaled > 0 && a <= b
    ensures ScaleCoord(a, original, scaled) <= ScaleCoord(b, original, scaled)
  {
    MulMonotone(a, b, original);
    TruncDivMonotone(a * original, b * original, scaled);
  }

  /** The far edge of the displayed image maps to the far edge of the original. */
  lemma {:induction false} ScaleCoordFullExtent(original: nat, scaled: nat)
    requires scaled > 0
    ensures ScaleCoord(scaled, original, scaled) == original
  {
    assert original * scaled == scaled * original;
    TruncDivUnique(scaled * original, scaled, original);
  }

  /** With equal original and scaled extents the mapping is the identity. */
  lemma {:induction false} ScaleCoordIdentity(c: int, extent: nat)
    requires extent > 0
    ensures ScaleCoord(c, extent, extent) == c
  {
    if c >= 0 {
      MulMonotone(0, c, extent);
      TruncDivUnique(c * extent, extent, c);
    } else {
      MulMonotone(0, -c, extent);
      assert (-c) * extent == -(c * extent);
      TruncDivUnique((-c) * extent, extent, -c);
      TruncDivOdd(c * extent, extent);
    }
  }

  /** Truncating two non-negative parts separately never exceeds truncating their sum. */
  lemma {:induction false} TruncDivSuperadditive(n1: int, n2: int, d: int)
    requires d > 0 && n1 >= 0 && n2 >= 0
    ensures TruncDiv(n1, d) + TruncDiv(n2, d) <= TruncDiv(n1 + n2, d)
  {    var q1, q2, q := TruncDiv(n1, d), TruncDiv(n2, d), TruncDiv(n1 + n2, d);
    assert (q1 + q2) * d == q1 * d + q2 * d;
    assert (q + 1) * d == q * d + d;
    MulCancel(q1 + q2, q + 1, d);
  }

  lemma {:induction false} ScaleCoordSuperadditive(a: int, b: int, original: nat, scaled: nat)
    requires scaled > 0 && a >= 0 && b >= 0
    ensures ScaleCoord(a, original, scaled) + ScaleCoord(b, original, scaled)
            <= ScaleCoord(a + b, original, scaled)
  {
    MulMonotone(0, a, original);
    MulMonotone(0, b, original);
    assert (a + b) * original == a * original + b * original;
    TruncDivSuperadditive(a * original, b * original, scaled);
  }

  /**
   * A coordinate inside the displayed image, 0 <= c < scaled, maps inside the
   * original image, 0 <= result < original.
   */
  lemma {:induction false} ScaleCoordInside(c: int, original: nat, scaled: nat)
    requires scaled > 0 && 0 <= c < scaled
    ensures 0 <= ScaleCoord(c, original, scaled)
    ensures original > 0 ==> ScaleCoord(c, original, scaled) < original
  {    ScaleCoordNonNegative(c, original, scaled);
    if original > 0 {
      var q := ScaleCoord(c, original, scaled);
      // q * scaled <= c * original <= (scaled - 1) * original < original * scaled
      MulMonotone(c, scaled - 1, original);
      assert (scaled - 1) * original == scaled * original - original;
      assert scaled * original == original * scaled;
      MulCancel(q, original, scaled);
    }
  }

  /**
   * A crop rectangle lying inside the displayed image maps to a rectangle lying
   * inside the original image.
   */
  lemma {:induction false} ScaleRectInside(r: Rect, original: Size, scaled: Size)
    requires scaled.width > 0 && scaled.height > 0
    requires r.x >= 0 && r.y >= 0 && r.width >= 0 && r.height >= 0
    requires r.x + r.width <= scaled.width && r.y + r.height <= scaled.height
    ensures ScaleRect(r, original, scaled).x >= 0 && ScaleRect(r, original, scaled).y >= 0
    ensures ScaleRect(r, original, scaled).x + ScaleRect(r, original, scaled).width <= original.width
    ensures ScaleRect(r, original, scaled).y + ScaleRect(r, original, scaled).height <= original.height
  {
    ScaleCoordSuperadditive(r.x, r.width, original.width, scaled.width);
    ScaleCoordMonotone(r.x + r.width, scaled.width, original.width, scaled.width);
    ScaleCoordFullExtent(original.width, scaled.width);
    ScaleCoordSuperadditive(r.y, r.height, original.height, scaled.height);
    ScaleCoordMonotone(r.y + r.height, scaled.height, original.height, scaled.height);
    ScaleCoordFullExtent(original.height, scaled.height);
  }

  /** Point mapping is monotone on each axis. */
  lemma MapPointMonotone(a: Point, b: Point, original: Size, scaled: Size)
    requires scaled.width > 0 && scaled.height > 0
    ensures a.x <= b.x ==> MapPoint(a, original, scaled).x <= MapPoint(b, original, scaled).x
    ensures a.y <= b.y ==> MapPoint(a, original, scaled).y <= MapPoint(b, original, scaled).y
  {
    if a.x <= b.x {
      ScaleCoordMonotone(a.x, b.x, original.width, scaled.width);
    }
    if a.y <= b.y {
      ScaleCoordMonotone(a.y, b.y, original.height, scaled.height);
    }
  }

  /**
   * Arrow endpoints and rectangle origins use the same per-axis formula: the
   * mapped origin of a rectangle is its origin mapped as a point, for every size.
   */
  lemma RectOriginMapsAsPoint(r: Rect, original: Size, scaled: Size)
    requires scaled.width > 0 && scaled.height > 0
    ensures MapPoint(Point(r.x, r.y), original, scaled) ==
      Point(ScaleRect(r, original, scaled).x, ScaleRect(r, original, scaled).y)
  {
  }

  /** When the original and displayed sizes agree, points and rectangles are left as they are. */
  lemma MappingIdentity(p: Point, r: Rect, size: Size)
    requires size.width > 0 && size.height > 0
    ensures MapPoint(p, size, size) == p
    ensures ScaleRect(r, size, size) == r
  {
    ScaleCoordIdentity(p.x, size.width);
    ScaleCoordIdentity(p.y, size.height);
    ScaleCoordIdentity(r.x, size.width);
    ScaleCoordIdentity(r.y, size.height);
    ScaleCoordIdentity(r.width, size.width);
    ScaleCoordIdentity(r.height, size.height);
  }

  /** A point inside the displayed image maps to a pixel of the original image. */
  lemma MapPointInside(p: Point, original: Size, scaled: Size)
    requires scaled.width > 0 && scaled.height > 0 && original.width > 0 && original.height > 0
    requires 0 <= p.x < scaled.width && 0 <= p.y < scaled.height
    ensures 0 <= MapPoint(p, original, scaled).x < original.width
    ensures 0 <= MapPoint(p, original, scaled).y < original.height
  {
    ScaleCoordInside(p.x, original.width, scaled.width);
    ScaleCoordInside(p.y, original.height, scaled.height);
  }

  lemma {:induction false} ScaleCoordRoundTripNonNegative(c: int, original: nat, scaled: nat)
    requires 0 < scaled <= original && c >= 0
    ensures c - 1 <= ScaleCoord(ScaleCoord(c, original, scaled), scaled, original) <= c
  {    var m := ScaleCoord(c, original, scaled);
    ScaleCoordNonNegative(c, original, scaled);
    var back := ScaleCoord(m, scaled, original);
    assert (c + 1) * original == c * original + original;
    assert (back + 2) * original == back * original + 2 * original;
    // back * original <= m * scaled <= c * original < (c + 1) * original
    MulCancel(back, c + 1, original);
    // c * original < m * scaled + scaled < back * original + original + scaled <= (back + 2) * original
    MulCancel(c, back + 2, original);
  }

  /**
   * Mapping a coordinate to the original image and back with the inverse ratio
   * loses at most one unit toward zero, when the original is at least as large
   * as the display.
   */
  lemma {:induction false} ScaleCoordRoundTrip(c: int, original: nat, scaled: nat)
    requires 0 < scaled <= original
    ensures c >= 0 ==> c - 1 <= ScaleCoord(ScaleCoord(c, original, scaled), scaled, original) <= c
    ensures c < 0 ==> c <= ScaleCoord(ScaleCoord(c, original, scaled), scaled, original) <= c + 1
  {
    if c >= 0 {
      ScaleCoordRoundTripNonNegative(c, original, scaled);
    } else {
      var m := ScaleCoord(-c, original, scaled);
      ScaleCoordRoundTripNonNegative(-c, original, scaled);
      ScaleCoordOdd(c, original, scaled);
      ScaleCoordOdd(m, scaled, original);
    }
  }

  /**
   * On a 1920x1080 capture the centre of the display maps to the centre of the
   * capture, and a pointer one pixel left of the label maps to -1 (truncation
   * toward zero), where a floor would give -2.
   */
  lemma ScalingExamples()
    ensures MapPoint(Point(825, 350), Size(1920, 1080), DISPLAY) == Point(960, 540)
    ensures MapPoint(Point(-1, -1), Size(1920, 1080), DISPLAY) == Point(-1, -1)
  {
  }
}
