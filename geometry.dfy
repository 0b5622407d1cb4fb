/** The optional value the tool keeps for a crop selection that may not exist yet. */
module Options {
  datatype Option<+T> = None | Some(value: T)
}

/**
 * Integer points, sizes and rectangles with the semantics of Qt 5's QPoint, QSize
 * and QRect. A QRect stores its left/top and right/bottom edges inclusively, so
 * its width is `right - left + 1`; a rectangle whose right edge lies left of its
 * left edge has a negative width.
 */
module Geometry {
  datatype Point = Point(x: int, y: int)

  /** Pixel extent of an image. */
  datatype Size = Size(width: nat, height: nat)

  datatype Rect = Rect(x: int, y: int, width: int, height: int) {
    /** QRect::right(): the inclusive right edge. */
    function Right(): int { x + width - 1 }

    /** QRect::bottom(): the inclusive bottom edge. */
    function Bottom(): int { y + height - 1 }
  }

  function Min(a: int, b: int): int { if a <= b then a else b }
  function Max(a: int, b: int): int { if a <= b then b else a }

  /** QRect(topLeft, bottomRight): both corners belong to the rectangle. */
  function Spanned(topLeft: Point, bottomRight: Point): (r: Rect)
    ensures r.x == topLeft.x && r.y == topLeft.y
    ensures r.Right() == bottomRight.x && r.Bottom() == bottomRight.y
  {
    Rect(topLeft.x, topLeft.y, bottomRight.x - topLeft.x + 1, bottomRight.y - topLeft.y + 1)
  }

  /**
   * QRect(p, QSize()): a default QSize is (-1, -1), so the rectangle has its
   * top-left corner at p and is not valid.
   */
  function EmptyAt(p: Point): (r: Rect)
    ensures r.x == p.x && r.y == p.y
    ensures !IsValid(r)
  {
    Rect(p.x, p.y, -1, -1)
  }

  /** QRect::isValid(): left <= right and top <= bottom. */
  predicate IsValid(r: Rect) {
    r.x <= r.Right() && r.y <= r.Bottom()
  }

  /**
   * QRect::normalized() in Qt 5: the left and right edges are swapped when the
   * width is negative, and the top and bottom edges when the height is negative.
   */
  function Normalized(r: Rect): (n: Rect)
    ensures n.width >= 0 && n.height >= 0
    ensures if r.width < 0 then n.x == r.Right() && n.Right() == r.x
            else n.x == r.x && n.width == r.width
    ensures if r.height < 0 then n.y == r.Bottom() && n.Bottom() == r.y
            else n.y == r.y && n.height == r.height
  {
    var left := if r.width < 0 then r.Right() else r.x;
    var right := if r.width < 0 then r.x else r.Right();
    var top := if r.height < 0 then r.Bottom() else r.y;
    var bottom := if r.height < 0 then r.y else r.Bottom();
    Spanned(Point(left, top), Point(right, bottom))
  }

  /**
   * The rubber band a drag draws, `QRect(origin, pos).normalized()`: its size is
   * never negative and, per axis, it runs from the smaller to the larger of the
   * two coordinates. The one exception is Qt 5's: a pointer exactly one pixel
   * left of (above) the origin gives a rectangle of width (height) 0 at the origin.
   */
  lemma DragRectangle(origin: Point, pos: Point)
    ensures Normalized(Spanned(origin, pos)).width >= 0
    ensures Normalized(Spanned(origin, pos)).height >= 0
    ensures pos.x != origin.x - 1 ==>
      Normalized(Spanned(origin, pos)).x == Min(origin.x, pos.x) &&
      Normalized(Spanned(origin, pos)).Right() == Max(origin.x, pos.x)
    ensures pos.x == origin.x - 1 ==>
      Normalized(Spanned(origin, pos)).x == origin.x && Normalized(Spanned(origin, pos)).width == 0
    ensures pos.y != origin.y - 1 ==>
      Normalized(Spanned(origin, pos)).y == Min(origin.y, pos.y) &&
      Normalized(Spanned(origin, pos)).Bottom() == Max(origin.y, pos.y)
    ensures pos.y == origin.y - 1 ==>
      Normalized(Spanned(origin, pos)).y == origin.y && Normalized(Spanned(origin, pos)).height == 0
  {
  }

  /** A drag over at least one pixel in each direction selects a valid rectangle. */
  lemma DragValidity(origin: Point, pos: Point)
    ensures IsValid(Normalized(Spanned(origin, pos))) <==>
      pos.x != origin.x - 1 && pos.y != origin.y - 1
  {
  }
}
