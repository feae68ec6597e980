/** Pixel geometry of the garden canvas: points, squared distances and the
    clamp that keeps a plant's circle inside the drawing surface. */
module Geometry {

  /** Radius of a plant's circle; also the hit-test radius and the margin
      kept from every canvas edge. */
  const MarkerRadius: int := 25

  /** Pointer travel beyond which a press on a plant becomes a drag. */
  const DragThreshold: int := 5

  datatype Point = Point(x: int, y: int)

  const Origin: Point := Point(0, 0)

  function Sub(a: Point, b: Point): Point {
    Point(a.x - b.x, a.y - b.y)
  }

  /** Squared Euclidean distance; comparing it with the square of a radius
      decides the same questions as comparing the distance with the radius. */
  function DistSq(a: Point, b: Point): int {
    (a.x - b.x) * (a.x - b.x) + (a.y - b.y) * (a.y - b.y)
  }

  /** Distance between two values on one axis. */
  function Gap(a: int, b: int): nat { if a >= b then a - b else b - a }

  function Max(a: int, b: int): int { if a >= b then a else b }
  function Min(a: int, b: int): int { if a <= b then a else b }

  /** One coordinate of a dragged plant: `max(25, min(size - 25, v))`.
      The result never lies left of (above) the margin; it lies inside the
      far margin whenever the canvas is wide (tall) enough to have one; a
      value already inside both margins is kept; any other value is moved
      to the nearest bound. */
  function Clamp(v: int, size: int): (r: int)
    ensures MarkerRadius <= r
    ensures size >= 2 * MarkerRadius ==> r <= size - MarkerRadius
    ensures MarkerRadius <= v <= size - MarkerRadius ==> r == v
    ensures v < MarkerRadius ==> r == MarkerRadius
    ensures v > size - MarkerRadius ==> r == Max(MarkerRadius, size - MarkerRadius)
    // the clamped value is the admissible value nearest to v
    ensures forall w :: MarkerRadius <= w <= size - MarkerRadius ==> Gap(r, v) <= Gap(w, v)
  {
    Max(MarkerRadius, Min(size - MarkerRadius, v))
  }

  /** The position a plant takes when the pointer is at `pos` and was
      pressed `offset` away from the plant's centre. */
  function ClampPoint(pos: Point, offset: Point, width: int, height: int): (r: Point)
    ensures MarkerRadius <= r.x && MarkerRadius <= r.y
    ensures width >= 2 * MarkerRadius ==> r.x <= width - MarkerRadius
    ensures height >= 2 * MarkerRadius ==> r.y <= height - MarkerRadius
  {
    Point(Clamp(pos.x - offset.x, width), Clamp(pos.y - offset.y, height))
  }

  /** A centre whose circle lies wholly on a `width` by `height` surface. */
  predicate InBounds(p: Point, width: int, height: int) {
    MarkerRadius <= p.x <= width - MarkerRadius && MarkerRadius <= p.y <= height - MarkerRadius
  }

  /** A drop point whose circle already lies on the surface is kept as it
      is. */
  lemma ClampPointKeepsInBounds(pos: Point, offset: Point, width: int, height: int)
    requires InBounds(Sub(pos, offset), width, height)
    ensures ClampPoint(pos, offset, width, height) == Sub(pos, offset)
  {
  }

  /** On a surface at least two radii wide and tall every clamped point is
      in bounds, and clamping twice is clamping once. */
  lemma ClampPointInBounds(pos: Point, offset: Point, width: int, height: int)
    requires width >= 2 * MarkerRadius && height >= 2 * MarkerRadius
    ensures InBounds(ClampPoint(pos, offset, width, height), width, height)
    ensures ClampPoint(ClampPoint(pos, offset, width, height), Origin, width, height)
            == ClampPoint(pos, offset, width, height)
  {
  }

  /** On a surface narrower (shorter) than two radii every plant is pinned
      at the near margin. */
  lemma ClampOnNarrowCanvas(v: int, size: int)
    requires size < 2 * MarkerRadius
    ensures Clamp(v, size) == MarkerRadius
  {
  }
}
