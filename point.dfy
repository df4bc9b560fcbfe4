/** Points of a two-dimensional coordinate space.

    The type parameter `Space` is the coordinate-space tag: it carries no
    data and only keeps points of different spaces apart at type level,
    the way a phantom marker does. Coordinates are real numbers standing
    for double-precision floats. */
module Points {

  datatype Point<Space> = Point(x: real, y: real) {

    /** `Point::new`: a point with exactly the given coordinates. */
    static function New(x: real, y: real): (p: Point<Space>)
      ensures p.x == x
      ensures p.y == y
    {
      Point(x, y)
    }
  }

  /** Derived equality compares the two coordinates and nothing else: the
      tag contributes no data, so equal coordinates mean equal points. */
  lemma EqualityIsCoordinatewise<S>(p: Point<S>, q: Point<S>)
    ensures p == q <==> p.x == q.x && p.y == q.y
  {
  }

  /** Building a point twice from the same coordinates (what `clone`
      amounts to for this plain record) gives equal points, and different
      coordinates give different points. */
  lemma NewIsInjective<S>(x1: real, y1: real, x2: real, y2: real)
    ensures Point<S>.New(x1, y1) == Point<S>.New(x2, y2) <==> x1 == x2 && y1 == y2
  {
  }
}
