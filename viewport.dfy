/** Viewports and the coordinate transformer between two of them.

    A viewport is the rectangle [x1, x1 + dx] x [y1, y1 + dy] of a tagged
    coordinate space; a negative extent means that axis is flipped. The
    transformer sends one viewport onto another with one uniform scale
    magnitude (so the aspect ratio is kept), a per-axis sign (so a flipped
    axis is handled), and the source centre onto the destination centre.
    The closure the transformer returns is modelled by the datatype
    Transform holding the scalars it captures. */
module Viewports {
  import opened Points
  import opened Fractals

  function Abs(x: real): real
  {
    if x < 0.0 then -x else x
  }

  function Max(a: real, b: real): real
  {
    if a < b then b else a
  }

  /** The captured state of the transformer closure. */
  datatype Transform<S, T> = Transform(
    xFactor: real, yFactor: real,
    centerOrigX: real, centerOrigY: real,
    centerNewX: real, centerNewY: real)
  {
    /** Calling the closure on a point of the source space. */
    function Apply(point: Point<S>): Point<T>
    {
      Point.New((point.x - centerOrigX) * xFactor + centerNewX,
                (point.y - centerOrigY) * yFactor + centerNewY)
    }
  }

  datatype Viewport<Space> = Viewport(x1: real, y1: real, dx: real, dy: real) {

    /** `Viewport::new` stores the four fields unchanged. */
    static function New(x1: real, y1: real, dx: real, dy: real): (v: Viewport<Space>)
      ensures v.x1 == x1 && v.y1 == y1 && v.dx == dx && v.dy == dy
    {
      Viewport(x1, y1, dx, dy)
    }

    /** A viewport whose extents are both non-zero. */
    predicate NonDegenerate()
    {
      dx != 0.0 && dy != 0.0
    }

    function Center(): Point<Space>
    {
      Point(x1 + dx / 2.0, y1 + dy / 2.0)
    }

    /** `transformer`: the map from this viewport's space to `newVp`'s
        space, as the scalars its closure captures. Dividing by this
        viewport's extents needs them non-zero. */
    function Transformer<T>(newVp: Viewport<T>): Transform<Space, T>
      requires NonDegenerate()
    {
      var dx_factor := newVp.dx / dx;
      var dy_factor := newVp.dy / dy;
      var factor := Max(Abs(dx_factor), Abs(dy_factor));
      var x_factor := if dx_factor < 0.0 then -factor else factor;
      var y_factor := if dy_factor < 0.0 then -factor else factor;
      var center_orig_x := x1 + dx / 2.0;
      var center_orig_y := y1 + dy / 2.0;
      var center_new_x := newVp.x1 + newVp.dx / 2.0;
      var center_new_y := newVp.y1 + newVp.dy / 2.0;
      Transform(x_factor, y_factor, center_orig_x, center_orig_y, center_new_x, center_new_y)
    }

    /** `decorate_pixelator`: a pixelator over this viewport's space that
        transforms each point into `newVp`'s space and asks `pixelator`. */
    function DecoratePixelator<T>(newVp: Viewport<T>, pixelator: Pixelator<T>): ViewPortDecorator<Space, T>
      requires NonDegenerate()
    {
      ViewPortDecorator(Transformer(newVp), pixelator)
    }
  }

  /** The pixelator built by `decorate_pixelator`. */
  datatype ViewPortDecorator<S, !T> = ViewPortDecorator(transformer: Transform<S, T>, pixelator: Pixelator<T>) {

    ghost predicate Defined(point: Point<S>)
    {
      pixelator.requires(transformer.Apply(point))
    }

    /** `get_pixel`: the inner pixelator at the transformed point. */
    function GetPixel(point: Point<S>): Rgba
      requires Defined(point)
    {
      pixelator(transformer.Apply(point))
    }

    /** The decorator as a pixelator value, to be decorated in turn. */
    function AsPixelator(): Pixelator<S>
    {
      point requires Defined(point) => GetPixel(point)
    }
  }

  // -----------------------------------------------------------------------
  // Properties of the transformer

  /** The centre of the source viewport lands exactly on the centre of the
      destination viewport. */
  lemma TransformerMapsCenter<S, T>(a: Viewport<S>, b: Viewport<T>)
    requires a.NonDegenerate()
    ensures a.Transformer(b).Apply(a.Center()) == b.Center()
  {
    var t := a.Transformer(b);
    assert a.Center().x - t.centerOrigX == 0.0;
    assert a.Center().y - t.centerOrigY == 0.0;
  }

  /** The transformer pivots on the two centres: it subtracts the centre
      of this viewport and adds the centre of the new one. */
  lemma TransformerCentres<S, T>(a: Viewport<S>, b: Viewport<T>)
    requires a.NonDegenerate()
    ensures var t := a.Transformer(b);
      && t.centerOrigX == a.Center().x && t.centerOrigY == a.Center().y
      && t.centerNewX == b.Center().x && t.centerNewY == b.Center().y
  {
  }

  /** Both axes use the same scale magnitude, the larger of the two ratio
      magnitudes, and each axis factor is negative exactly when that axis's
      ratio is negative. */
  lemma TransformerScale<S, T>(a: Viewport<S>, b: Viewport<T>)
    requires a.NonDegenerate()
    ensures var t := a.Transformer(b);
      && Abs(t.xFactor) == Abs(t.yFactor) == Max(Abs(b.dx / a.dx), Abs(b.dy / a.dy))
      && (t.xFactor < 0.0 <==> b.dx / a.dx < 0.0)
      && (t.yFactor < 0.0 <==> b.dy / a.dy < 0.0)
  {
  }

  /** Each output coordinate depends on the matching input coordinate only. */
  lemma AxesAreIndependent<S, T>(t: Transform<S, T>, p: Point<S>, q: Point<S>)
    ensures p.x == q.x ==> t.Apply(p).x == t.Apply(q).x
    ensures p.y == q.y ==> t.Apply(p).y == t.Apply(q).y
  {
  }

  /** When both axis ratios have the same magnitude, each axis factor is
      exactly that axis's ratio. */
  lemma FactorsAreRatios<S, T>(a: Viewport<S>, b: Viewport<T>)
    requires a.NonDegenerate()
    requires Abs(b.dx / a.dx) == Abs(b.dy / a.dy)
    ensures a.Transformer(b).xFactor == b.dx / a.dx
    ensures a.Transformer(b).yFactor == b.dy / a.dy
  {
  }

  /** Along one axis, scaling by r and then by s with r * s == 1 about
      matching centres returns the original coordinate. */
  lemma AxisRoundTrip(v: real, centerA: real, centerB: real, r: real, s: real)
    requires r * s == 1.0
    ensures ((v - centerA) * r + centerB - centerB) * s + centerA == v
  {
    assert (v - centerA) * r * s == (v - centerA) * (r * s);
  }

  /** Two captured transforms with reciprocal factors and swapped centres
      undo each other. */
  lemma TransformsCancel<S, T>(f: Transform<S, T>, g: Transform<T, S>, p: Point<S>)
    requires f.xFactor * g.xFactor == 1.0 && f.yFactor * g.yFactor == 1.0
    requires g.centerOrigX == f.centerNewX && g.centerOrigY == f.centerNewY
    requires g.centerNewX == f.centerOrigX && g.centerNewY == f.centerOrigY
    ensures g.Apply(f.Apply(p)) == p
  {
    AxisRoundTrip(p.x, f.centerOrigX, f.centerNewX, f.xFactor, g.xFactor);
    AxisRoundTrip(p.y, f.centerOrigY, f.centerNewY, f.yFactor, g.yFactor);
  }

  /** Ratios of non-zero extents and their inverses multiply to one, in
      value and in magnitude. */
  lemma Reciprocal(x: real, y: real)
    requires x != 0.0 && y != 0.0
    ensures (y / x) * (x / y) == 1.0
    ensures Abs(y / x) * Abs(x / y) == 1.0
  {
  }

  /** Equal ratio magnitudes from A to B mean equal ratio magnitudes from
      B to A. */
  lemma EqualAspectIsSymmetric<S, T>(a: Viewport<S>, b: Viewport<T>)
    requires a.NonDegenerate() && b.NonDegenerate()
    requires Abs(b.dx / a.dx) == Abs(b.dy / a.dy)
    ensures Abs(a.dx / b.dx) == Abs(a.dy / b.dy)
  {
    Reciprocal(a.dx, b.dx);
    Reciprocal(a.dy, b.dy);
    assert Abs(b.dx / a.dx) * Abs(a.dx / b.dx) == Abs(b.dx / a.dx) * Abs(a.dy / b.dy);
  }

  /** Round trip: with equal aspect ratios, the transformer back from B to
      A undoes the transformer from A to B. */
  lemma RoundTrip<S, T>(a: Viewport<S>, b: Viewport<T>, p: Point<S>)
    requires a.NonDegenerate() && b.NonDegenerate()
    requires Abs(b.dx / a.dx) == Abs(b.dy / a.dy)
    ensures b.Transformer(a).Apply(a.Transformer(b).Apply(p)) == p
  {
    EqualAspectIsSymmetric(a, b);
    FactorsAreRatios(a, b);
    FactorsAreRatios(b, a);
    Reciprocal(a.dx, b.dx);
    Reciprocal(a.dy, b.dy);
    TransformsCancel(a.Transformer(b), b.Transformer(a), p);
  }

  lemma AbsScale(x: real, k: real)
    requires k > 0.0
    ensures Abs(x * k) == Abs(x) * k
    ensures x * k < 0.0 <==> x < 0.0
  {
    if x < 0.0 {
      assert x * k < 0.0;
    } else {
      assert x * k >= 0.0;
    }
  }

  lemma MaxScale(x: real, y: real, k: real)
    requires k > 0.0
    ensures Max(x * k, y * k) == Max(x, y) * k
  {
    if x < y {
      assert x * k < y * k;
    } else {
      assert x * k >= y * k;
    }
  }

  /** The factors of the transformer in terms of the two axis ratios. */
  lemma TransformerFactors<S, T>(a: Viewport<S>, b: Viewport<T>, rx: real, ry: real)
    requires a.NonDegenerate() && rx == b.dx / a.dx && ry == b.dy / a.dy
    ensures a.Transformer(b).xFactor == if rx < 0.0 then -Max(Abs(rx), Abs(ry)) else Max(Abs(rx), Abs(ry))
    ensures a.Transformer(b).yFactor == if ry < 0.0 then -Max(Abs(rx), Abs(ry)) else Max(Abs(rx), Abs(ry))
  {
  }

  /** A factor with the sign of r and magnitude m scales linearly with a
      positive k when both r and m do. */
  lemma SignedScales(r: real, m: real, k: real)
    requires k > 0.0
    ensures (if r * k < 0.0 then -(m * k) else m * k) == (if r < 0.0 then -m else m) * k
  {
    AbsScale(r, k);
  }

  /** Scaling both extents of the destination by k > 0 scales both axis
      factors by k. */
  lemma ScaledDestination<S, T>(a: Viewport<S>, b: Viewport<T>, b': Viewport<T>, k: real)
    requires a.NonDegenerate() && k > 0.0
    requires b'.dx == b.dx * k && b'.dy == b.dy * k
    ensures a.Transformer(b').xFactor == a.Transformer(b).xFactor * k
    ensures a.Transformer(b').yFactor == a.Transformer(b).yFactor * k
  {
    var rx, ry := b.dx / a.dx, b.dy / a.dy;
    ScaledRatio(b.dx, a.dx, k);
    ScaledRatio(b.dy, a.dy, k);
    ScaledRatios(a, b, b', k, rx, ry);
  }

  /** ScaledDestination, once the destination ratios are known to scale. */
  lemma ScaledRatios<S, T>(a: Viewport<S>, b: Viewport<T>, b': Viewport<T>, k: real, rx: real, ry: real)
    requires a.NonDegenerate() && k > 0.0
    requires rx == b.dx / a.dx && ry == b.dy / a.dy
    requires b'.dx / a.dx == rx * k && b'.dy / a.dy == ry * k
    ensures a.Transformer(b').xFactor == a.Transformer(b).xFactor * k
    ensures a.Transformer(b').yFactor == a.Transformer(b).yFactor * k
  {
    ScaledFactors(rx, ry, k);
    TransformerFactors(a, b, rx, ry);
    TransformerFactors(a, b', rx * k, ry * k);
  }

  /** The signed factors computed from the ratios rx * k and ry * k are
      those computed from rx and ry, times k. */
  lemma ScaledFactors(rx: real, ry: real, k: real)
    requires k > 0.0
    ensures var m, mk := Max(Abs(rx), Abs(ry)), Max(Abs(rx * k), Abs(ry * k));
      && (if rx * k < 0.0 then -mk else mk) == (if rx < 0.0 then -m else m) * k
      && (if ry * k < 0.0 then -mk else mk) == (if ry < 0.0 then -m else m) * k
  {
    MaxAbsScales(rx, ry, k);
    SignedScales(rx, Max(Abs(rx), Abs(ry)), k);
    SignedScales(ry, Max(Abs(rx), Abs(ry)), k);
  }

  lemma MaxAbsScales(x: real, y: real, k: real)
    requires k > 0.0
    ensures Max(Abs(x * k), Abs(y * k)) == Max(Abs(x), Abs(y)) * k
  {
    AbsScale(x, k);
    AbsScale(y, k);
    MaxScale(Abs(x), Abs(y), k);
  }

  lemma ScaledRatio(e: real, d: real, k: real)
    requires d != 0.0
    ensures (e * k) / d == (e / d) * k
  {
  }

  /** Along one axis: with u the offset of a point from the source centre,
      shrinking the factor f by 1 - d and moving the destination centre c
      the share d toward the point's image keeps that image. */
  lemma AxisShrink(u: real, f: real, c: real, d: real)
    ensures u * (f * (1.0 - d)) + (c + d * ((u * f + c) - c)) == u * f + c
  {
    assert u * (f * (1.0 - d)) == u * f - d * (u * f);
  }

  /** A transform whose factors are those of f times 1 - d, with the same
      source centre and a destination centre moved the share d toward the
      image of p under f, still sends p to that image. */
  lemma ShrinkTowardImage<S, T>(f: Transform<S, T>, g: Transform<S, T>, p: Point<S>, d: real)
    requires g.xFactor == f.xFactor * (1.0 - d) && g.yFactor == f.yFactor * (1.0 - d)
    requires g.centerOrigX == f.centerOrigX && g.centerOrigY == f.centerOrigY
    requires g.centerNewX == f.centerNewX + d * (f.Apply(p).x - f.centerNewX)
    requires g.centerNewY == f.centerNewY + d * (f.Apply(p).y - f.centerNewY)
    ensures g.Apply(p) == f.Apply(p)
  {
    AxisShrink(p.x - f.centerOrigX, f.xFactor, f.centerNewX, d);
    AxisShrink(p.y - f.centerOrigY, f.yFactor, f.centerNewY, d);
  }

  // -----------------------------------------------------------------------
  // Properties of the decorator

  /** The decorated pixelator shows, at the centre of its own viewport,
      what the inner pixelator shows at the centre of the other one. */
  lemma DecoratedCenter<S, T>(a: Viewport<S>, b: Viewport<T>, pixelator: Pixelator<T>)
    requires a.NonDegenerate() && pixelator.requires(b.Center())
    ensures a.DecoratePixelator(b, pixelator).Defined(a.Center())
    ensures a.DecoratePixelator(b, pixelator).GetPixel(a.Center()) == pixelator(b.Center())
  {
    TransformerMapsCenter(a, b);
  }

  /** Decorating twice, from A to B and back from B to A, gives back the
      original pixelator when the aspect ratios agree. */
  lemma DecorateTwice<S, T>(a: Viewport<S>, b: Viewport<T>, pixelator: Pixelator<S>, p: Point<S>)
    requires a.NonDegenerate() && b.NonDegenerate()
    requires Abs(b.dx / a.dx) == Abs(b.dy / a.dy)
    requires pixelator.requires(p)
    ensures var inner := b.DecoratePixelator(a, pixelator).AsPixelator();
      var outer := a.DecoratePixelator(b, inner);
      outer.Defined(p) && outer.GetPixel(p) == pixelator(p)
  {
    RoundTrip(a, b, p);
  }

  // -----------------------------------------------------------------------
  // The transformer examples of the repository's tests

  lemma SquareExample<S, T>()
    ensures var f := Viewport<S>.New(10.0, 20.0, 100.0, 100.0).Transformer(Viewport<T>.New(5.0, 3.0, 10.0, 10.0));
      && f.Apply(Point(10.0, 20.0)) == Point(5.0, 3.0)
      && f.Apply(Point(110.0, 120.0)) == Point(15.0, 13.0)
      && f.Apply(Point(60.0, 70.0)) == Point(10.0, 8.0)
    ensures var g := Viewport<T>.New(5.0, 3.0, 10.0, 10.0).Transformer(Viewport<S>.New(10.0, 20.0, 100.0, 100.0));
      && g.Apply(Point(5.0, 3.0)) == Point(10.0, 20.0)
      && g.Apply(Point(15.0, 13.0)) == Point(110.0, 120.0)
      && g.Apply(Point(10.0, 8.0)) == Point(60.0, 70.0)
  {
  }

  /** A flipped destination y axis. */
  lemma FlippedExample<S, T>()
    ensures var f := Viewport<S>.New(10.0, 20.0, 100.0, 100.0).Transformer(Viewport<T>.New(5.0, 3.0, 10.0, -10.0));
      && f.Apply(Point(10.0, 20.0)) == Point(5.0, 3.0)
      && f.Apply(Point(110.0, 120.0)) == Point(15.0, -7.0)
      && f.Apply(Point(60.0, 70.0)) == Point(10.0, -2.0)
    ensures var g := Viewport<T>.New(5.0, 3.0, 10.0, -10.0).Transformer(Viewport<S>.New(10.0, 20.0, 100.0, 100.0));
      && g.Apply(Point(5.0, 3.0)) == Point(10.0, 20.0)
      && g.Apply(Point(15.0, -7.0)) == Point(110.0, 120.0)
      && g.Apply(Point(10.0, -2.0)) == Point(60.0, 70.0)
  {
  }

  /** A 100 x 200 source onto a 10 x 10 square: the scale is 1/10 on both
      axes, so the taller source overflows the square vertically. */
  lemma DifferingAspectExample<S, T>()
    ensures var f := Viewport<S>.New(0.0, 0.0, 100.0, 200.0).Transformer(Viewport<T>.New(0.0, 0.0, 10.0, 10.0));
      && f.Apply(Point(0.0, 0.0)) == Point(0.0, -5.0)
      && f.Apply(Point(100.0, 200.0)) == Point(10.0, 15.0)
      && f.Apply(Point(50.0, 100.0)) == Point(5.0, 5.0)
  {
  }

  /** A screen of 800 x 400 onto a flipped square of the fractal plane. */
  lemma ScreenToPlaneExample<S, T>()
    ensures var f := Viewport<S>.New(0.0, 0.0, 800.0, 400.0).Transformer(Viewport<T>.New(-2.0, 2.0, 4.0, -4.0));
      && f.Apply(Point(400.0, 200.0)) == Point(0.0, 0.0)
      && f.Apply(Point(200.0, 0.0)) == Point(-2.0, 2.0)
      && f.Apply(Point(200.0, 400.0)) == Point(-2.0, -2.0)
      && f.Apply(Point(600.0, 400.0)) == Point(2.0, -2.0)
      && f.Apply(Point(600.0, 0.0)) == Point(2.0, 2.0)
  {
  }

  /** A 100 x 200 source onto a 10 x 20 destination: the same aspect
      ratio, so the map is a plain scale by 1/10. */
  lemma RectExample<S, T>()
    ensures var f := Viewport<S>.New(10.0, 20.0, 100.0, 200.0).Transformer(Viewport<T>.New(5.0, 3.0, 10.0, 20.0));
      && f.Apply(Point(10.0, 20.0)) == Point(5.0, 3.0)
      && f.Apply(Point(110.0, 220.0)) == Point(15.0, 23.0)
      && f.Apply(Point(60.0, 120.0)) == Point(10.0, 13.0)
    ensures var g := Viewport<T>.New(5.0, 3.0, 10.0, 20.0).Transformer(Viewport<S>.New(10.0, 20.0, 100.0, 200.0));
      && g.Apply(Point(5.0, 3.0)) == Point(10.0, 20.0)
      && g.Apply(Point(15.0, 23.0)) == Point(110.0, 220.0)
      && g.Apply(Point(10.0, 13.0)) == Point(60.0, 120.0)
  {
  }

  /** The same rectangles with the destination y axis flipped. */
  lemma RectFlippedExample<S, T>()
    ensures var f := Viewport<S>.New(10.0, 20.0, 100.0, 200.0).Transformer(Viewport<T>.New(5.0, 3.0, 10.0, -20.0));
      && f.Apply(Point(10.0, 20.0)) == Point(5.0, 3.0)
      && f.Apply(Point(110.0, 220.0)) == Point(15.0, -17.0)
      && f.Apply(Point(60.0, 120.0)) == Point(10.0, -7.0)
    ensures var g := Viewport<T>.New(5.0, 3.0, 10.0, -20.0).Transformer(Viewport<S>.New(10.0, 20.0, 100.0, 200.0));
      && g.Apply(Point(5.0, 3.0)) == Point(10.0, 20.0)
      && g.Apply(Point(15.0, -17.0)) == Point(110.0, 220.0)
      && g.Apply(Point(10.0, -7.0)) == Point(60.0, 120.0)
  {
  }

  /** An 800 x 800 screen onto a flipped square around the origin of the
      plane: the screen point (640, 400) shows the origin. */
  lemma ZeroCenterExample<S, T>()
    ensures var f := Viewport<S>.New(0.0, 0.0, 800.0, 800.0).Transformer(Viewport<T>.New(-2.0, 1.25, 2.5, -2.5));
      && f.Apply(Point(0.0, 0.0)) == Point(-2.0, 1.25)
      && f.Apply(Point(800.0, 800.0)) == Point(0.5, -1.25)
      && f.Apply(Point(400.0, 400.0)) == Point(-0.75, 0.0)
      && f.Apply(Point(640.0, 400.0)) == Point(0.0, 0.0)
    ensures var g := Viewport<T>.New(-2.0, 1.25, 2.5, -2.5).Transformer(Viewport<S>.New(0.0, 0.0, 800.0, 800.0));
      && g.Apply(Point(-2.0, 1.25)) == Point(0.0, 0.0)
      && g.Apply(Point(0.5, -1.25)) == Point(800.0, 800.0)
      && g.Apply(Point(-0.75, 0.0)) == Point(400.0, 400.0)
      && g.Apply(Point(0.0, 0.0)) == Point(640.0, 400.0)
  {
  }

  /** A 200 x 100 source onto a 10 x 10 square: here the y ratio is the
      larger one, so both axes scale by 1/10 and the wider source
      overflows the square horizontally. */
  lemma WiderAspectExample<S, T>()
    ensures var f := Viewport<S>.New(0.0, 0.0, 200.0, 100.0).Transformer(Viewport<T>.New(0.0, 0.0, 10.0, 10.0));
      && f.Apply(Point(0.0, 0.0)) == Point(-5.0, 0.0)
      && f.Apply(Point(100.0, 200.0)) == Point(5.0, 20.0)
      && f.Apply(Point(200.0, 100.0)) == Point(15.0, 10.0)
      && f.Apply(Point(50.0, 100.0)) == Point(0.0, 10.0)
      && f.Apply(Point(100.0, 50.0)) == Point(5.0, 5.0)
  {
    var f := Viewport<S>.New(0.0, 0.0, 200.0, 100.0).Transformer(Viewport<T>.New(0.0, 0.0, 10.0, 10.0));
    assert f == Transform(0.1, 0.1, 100.0, 50.0, 5.0, 5.0);
  }

  /** Without equal aspect ratios the transformer back is not the inverse:
      from a 100 x 200 source to a 10 x 10 square both axes scale by 1/10,
      but back from the square both scale by 20, so (0, 0) goes to
      (0, -5) and returns as (-50, -100). */
  lemma SwappedIsNotInverse<S, T>()
    ensures var f := Viewport<S>.New(0.0, 0.0, 100.0, 200.0).Transformer(Viewport<T>.New(0.0, 0.0, 10.0, 10.0));
      f.Apply(Point(0.0, 0.0)) == Point(0.0, -5.0)
    ensures var g := Viewport<T>.New(0.0, 0.0, 10.0, 10.0).Transformer(Viewport<S>.New(0.0, 0.0, 100.0, 200.0));
      g.Apply(Point(0.0, -5.0)) == Point(-50.0, -100.0)
  {
    hide Viewport.Transformer;
    NarrowOntoSquare<S, T>();
    SquareOntoNarrow<T, S>();
  }

  /** The 100 x 200 source onto the 10 x 10 square: factor 1/10 on both axes. */
  lemma NarrowOntoSquare<S, T>()
    ensures Viewport<S>.New(0.0, 0.0, 100.0, 200.0).Transformer(Viewport<T>.New(0.0, 0.0, 10.0, 10.0))
         == Transform(0.1, 0.1, 50.0, 100.0, 5.0, 5.0)
  {
  }

  /** The 10 x 10 square onto the 100 x 200 source: factor 20 on both axes. */
  lemma SquareOntoNarrow<S, T>()
    ensures Viewport<S>.New(0.0, 0.0, 10.0, 10.0).Transformer(Viewport<T>.New(0.0, 0.0, 100.0, 200.0))
         == Transform(20.0, 20.0, 5.0, 5.0, 50.0, 100.0)
  {
  }
}
