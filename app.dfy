/** The application glue: rendering a pixelator into an image buffer,
    converting the user interface's viewport record into a typed viewport,
    and the two event handlers that compute a Julia constant from a click
    and zoom the fractal viewport around the mouse cursor.

    The user interface passes single-precision floats; they are modelled as
    real numbers, so the widening and narrowing casts are exact here. */
module App {
  import opened Points
  import opened Fractals
  import opened Viewports

  // -----------------------------------------------------------------------
  // Screen space and the image buffer

  /** The tag of the screen coordinate space: pixels, origin top left. */
  datatype Screen = Screen {

    /** `Screen::new`: the viewport of a width x height screen. */
    static function New(width: real, height: real): (v: Viewport<Screen>)
      ensures v.x1 == 0.0 && v.y1 == 0.0
      ensures v.dx == width && v.dy == height
    {
      Viewport.New(0.0, 0.0, width, height)
    }
  }

  /** The centre of the screen viewport is the middle pixel position. */
  lemma ScreenCenter(width: real, height: real)
    ensures Screen.New(width, height).Center() == Point(width / 2.0, height / 2.0)
  {
  }

  /** An RGBA8 image: width * height pixels in row-major order. */
  datatype Image = Image(width: nat, height: nat, pixels: seq<Rgba>)

  /** The screen point of buffer position `index` for rows `stride` pixels
      wide: column index % stride, row index / stride. */
  function PixelPoint(index: nat, stride: nat): Point<Screen>
    requires stride > 0
  {
    Point.New((index % stride) as real, (index / stride) as real)
  }

  /** Every buffer position of a width x height image names a pixel of the
      grid, and every grid pixel (x, y) sits at position y * width + x:
      the buffer is exactly the grid in row-major order. */
  lemma RowMajor(width: nat, height: nat, x: nat, y: nat)
    requires x < width && y < height
    ensures y * width + x < width * height
    ensures PixelPoint(y * width + x, width) == Point(x as real, y as real)
  {
    MulLe(y + 1, height, width);
    DivMod(y * width + x, width, y, x);
  }

  /** The converse of RowMajor: a buffer position decodes to a pixel inside
      the grid. */
  lemma PixelPointInGrid(width: nat, height: nat, index: nat)
    requires width > 0 && index < width * height
    ensures 0.0 <= PixelPoint(index, width).x < width as real
    ensures 0.0 <= PixelPoint(index, width).y < height as real
  {
    var row := index / width;
    assert row * width <= index;
    LtCancel(row, height, width);
  }

  lemma MulLe(a: int, b: int, c: int)
    requires a <= b && c >= 0
    ensures a * c <= b * c
  {
  }

  lemma LtCancel(a: int, b: int, c: int)
    requires c > 0 && a * c < b * c
    ensures a < b
  {
  }

  /** Euclidean division is determined by quotient and remainder. */
  lemma DivMod(n: int, w: int, q: int, r: int)
    requires w > 0 && 0 <= r < w && n == q * w + r
    ensures n / w == q && n % w == r
  {
    var k := n / w - q;
    assert k * w == r - n % w;
    LtCancel(k, 1, w);
    LtCancel(-k, 1, w);
  }

  /** A width x height image needs width > 0 to hold any pixel. */
  lemma NonEmptyHasWidth(width: nat, height: nat, index: nat)
    requires index < width * height
    ensures width > 0
  {
  }

  /** `create_image`: fills a fresh buffer of width * height transparent
      pixels, writing at each position the colour of its screen point. The
      pixelator must be defined on every pixel of the grid. */
  method CreateImage(width: nat, height: nat, pixelator: Pixelator<Screen>) returns (image: Image)
    requires forall index: nat | width > 0 && index < width * height :: pixelator.requires(PixelPoint(index, width))
    ensures image.width == width && image.height == height
    ensures |image.pixels| == width * height
    ensures forall index: nat | index < |image.pixels| :: width > 0 && image.pixels[index] == pixelator(PixelPoint(index, width))
  {
    var stride := width;
    var bytes := new Rgba[width * height](_ => Transparent);
    var index := 0;
    while index < bytes.Length
      invariant 0 <= index <= bytes.Length
      invariant forall k: nat | k < index :: stride > 0 && bytes[k] == pixelator(PixelPoint(k, stride))
    {
      NonEmptyHasWidth(width, height, index);
      bytes[index] := pixelator(PixelPoint(index, stride));
      index := index + 1;
    }
    image := Image(width, height, bytes[..]);
  }

  // -----------------------------------------------------------------------
  // The user interface's viewport record

  /** The viewport record exchanged with the user interface: four floats. */
  datatype SlintViewport = SlintViewport(x1: real, y1: real, dx: real, dy: real) {

    /** `into`: the same rectangle as a viewport of any coordinate space. */
    function Into<T>(): (v: Viewport<T>)
      ensures v.x1 == x1 && v.y1 == y1 && v.dx == dx && v.dy == dy
    {
      Viewport.New(x1, y1, dx, dy)
    }
  }

  // -----------------------------------------------------------------------
  // Picking the Julia constant

  /** The Julia constant c = re + im i (the fields `real` and `imag`). */
  datatype JuliaConstant = JuliaConstant(re: real, im: real)

  /** `handle_calculate_julia_constant`: the point of the viewport under
      the clicked screen pixel (x, y). */
  function HandleCalculateJuliaConstant(viewport: SlintViewport, width: real, height: real, x: real, y: real): (c: JuliaConstant)
    requires width != 0.0 && height != 0.0
  {
    var juliaViewport: Viewport<Julia> := viewport.Into();
    var screenViewport := Screen.New(width, height);
    var point := Point<Screen>.New(x, y);
    var transformed := screenViewport.Transformer(juliaViewport).Apply(point);
    JuliaConstant(transformed.x, transformed.y)
  }

  /** Clicking the middle of the screen picks the centre of the viewport. */
  lemma ClickCenterPicksViewportCenter(viewport: SlintViewport, width: real, height: real)
    requires width != 0.0 && height != 0.0
    ensures var c := HandleCalculateJuliaConstant(viewport, width, height, width / 2.0, height / 2.0);
      c.re == viewport.x1 + viewport.dx / 2.0 && c.im == viewport.y1 + viewport.dy / 2.0
  {
    var screen := Screen.New(width, height);
    var juliaViewport: Viewport<Julia> := viewport.Into();
    TransformerMapsCenter(screen, juliaViewport);
    ScreenCenter(width, height);
  }

  /** One axis of a transform whose factor is the plain ratio e / w: the
      centres cancel and the coordinate is interpolated linearly. */
  lemma Interpolate(v: real, w: real, x1: real, e: real)
    requires w != 0.0
    ensures (v - (0.0 + w / 2.0)) * (e / w) + (x1 + e / 2.0) == x1 + v * (e / w)
  {
    assert (w / 2.0) * (e / w) == e / 2.0;
  }

  /** When the viewport has the screen's aspect ratio, the picked constant
      is the linear interpolation of the click across the viewport: the
      top-left pixel picks (x1, y1), and each pixel further right or down
      moves by dx / width or dy / height. */
  lemma ClickInterpolatesViewport(viewport: SlintViewport, width: real, height: real, x: real, y: real)
    requires width != 0.0 && height != 0.0
    requires Abs(viewport.dx / width) == Abs(viewport.dy / height)
    ensures var c := HandleCalculateJuliaConstant(viewport, width, height, x, y);
      && c.re == viewport.x1 + x * (viewport.dx / width)
      && c.im == viewport.y1 + y * (viewport.dy / height)
  {
    var screen := Screen.New(width, height);
    var juliaViewport: Viewport<Julia> := viewport.Into();
    FactorsAreRatios(screen, juliaViewport);
    Interpolate(x, width, viewport.x1, viewport.dx);
    Interpolate(y, height, viewport.y1, viewport.dy);
  }

  // -----------------------------------------------------------------------
  // Zooming around the cursor

  function Min(a: real, b: real): real
  {
    if a < b then a else b
  }

  /** The share of each extent removed by one scroll event: a tenth of the
      scroll amount, capped at 60, as a percentage. */
  function DiffFactor(scroll: real): real
  {
    Min(scroll / 10.0, 60.0) / 100.0
  }

  /** The diff factor never exceeds 0.6, reached from a scroll of 600 on;
      below that it is scroll / 1000, negative exactly for a negative
      scroll. */
  lemma DiffFactorRange(scroll: real)
    ensures DiffFactor(scroll) <= 0.6
    ensures DiffFactor(scroll) == 0.6 <==> scroll >= 600.0
    ensures DiffFactor(scroll) < 0.0 <==> scroll < 0.0
    ensures DiffFactor(scroll) > 0.0 <==> scroll > 0.0
    ensures scroll < 600.0 ==> DiffFactor(scroll) == scroll / 1000.0
  {
  }

  /** One coordinate of the zoomed corner: x1 moved by diff * (t - x1) / extent. */
  function MovedCorner(x1: real, diff: real, t: real, extent: real): real
    requires extent != 0.0
  {
    x1 + diff * (t - x1) / extent
  }

  /** With diff the share d of the extent, the corner moves the share d of
      the way to t. */
  lemma MovedCornerIsShare(x1: real, extent: real, d: real, t: real)
    requires extent != 0.0
    ensures MovedCorner(x1, extent * d, t, extent) == x1 + d * (t - x1)
  {
    assert (extent * d) * (t - x1) == extent * (d * (t - x1));
  }

  /** `handle_zoom_viewport`: shrinks (scroll > 0) or grows (scroll < 0)
      both extents by the diff factor and moves the corner toward the
      fractal point under the mouse by the same share. */
  function HandleZoomViewport(viewport: SlintViewport, scroll: real, mousex: real, mousey: real, width: real, height: real): (r: SlintViewport)
    requires width != 0.0 && height != 0.0
    requires viewport.dx != 0.0 && viewport.dy != 0.0
  {
    var fractalViewport: Viewport<Mandelbrot> := viewport.Into();
    var screenViewport := Screen.New(width, height);
    var diffFactor := DiffFactor(scroll);
    var dxDiff := fractalViewport.dx * diffFactor;
    var dyDiff := fractalViewport.dy * diffFactor;
    var point := Point<Screen>.New(mousex, mousey);
    var transformed := screenViewport.Transformer(fractalViewport).Apply(point);
    SlintViewport(
      MovedCorner(fractalViewport.x1, dxDiff, transformed.x, fractalViewport.dx),
      MovedCorner(fractalViewport.y1, dyDiff, transformed.y, fractalViewport.dy),
      fractalViewport.dx - dxDiff,
      fractalViewport.dy - dyDiff)
  }

  /** The fractal point under the mouse before the zoom. */
  function UnderCursor(viewport: SlintViewport, mousex: real, mousey: real, width: real, height: real): Point<Mandelbrot>
    requires width != 0.0 && height != 0.0
  {
    Screen.New(width, height).Transformer(viewport.Into<Mandelbrot>()).Apply(Point.New(mousex, mousey))
  }

  /** The new extents are the old ones less their diff: dx - dx * d and
      dy - dy * d. */
  lemma ZoomExtents(viewport: SlintViewport, scroll: real, mousex: real, mousey: real, width: real, height: real)
    requires width != 0.0 && height != 0.0
    requires viewport.dx != 0.0 && viewport.dy != 0.0
    ensures var r := HandleZoomViewport(viewport, scroll, mousex, mousey, width, height);
      && r.dx == viewport.dx - viewport.dx * DiffFactor(scroll)
      && r.dy == viewport.dy - viewport.dy * DiffFactor(scroll)
  {
    hide Viewport.Transformer;
  }

  /** Each extent is scaled by 1 - d, which is at least 0.4: a zoom never
      flips or collapses an axis, scrolling up shrinks the viewport and
      scrolling down grows it. */
  lemma ZoomScalesExtents(viewport: SlintViewport, scroll: real, mousex: real, mousey: real, width: real, height: real)
    requires width != 0.0 && height != 0.0
    requires viewport.dx != 0.0 && viewport.dy != 0.0
    ensures var r := HandleZoomViewport(viewport, scroll, mousex, mousey, width, height);
      var k := 1.0 - DiffFactor(scroll);
      && k >= 0.4
      && r.dx == viewport.dx * k && r.dy == viewport.dy * k
      && (r.dx < 0.0 <==> viewport.dx < 0.0) && (r.dy < 0.0 <==> viewport.dy < 0.0)
      && (scroll > 0.0 ==> Abs(r.dx) < Abs(viewport.dx) && Abs(r.dy) < Abs(viewport.dy))
      && (scroll < 0.0 ==> Abs(r.dx) > Abs(viewport.dx) && Abs(r.dy) > Abs(viewport.dy))
  {
    hide Viewport.Transformer, HandleZoomViewport, DiffFactor, Abs;
    ZoomExtents(viewport, scroll, mousex, mousey, width, height);
    var r := HandleZoomViewport(viewport, scroll, mousex, mousey, width, height);
    var d := DiffFactor(scroll);
    DiffFactorRange(scroll);
    ScaleAxis(viewport.dx, r.dx, d);
    ScaleAxis(viewport.dy, r.dy, d);
  }

  /** Removing the share d <= 0.6 from an extent e leaves e * (1 - d),
      with 1 - d >= 0.4: the sign is kept, and the magnitude shrinks for
      d > 0 and grows for d < 0. */
  lemma ScaleAxis(e: real, e': real, d: real)
    requires e != 0.0 && d <= 0.6 && e' == e - e * d
    ensures 1.0 - d >= 0.4
    ensures e' == e * (1.0 - d)
    ensures e' < 0.0 <==> e < 0.0
    ensures d > 0.0 ==> Abs(e') < Abs(e)
    ensures d < 0.0 ==> Abs(e') > Abs(e)
  {
    var k := 1.0 - d;
    assert k > 0.0 && e' == e * k;
    if e < 0.0 {
      assert e * k < 0.0;
      assert Abs(e') == -e';
    } else {
      assert e' > 0.0;
    }
  }

  /** A scroll of zero leaves the viewport unchanged. */
  lemma ZoomWithoutScroll(viewport: SlintViewport, mousex: real, mousey: real, width: real, height: real)
    requires width != 0.0 && height != 0.0
    requires viewport.dx != 0.0 && viewport.dy != 0.0
    ensures HandleZoomViewport(viewport, 0.0, mousex, mousey, width, height) == viewport
  {
  }

  /** The new corner lies the share d of the way from the old corner to
      the fractal point under the cursor. */
  lemma ZoomMovesCornerTowardCursor(viewport: SlintViewport, scroll: real, mousex: real, mousey: real, width: real, height: real)
    requires width != 0.0 && height != 0.0
    requires viewport.dx != 0.0 && viewport.dy != 0.0
    ensures var r := HandleZoomViewport(viewport, scroll, mousex, mousey, width, height);
      var t := UnderCursor(viewport, mousex, mousey, width, height);
      var d := DiffFactor(scroll);
      r.x1 == viewport.x1 + d * (t.x - viewport.x1) && r.y1 == viewport.y1 + d * (t.y - viewport.y1)
  {
    hide Viewport.Transformer;
    var t := UnderCursor(viewport, mousex, mousey, width, height);
    var d := DiffFactor(scroll);
    MovedCornerIsShare(viewport.x1, viewport.dx, d, t.x);
    MovedCornerIsShare(viewport.y1, viewport.dy, d, t.y);
  }

  /** Along one axis, the centre of the zoomed viewport lies the share d of
      the way from the old centre to t. */
  lemma CentreShift(x1: real, e: real, d: real, t: real)
    ensures (x1 + d * (t - x1)) + e * (1.0 - d) / 2.0 == (x1 + e / 2.0) + d * (t - (x1 + e / 2.0))
  {
  }

  /** The transformer onto a viewport scaled by 1 - d about the point t:
      its factors are the old ones times 1 - d, its source centre is the
      same, and its destination centre has moved the share d toward t. */
  lemma ZoomedTransformer(screen: Viewport<Screen>, before: Viewport<Mandelbrot>, after: Viewport<Mandelbrot>, d: real, t: Point<Mandelbrot>)
    requires screen.NonDegenerate() && d < 1.0
    requires after.dx == before.dx * (1.0 - d) && after.dy == before.dy * (1.0 - d)
    requires after.x1 == before.x1 + d * (t.x - before.x1) && after.y1 == before.y1 + d * (t.y - before.y1)
    ensures var f, g := screen.Transformer(before), screen.Transformer(after);
      && g.xFactor == f.xFactor * (1.0 - d) && g.yFactor == f.yFactor * (1.0 - d)
      && g.centerOrigX == f.centerOrigX && g.centerOrigY == f.centerOrigY
      && g.centerNewX == f.centerNewX + d * (t.x - f.centerNewX)
      && g.centerNewY == f.centerNewY + d * (t.y - f.centerNewY)
  {
    hide Viewport.Transformer;
    ScaledDestination(screen, before, after, 1.0 - d);
    TransformerCentres(screen, before);
    TransformerCentres(screen, after);
    CentreShift(before.x1, before.dx, d, t.x);
    CentreShift(before.y1, before.dy, d, t.y);
  }

  /** A viewport scaled by 1 - d about the point t that the screen pixel p
      shows in the original viewport still shows t at p. */
  lemma ScaledAboutPointKeepsIt(screen: Viewport<Screen>, before: Viewport<Mandelbrot>, after: Viewport<Mandelbrot>, d: real, p: Point<Screen>)
    requires screen.NonDegenerate() && d < 1.0
    requires after.dx == before.dx * (1.0 - d) && after.dy == before.dy * (1.0 - d)
    requires var t := screen.Transformer(before).Apply(p);
      after.x1 == before.x1 + d * (t.x - before.x1) && after.y1 == before.y1 + d * (t.y - before.y1)
    ensures screen.Transformer(after).Apply(p) == screen.Transformer(before).Apply(p)
  {
    hide Viewport.Transformer;
    ZoomedTransformer(screen, before, after, d, screen.Transformer(before).Apply(p));
    ShrinkTowardImage(screen.Transformer(before), screen.Transformer(after), p, d);
  }

  /** Zooming keeps the fractal point under the mouse cursor where it is:
      after the zoom, the same screen pixel shows the same fractal point. */
  lemma ZoomKeepsCursorFixed(viewport: SlintViewport, scroll: real, mousex: real, mousey: real, width: real, height: real)
    requires width != 0.0 && height != 0.0
    requires viewport.dx != 0.0 && viewport.dy != 0.0
    ensures var r := HandleZoomViewport(viewport, scroll, mousex, mousey, width, height);
      UnderCursor(r, mousex, mousey, width, height) == UnderCursor(viewport, mousex, mousey, width, height)
  {
    hide Viewport.Transformer;
    var r := HandleZoomViewport(viewport, scroll, mousex, mousey, width, height);
    ZoomScalesExtents(viewport, scroll, mousex, mousey, width, height);
    ZoomMovesCornerTowardCursor(viewport, scroll, mousex, mousey, width, height);
    ScaledAboutPointKeepsIt(Screen.New(width, height), viewport.Into(), r.Into(), DiffFactor(scroll), Point.New(mousex, mousey));
  }
}
