/** Escape-time pixelators for the Mandelbrot and Julia sets.

    A pixelator maps a point of some coordinate space to an RGBA colour.
    Both fractals iterate z := z^2 + c for i = 0, 1, ..., iterations
    (an inclusive range, so `iterations + 1` checks) and colour a point by
    the first index at which |z|^2 exceeds 4: the gray i * (255 / iterations),
    computed on 32-bit integers and cast to a byte, fully opaque. A point
    that never escapes is fully transparent. */
module Fractals {
  import opened Points
  import opened Options

  newtype byte = x: int | 0 <= x < 256

  /** One RGBA8 pixel: four bytes, red, green, blue, alpha. */
  datatype Rgba = Rgba(red: byte, green: byte, blue: byte, alpha: byte)

  const Transparent: Rgba := Rgba(0, 0, 0, 0)

  /** A pixelator over space S. It is a partial function: the Julia
      pixelator divides by zero for some inputs. */
  type Pixelator<!S> = Point<S> --> Rgba

  // ---------------------------------------------------------------------
  // Integer colour arithmetic

  /** Integer division of a 32-bit signed value, which truncates toward zero. */
  function TruncDiv(a: int, b: int): int
    requires b != 0
  {
    if (a < 0) == (b < 0) then
      (if a < 0 then -a else a) / (if b < 0 then -b else b)
    else
      -((if a < 0 then -a else a) / (if b < 0 then -b else b))
  }

  /** The `as u8` cast: keeps the low eight bits. */
  function AsU8(v: int): byte
  {
    (v % 256) as byte
  }

  /** The gray level of a point that escaped at index i. */
  function GrayLevel(i: int, iterations: int): int
    requires iterations != 0
  {
    i * TruncDiv(255, iterations)
  }

  /** For an escape index within the loop's range the gray level lies in
      0..255, so the cast to a byte keeps it unchanged. */
  lemma GrayLevelFits(i: int, iterations: int)
    requires 0 <= i <= iterations && iterations != 0
    ensures TruncDiv(255, iterations) == 255 / iterations
    ensures 0 <= GrayLevel(i, iterations) <= 255
    ensures AsU8(GrayLevel(i, iterations)) as int == GrayLevel(i, iterations)
  {
    var q := 255 / iterations;
    assert 0 <= q;
    assert iterations * q <= 255;
    assert i * q <= iterations * q by {
      assert (iterations - i) * q >= 0;
    }
  }

  /** The colour for an escape outcome: transparent if the point never
      escaped, otherwise the opaque gray of its escape index. */
  function Colour(escape: Option<int>, iterations: int): (r: Rgba)
    requires escape.Some? ==> iterations != 0
    ensures escape.None? ==> r == Transparent
    ensures escape.Some? && 0 <= escape.value <= iterations ==>
      var g := GrayLevel(escape.value, iterations);
      0 <= g <= 255 && r == Rgba(g as byte, g as byte, g as byte, 255)
  {
    match escape
    case None => Transparent
    case Some(i) =>
      var g := AsU8(GrayLevel(i, iterations));
      assert 0 <= i <= iterations ==> g as int == GrayLevel(i, iterations) by {
        if 0 <= i <= iterations {
          GrayLevelFits(i, iterations);
        }
      }
      Rgba(g, g, g, 255)
  }

  // ---------------------------------------------------------------------
  // Escape-time iteration

  datatype Complex = Complex(re: real, im: real)

  /** z^2 + c, with the same operations as the loop body. */
  function Step(z: Complex, c: Complex): Complex
  {
    Complex(z.re * z.re - z.im * z.im + c.re, 2.0 * z.re * z.im + c.im)
  }

  predicate Escaped(z: Complex)
  {
    z.re * z.re + z.im * z.im > 4.0
  }

  /** The orbit of z0 under z := z^2 + c after k steps. */
  function Orbit(z0: Complex, c: Complex, k: nat): Complex
  {
    if k == 0 then z0 else Step(Orbit(z0, c, k - 1), c)
  }

  /** The loop from index i on, with z the current value: the first index
      in i..iterations at which z has escaped, if any. */
  function EscapeFrom(z: Complex, c: Complex, i: int, iterations: int): (r: Option<int>)
    decreases iterations + 1 - i
    ensures r.Some? ==> i <= r.value <= iterations
  {
    if i > iterations then None
    else if Escaped(z) then Some(i)
    else EscapeFrom(Step(z, c), c, i + 1, iterations)
  }

  /** One round of the loop body: at an index in range, a value with
      |z|^2 > 4 escapes there, and otherwise the loop carries on from
      z^2 + c at the next index. */
  lemma LoopRound(z_r: real, z_i: real, c: Complex, i: int, iterations: int)
    requires i <= iterations
    ensures z_r * z_r + z_i * z_i > 4.0 ==>
      EscapeFrom(Complex(z_r, z_i), c, i, iterations) == Some(i)
    ensures !(z_r * z_r + z_i * z_i > 4.0) ==>
      EscapeFrom(Complex(z_r, z_i), c, i, iterations) ==
      EscapeFrom(Complex(z_r * z_r - z_i * z_i + c.re, 2.0 * z_r * z_i + c.im), c, i + 1, iterations)
  {
    var z := Complex(z_r, z_i);
    assert Escaped(z) == (z_r * z_r + z_i * z_i > 4.0);
    assert Step(z, c) == Complex(z_r * z_r - z_i * z_i + c.re, 2.0 * z_r * z_i + c.im);
  }

  /** The escape index of the whole loop `for i in 0..=iterations`. */
  function EscapeIndex(z0: Complex, c: Complex, iterations: int): Option<int>
  {
    EscapeFrom(z0, c, 0, iterations)
  }

  /** No orbit point with index in lo..hi-1 has escaped. */
  predicate StaysBounded(z0: Complex, c: Complex, lo: int, hi: int)
  {
    forall k: nat :: lo <= k < hi ==> !Escaped(Orbit(z0, c, k))
  }

  lemma EscapeFromUnfold(z0: Complex, c: Complex, i: nat, iterations: int)
    requires i <= iterations && !Escaped(Orbit(z0, c, i))
    ensures EscapeFrom(Orbit(z0, c, i), c, i, iterations) ==
            EscapeFrom(Orbit(z0, c, i + 1), c, i + 1, iterations)
  {
    assert Orbit(z0, c, i + 1) == Step(Orbit(z0, c, i), c);
  }

  /** A result Some(j) of the loop started on orbit point i is the first
      escaping index at or after i. */
  lemma {:induction false} EscapeFromSome(z0: Complex, c: Complex, i: nat, iterations: int, j: int)
    requires EscapeFrom(Orbit(z0, c, i), c, i, iterations) == Some(j)
    ensures i <= j <= iterations && Escaped(Orbit(z0, c, j)) && StaysBounded(z0, c, i, j)
    decreases iterations + 1 - i
  {
    if !Escaped(Orbit(z0, c, i)) {
      EscapeFromUnfold(z0, c, i, iterations);
      EscapeFromSome(z0, c, i + 1, iterations, j);
    }
  }

  /** The loop started on orbit point i finds nothing exactly when every
      index from i to iterations (inclusive) stays bounded. */
  lemma {:induction false} EscapeFromNone(z0: Complex, c: Complex, i: nat, iterations: int)
    ensures EscapeFrom(Orbit(z0, c, i), c, i, iterations) == None <==>
            StaysBounded(z0, c, i, iterations + 1)
    decreases iterations + 1 - i
  {
    if i <= iterations && !Escaped(Orbit(z0, c, i)) {
      EscapeFromUnfold(z0, c, i, iterations);
      EscapeFromNone(z0, c, i + 1, iterations);
    }
  }

  /** Conversely, the first escaping index in range is what the loop finds. */
  lemma EscapeFromFirst(z0: Complex, c: Complex, i: nat, iterations: int, j: int)
    requires i <= j <= iterations && Escaped(Orbit(z0, c, j)) && StaysBounded(z0, c, i, j)
    ensures EscapeFrom(Orbit(z0, c, i), c, i, iterations) == Some(j)
  {
    EscapeFromNone(z0, c, i, iterations);
    var r := EscapeFrom(Orbit(z0, c, i), c, i, iterations);
    EscapeFromSome(z0, c, i, iterations, r.value);
    assert Escaped(Orbit(z0, c, r.value)) && Escaped(Orbit(z0, c, j));
  }

  /** The escape index is the first k in the inclusive range 0..iterations
      whose orbit point has |z|^2 > 4, and there is none exactly when all
      iterations + 1 checked points stay within the radius. */
  lemma EscapeIndexIsFirstEscape(z0: Complex, c: Complex, iterations: int, j: int)
    ensures EscapeIndex(z0, c, iterations) == Some(j) <==>
            0 <= j <= iterations && Escaped(Orbit(z0, c, j)) && StaysBounded(z0, c, 0, j)
    ensures EscapeIndex(z0, c, iterations) == None <==> StaysBounded(z0, c, 0, iterations + 1)
  {
    assert Orbit(z0, c, 0) == z0;
    EscapeFromNone(z0, c, 0, iterations);
    if EscapeIndex(z0, c, iterations) == Some(j) {
      EscapeFromSome(z0, c, 0, iterations, j);
    }
    if 0 <= j <= iterations && Escaped(Orbit(z0, c, j)) && StaysBounded(z0, c, 0, j) {
      EscapeFromFirst(z0, c, 0, iterations, j);
    }
  }

  const Origin: Complex := Complex(0.0, 0.0)

  /** Starting from z = 0 the first check never escapes, so the Mandelbrot
      loop never reaches the colour division at index 0. */
  lemma MandelbrotStartNeverEscapes(c: Complex, iterations: int)
    ensures EscapeIndex(Origin, c, iterations) != Some(0)
  {
  }

  // ---------------------------------------------------------------------
  // Mandelbrot

  /** The Mandelbrot pixelator; also the tag of its coordinate space. */
  datatype Mandelbrot = Mandelbrot(iterations: int) {

    static function New(iterations: int): (m: Mandelbrot)
      ensures m.iterations == iterations
    {
      Mandelbrot(iterations)
    }

    /** The colour `get_pixel` computes: the escape index of c = point,
        z0 = 0. */
    function Pixel(point: Point<Mandelbrot>): (r: Rgba)
      ensures r == Transparent || (r.alpha == 255 && r.red == r.green == r.blue)
    {
      var escape := EscapeIndex(Origin, Complex(point.x, point.y), iterations);
      MandelbrotStartNeverEscapes(Complex(point.x, point.y), iterations);
      Colour(escape, iterations)
    }

    /** `get_pixel`: runs the loop for i in 0..=iterations over the mutable
        z_r, z_i and returns at the first escape. */
    method GetPixel(point: Point<Mandelbrot>) returns (color: Rgba)
      ensures color == Pixel(point)
    {
      var c_r := point.x;
      var c_i := point.y;
      ghost var c := Complex(c_r, c_i);
      var z_r := 0.0;
      var z_i := 0.0;
      var i := 0;
      while i <= iterations
        invariant 0 <= i && (i <= iterations + 1 || i == 0)
        invariant i == 0 ==> z_r == 0.0 && z_i == 0.0
        invariant EscapeFrom(Complex(z_r, z_i), c, i, iterations) == EscapeIndex(Origin, c, iterations)
      {
        var z_r2 := z_r * z_r;
        var z_i2 := z_i * z_i;
        var dist2 := z_r2 + z_i2;
        LoopRound(z_r, z_i, c, i, iterations);
        if dist2 > 4.0 {
          var gray := AsU8(i * TruncDiv(255, iterations));
          color := Rgba(gray, gray, gray, 255);
          return;
        }
        var new_z_r := z_r2 - z_i2 + c_r;
        var new_z_i := 2.0 * z_r * z_i + c_i;
        z_r := new_z_r;
        z_i := new_z_i;
        i := i + 1;
      }
      color := Transparent;
    }
  }

  /** The origin belongs to the set: z stays exactly 0 forever, so the
      pixel is transparent for every iteration count. */
  lemma {:induction false} OriginOrbitIsZero(k: nat)
    ensures Orbit(Origin, Origin, k) == Origin
  {
    if k > 0 {
      OriginOrbitIsZero(k - 1);
    }
  }

  lemma MandelbrotOriginIsInside(m: Mandelbrot)
    ensures m.Pixel(Point(0.0, 0.0)) == Transparent
  {
    forall k: nat ensures !Escaped(Orbit(Origin, Origin, k)) {
      OriginOrbitIsZero(k);
    }
    EscapeIndexIsFirstEscape(Origin, Origin, m.iterations, 0);
  }

  /** With no positive iteration count the loop cannot escape (index 0 never
      escapes and there is no later index): transparent, and no division. */
  lemma MandelbrotWithoutIterationsIsTransparent(m: Mandelbrot, point: Point<Mandelbrot>)
    requires m.iterations <= 0
    ensures m.Pixel(point) == Transparent
  {
  }

  /** The point (2, 2): z starts at 0, so the check at index 0 passes
      (|0|² <= 4); z becomes (2, 2) after step 0 and escapes at index 1,
      so the gray is 255 / iterations. */
  lemma MandelbrotAtTwoTwo(m: Mandelbrot)
    requires m.iterations >= 1
    ensures m.Pixel(Point(2.0, 2.0)) ==
      var g := (255 / m.iterations) as byte; Rgba(g, g, g, 255)
  {
    var c := Complex(2.0, 2.0);
    assert Step(Origin, c) == c;
    assert Escaped(c);
    assert EscapeFrom(c, c, 1, m.iterations) == Some(1);
    assert EscapeIndex(Origin, c, m.iterations) == Some(1);
    GrayLevelFits(1, m.iterations);
  }

  // ---------------------------------------------------------------------
  // Julia

  /** The Julia pixelator with constant c = c_r + c_i i; also the tag of
      its coordinate space. */
  datatype Julia = Julia(iterations: int, c_r: real, c_i: real) {

    static function New(iterations: int, c_r: real, c_i: real): (j: Julia)
      ensures j.iterations == iterations && j.c_r == c_r && j.c_i == c_i
    {
      Julia(iterations, c_r, c_i)
    }

    /** `get_pixel` divides 255 by `iterations` exactly when a point
        escapes; with iterations == 0 only index 0 is checked, so it fails
        exactly when the starting point has already escaped. */
    predicate Defined(point: Point<Julia>)
    {
      iterations != 0 || !Escaped(Complex(point.x, point.y))
    }

    /** The colour `get_pixel` computes: the escape index of z0 = point with
        the constant c. */
    function Pixel(point: Point<Julia>): (r: Rgba)
      requires Defined(point)
      ensures r == Transparent || (r.alpha == 255 && r.red == r.green == r.blue)
    {
      Colour(EscapeIndex(Complex(point.x, point.y), Complex(c_r, c_i), iterations), iterations)
    }

    /** `get_pixel`: the loop for i in 0..=iterations starting at z = point. */
    method GetPixel(point: Point<Julia>) returns (color: Rgba)
      requires Defined(point)
      ensures color == Pixel(point)
    {
      ghost var c := Complex(c_r, c_i);
      ghost var z0 := Complex(point.x, point.y);
      var z_r := point.x;
      var z_i := point.y;
      var i := 0;
      while i <= iterations
        invariant 0 <= i && (i <= iterations + 1 || i == 0)
        invariant EscapeFrom(Complex(z_r, z_i), c, i, iterations) == EscapeIndex(z0, c, iterations)
      {
        var z_r2 := z_r * z_r;
        var z_i2 := z_i * z_i;
        var dist2 := z_r2 + z_i2;
        LoopRound(z_r, z_i, c, i, iterations);
        if dist2 > 4.0 {
          assert iterations == 0 ==> EscapeIndex(z0, c, 0) == Some(0) && Escaped(z0);
          var gray := AsU8(i * TruncDiv(255, iterations));
          color := Rgba(gray, gray, gray, 255);
          return;
        }
        var new_z_r := z_r2 - z_i2 + c_r;
        var new_z_i := 2.0 * z_r * z_i + c_i;
        z_r := new_z_r;
        z_i := new_z_i;
        i := i + 1;
      }
      color := Transparent;
    }

    /** The Julia pixelator as a function value. */
    function AsPixelator(): (p: Pixelator<Julia>)
      ensures forall point | Defined(point) :: p.requires(point) && p(point) == Pixel(point)
    {
      point requires Defined(point) => Pixel(point)
    }
  }

  /** A point outside the radius-2 circle escapes at index 0: gray 0, opaque. */
  lemma JuliaOutsideRadiusIsBlack(j: Julia, point: Point<Julia>)
    requires j.iterations >= 1
    requires point.x * point.x + point.y * point.y > 4.0
    ensures j.Defined(point) && j.Pixel(point) == Rgba(0, 0, 0, 255)
  {
  }
}
