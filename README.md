# fractal-explorer, modelled in Dafny

fractal-explorer draws the Mandelbrot set and Julia sets in a desktop
window. A *pixelator* gives the colour of a point in some coordinate
space. A *viewport* is a rectangle of such a space (corner `x1, y1`,
signed extents `dx, dy`). Each space is a type-level tag: Mandelbrot,
Julia or Screen.

To draw a picture, the fractal pixelator is decorated with the transformer
from the screen viewport to the fractal viewport, giving a pixelator over
screen pixels. That transformer is a uniform scale about the two centres,
with a sign per axis. The result is then rendered row by row into an RGBA
buffer.

Two event handlers change what is shown:
- a click on the Mandelbrot picture picks the Julia constant under the cursor;
- a scroll zooms the fractal viewport about the point under the mouse.

A single-entry cache remembers the last rendered image, keyed by its
request. A separate exact rational-number type is also modelled.

Files and modules:

| file | module | models |
|---|---|---|
| options.dfy | `Options` | Rust's `Option` |
| point.dfy | `Points` | `src/point.rs` |
| fractals.dfy | `Fractals` | `src/fractals.rs` |
| viewport.dfy | `Viewports` | `src/viewport.rs` |
| app.dfy | `App` | the core of `src/main.rs` |
| singlecache.dfy | `SingleCaches` | `src/singlecache.rs` |
| rational.dfy | `Rationals` | `src/rational.rs` |

How the Rust types are represented:
- `f64` and `f32` are real numbers.
- `i32` iteration counts are integers. Colour division truncates toward zero, written out as `TruncDiv`. The `as u8` cast keeps the low eight bits, written out as `AsU8`.
- `BigInt` is `int`.
- The `Pixelator` trait is a partial function `Point<S> --> Rgba`. The Julia pixelator divides by zero for one kind of input, and that input is outside its domain.
- The closure returned by `transformer` is the datatype `Transform`, which holds the six numbers it captures; `Apply` is the closure's body.
- The escape-time loops of both fractals are methods with loop invariants. They are proved equal to a recursive specification, `EscapeIndex` over the orbit `Orbit`. That specification is then characterised as the first escaping index.
- `SingleCache` is a class with a ghost counter of the calls made to the value function.
- The `power` loop and the `*Assign` operators on rationals are imperative.

## Model

| member | source | states |
|---|---|---|
| Points.Point.New | src/point.rs:15-18 | the new point has exactly the given x and y |
| Points.EqualityIsCoordinatewise | src/point.rs:8-13 | derived equality holds exactly when both coordinates agree; the marker adds nothing |
| Points.NewIsInjective | src/point.rs:16-18 | two constructions are equal iff their coordinates are equal |
| Fractals.GrayLevelFits | src/fractals.rs:40 | for an escape index in 0..=iterations, `i*(255/iterations)` lies in 0..255; the truncating division agrees with Euclidean division; the `u8` cast loses nothing |
| Fractals.Colour | src/fractals.rs:39-49 | no escape gives transparent (0,0,0,0); escape at i gives the opaque gray `i*(255/iterations)` |
| Fractals.EscapeFrom | src/fractals.rs:35-47 | an escape found from index i lies between i and iterations |
| Fractals.LoopRound | src/fractals.rs:36-46 | one loop round either returns the escape at i or continues from the next orbit point at i+1 |
| Fractals.EscapeFromSome | src/fractals.rs:35-47 | a reported escape index j is in range, its orbit point has \|z\|² > 4, and every earlier checked point stayed within radius 2 |
| Fractals.EscapeFromNone | src/fractals.rs:35-49 | no escape is reported iff every orbit point checked from i to iterations stays within radius 2 |
| Fractals.EscapeFromFirst | src/fractals.rs:35-47 | the first escaping index in range is the one reported |
| Fractals.EscapeIndexIsFirstEscape | src/fractals.rs:35-49 | the loop's result is Some(j) iff j is the first index in 0..=iterations whose orbit point has \|z\|² > 4, and None iff all iterations+1 points stay bounded |
| Fractals.MandelbrotStartNeverEscapes | src/fractals.rs:33-42 | z starts at 0, so index 0 never escapes for the Mandelbrot set, and 255/iterations is never reached with iterations 0 |
| Fractals.Mandelbrot.New | src/fractals.rs:19-21 | the stored iteration count is the given one |
| Fractals.Mandelbrot.Pixel | src/fractals.rs:29-50 | every Mandelbrot colour is transparent or an opaque gray |
| Fractals.Mandelbrot.GetPixel | src/fractals.rs:29-50 | the loop from z = 0 with c = point returns the colour of the escape index from the specification |
| Fractals.OriginOrbitIsZero | src/fractals.rs:43-46 | with c = 0 the orbit of 0 stays at 0 |
| Fractals.MandelbrotOriginIsInside | src/fractals.rs:33-49 | the point (0, 0) never escapes and is drawn transparent |
| Fractals.MandelbrotWithoutIterationsIsTransparent | src/fractals.rs:35-49 | with iterations ≤ 0 every point is transparent and nothing is divided |
| Fractals.MandelbrotAtTwoTwo | src/fractals.rs:33-41 | (2, 2) escapes at index 1 with gray 255/iterations |
| Fractals.Julia.New | src/fractals.rs:66-68 | the stored iteration count and constant are the given ones |
| Fractals.Julia.Pixel | src/fractals.rs:76-95 | every Julia colour is transparent or an opaque gray |
| Fractals.Julia.GetPixel | src/fractals.rs:76-95 | the loop from z = point with the constant c returns the colour of the escape index, when defined (no division by zero) |
| Fractals.Julia.AsPixelator | src/fractals.rs:74-76 | as a pixelator it is defined where `get_pixel` does not divide by zero, and gives `Pixel` there |
| Fractals.JuliaOutsideRadiusIsBlack | src/fractals.rs:80-86 | a point outside radius 2 escapes at index 0 and is opaque black |
| Viewports.Viewport.New | src/viewport.rs:18-20 | the viewport has exactly the given corner and extents |
| Viewports.Viewport.Transformer | src/viewport.rs:28-48 | no contract of its own; its meaning is stated by TransformerScale (one magnitude, the larger ratio, signed per axis), TransformerCentres and TransformerMapsCenter (centre onto centre) and RoundTrip |
| Viewports.Transform.Apply | src/viewport.rs:43-47 | no contract of its own; AxesAreIndependent and TransformsCancel state what it computes |
| Viewports.Viewport.DecoratePixelator | src/viewport.rs:23-26 | no contract of its own; DecoratedCenter and DecorateTwice state what the decorated pixelator shows |
| Viewports.ViewPortDecorator.GetPixel | src/viewport.rs:59-62 | no contract of its own; DecoratedCenter (centre asks centre) and DecorateTwice (A→B→A shows the original) |
| Viewports.TransformerMapsCenter | src/viewport.rs:28-48 | the centre of the source viewport maps exactly onto the centre of the destination |
| Viewports.TransformerCentres | src/viewport.rs:37-41 | the transformer pivots on the centre of each viewport |
| Viewports.TransformerScale | src/viewport.rs:29-35 | both axes use the same magnitude, the larger of the two ratio magnitudes; each factor is negative iff that axis's ratio is negative |
| Viewports.AxesAreIndependent | src/viewport.rs:43-47 | each output coordinate depends only on the matching input coordinate |
| Viewports.FactorsAreRatios | src/viewport.rs:29-35 | with equal ratio magnitudes, each factor is the plain ratio of the extents |
| Viewports.TransformsCancel | src/viewport.rs:43-47 | two transforms with reciprocal factors and swapped centres undo each other |
| Viewports.EqualAspectIsSymmetric | src/viewport.rs:29-31 | equal ratio magnitudes from A to B imply the same from B to A |
| Viewports.RoundTrip | src/viewport.rs:28-48 | with equal aspect ratios, transforming to B and back to A returns the original point (the tests' direct/inverse pairs) |
| Viewports.TransformerFactors | src/viewport.rs:29-35 | the two factors in terms of the axis ratios |
| Viewports.ScaledDestination | src/viewport.rs:29-35 | scaling both destination extents by k > 0 scales both factors by k |
| Viewports.ShrinkTowardImage | src/viewport.rs:43-47 | factors scaled by 1 − d with the destination centre moved the share d toward the image of p keep p's image |
| Viewports.DecoratedCenter | src/viewport.rs:23-26 | the decorated pixelator at the source centre asks the inner pixelator at the destination centre |
| Viewports.DecorateTwice | src/viewport.rs:23-26 | with equal aspect ratios, decorating A→B then B→A shows the original pixelator unchanged |
| Viewports.SquareExample | src/viewport.rs:105-114 | the square test's three point pairs, in both directions |
| Viewports.FlippedExample | src/viewport.rs:116-125 | the flipped-y square test's point pairs, in both directions |
| Viewports.DifferingAspectExample | src/viewport.rs:175-184 | the differing-aspect test: the larger scale on both axes and centres kept |
| Viewports.ScreenToPlaneExample | src/viewport.rs:161-172 | the 800×400 screen onto the flipped 4×4 square: the test's five points |
| Viewports.RectExample | src/viewport.rs:127-136 | the 100×200 onto 10×20 test's three point pairs, in both directions |
| Viewports.RectFlippedExample | src/viewport.rs:138-147 | the same rectangles with the destination y flipped: the three pairs, in both directions |
| Viewports.ZeroCenterExample | src/viewport.rs:149-159 | the 800×800 screen onto the flipped square at (−2, 1.25): four pairs, in both directions, (640, 400) showing the origin |
| Viewports.WiderAspectExample | src/viewport.rs:186-197 | the 200×100 onto 10×10 test's five points, direct direction |
| Viewports.SwappedIsNotInverse | src/viewport.rs:28-48 | with differing aspect ratios, (0, 0) goes to (0, −5) and comes back as (−50, −100): the transformer back is not the inverse |
| App.Screen.New | src/main.rs:47-50 | the screen viewport has its corner at (0, 0) and extents width × height |
| App.ScreenCenter | src/main.rs:47-50 | the centre of the screen viewport is (width/2, height/2) |
| App.RowMajor | src/main.rs:24-27 | grid pixel (x, y) is at buffer position y·width + x, inside the buffer, and decodes back to (x, y) |
| App.NonEmptyHasWidth | src/main.rs:20-24 | a buffer with any position has width > 0, so `index % stride` never divides by zero |
| App.PixelPointInGrid | src/main.rs:24-27 | every buffer position decodes to a pixel inside the width × height grid |
| App.CreateImage | src/main.rs:19-31 | the image is width × height, and buffer position i holds the pixelator's colour at (i mod width, i div width) |
| App.SlintViewport.Into | src/main.rs:37-41 | the typed viewport has the record's corner and extents |
| App.HandleCalculateJuliaConstant | src/main.rs:55-61 | no contract of its own; ClickCenterPicksViewportCenter and ClickInterpolatesViewport state which constant a click picks |
| App.ClickCenterPicksViewportCenter | src/main.rs:55-61 | a click on the middle of the screen picks the centre of the viewport |
| App.ClickInterpolatesViewport | src/main.rs:55-61 | with the screen's aspect ratio, the constant picked at (x, y) is (x1 + x·dx/width, y1 + y·dy/height) |
| App.DiffFactor | src/main.rs:72 | no contract of its own; DiffFactorRange states its range and sign |
| App.DiffFactorRange | src/main.rs:72 | the diff factor is at most 0.6, equal to 0.6 iff scroll ≥ 600, negative iff scroll < 0, and scroll/1000 below 600 |
| App.MovedCornerIsShare | src/main.rs:79-80 | the corner moves the share d of the way toward the point under the cursor |
| App.HandleZoomViewport | src/main.rs:68-85 | no contract of its own; ZoomExtents, ZoomScalesExtents, ZoomMovesCornerTowardCursor and ZoomKeepsCursorFixed state the new viewport |
| App.ZoomExtents | src/main.rs:71-83 | the new extents are dx − dx·d and dy − dy·d, with d the diff factor of the scroll |
| App.ZoomScalesExtents | src/main.rs:72-82 | the new extents are the old ones times 1 − d with 1 − d ≥ 0.4: no axis flips; they shrink for scroll > 0 and grow for scroll < 0 |
| App.ZoomWithoutScroll | src/main.rs:68-85 | a scroll of 0 returns the viewport unchanged |
| App.ZoomMovesCornerTowardCursor | src/main.rs:75-80 | the new corner is x1 + d·(t.x − x1), y1 + d·(t.y − y1), where t is the fractal point under the mouse |
| App.ZoomedTransformer | src/main.rs:72-82 | after the zoom, the screen transformer's factors are scaled by 1 − d and its destination centre moves the share d toward t |
| App.ScaledAboutPointKeepsIt | src/main.rs:72-82 | a viewport scaled about the point under a pixel still shows that point at that pixel |
| App.ZoomKeepsCursorFixed | src/main.rs:66-85 | the zoom is centred on the cursor: the mouse pixel shows the same fractal point before and after |
| SingleCaches.SingleCache.constructor | src/singlecache.rs:9-11 | a new cache holds no pair and has made no calls |
| SingleCaches.SingleCache.GetOrSet | src/singlecache.rs:16-27 | hit: returns the stored value and does not call `func`; miss: calls `func` once and returns its result; either way the cache then holds exactly (key, result) |
| SingleCaches.AskTwice | src/singlecache.rs:18-26 | two consecutive requests for one key return equal values, and the second makes no call: together they call `func` once if the key was not held and never if it was |
| SingleCaches.AlternatingKeys | src/singlecache.rs:5-26 | capacity one: k1, k2, k1 with k1 ≠ k2 on a fresh cache calls `func` three times |
| Rationals.FromBigPair | src/rational.rs:65-69 | both parts are stored exactly as given, unnormalised |
| Rationals.FromBigInt | src/rational.rs:59-63 | denominator 1, standing for the integer |
| Rationals.FromPair | src/rational.rs:53-57 | both parts are the widened `i32`s |
| Rationals.FromInt | src/rational.rs:47-51 | denominator 1, standing for the integer |
| Rationals.Zero | src/rational.rs:22-24 | denominator 1, standing for 0 |
| Rationals.Add | src/rational.rs:71-84 | no contract of its own; AddIsSum states the sum's parts and value |
| Rationals.AddIsSum | src/rational.rs:71-92 | equal denominators are kept and the numerators added; for nonzero denominators the sum's denominator is nonzero and its value is the sum of the values |
| Rationals.Mul | src/rational.rs:135-156 | the denominator is never negative; the parts are the products, or both negated |
| Rationals.MulIsProduct | src/rational.rs:135-156 | for nonzero denominators the product's denominator is positive and its value is the product of the values |
| Rationals.Neg | src/rational.rs:101-106 | no contract of its own; NegIsOpposite states the sign of the denominator and the value |
| Rationals.NegIsOpposite | src/rational.rs:101-113 | negation (times −1/1) leaves a nonnegative denominator and stands for the opposite value |
| Rationals.Sub | src/rational.rs:115-120 | no contract of its own; SubIsDifference states the value |
| Rationals.SubIsDifference | src/rational.rs:115-127 | subtraction stands for the difference of the values |
| Rationals.Power | src/rational.rs:26-36 | the loop computes the n-fold product: 1/1 for 0, the rational itself for 1, one more factor per further exponent |
| Rationals.PowerIsRealPower | src/rational.rs:26-36 | the power of a rational with nonzero denominator has a nonzero denominator (positive from the square on) and stands for the real power |
| Rationals.CompareInts | src/rational.rs:174 | the integer comparison gives Less, Equal and Greater exactly as < , = , > |
| Rationals.Cmp | src/rational.rs:170-177 | no contract of its own; CmpIsValueOrder (order of the values for positive denominators) and AbsOfNegativeDenominator (not so for a negative one) |
| Rationals.Eq | src/rational.rs:179-183 | no contract of its own; EqIsSameValue and HalfEqualsTwoQuarters |
| Rationals.EqIsSameValue | src/rational.rs:179-183 | for nonzero denominators, `eq` holds iff the values are equal |
| Rationals.HalfEqualsTwoQuarters | src/rational.rs:179-183 | 1/2 equals 2/4 though the stored pairs differ |
| Rationals.CmpIsValueOrder | src/rational.rs:170-177 | with positive denominators, `cmp` is the order of the values |
| Rationals.CrossMultiply | src/rational.rs:171-174 | with positive denominators, cross-multiplication preserves < and = |
| Rationals.Abs | src/rational.rs:38-44 | no contract of its own; AbsIsMagnitude and AbsOfNegativeDenominator |
| Rationals.AbsIsMagnitude | src/rational.rs:38-44 | with a positive denominator, `abs` stands for the absolute value |
| Rationals.AbsOfNegativeDenominator | src/rational.rs:38-44 | 1/−2 stands for −1/2 but `cmp` puts it above zero, so `abs` returns it unchanged and negative |
| Rationals.CmpSigned | src/rational.rs:170-177 | the corrected `cmp`, no contract of its own; CmpSignedIsValueOrder states it |
| Rationals.AbsSigned | src/rational.rs:38-44 | the corrected `abs`, no contract of its own; AbsSignedIsMagnitude states it |
| Rationals.CmpSignedIsValueOrder | src/rational.rs:170-177 | the sign-corrected comparison is the order of the values for all nonzero denominators |
| Rationals.AbsSignedIsMagnitude | src/rational.rs:38-44 | the corrected `abs` stands for the absolute value for every nonzero denominator |
| Rationals.RationalCell.constructor | src/rational.rs:96 | the cell stands for the `&mut self` place that the `*Assign` operators overwrite; it starts out holding exactly the given rational |
| Rationals.RationalCell.AddAssign | src/rational.rs:95-99 | the place now holds the sum, which stands for the sum of the values |
| Rationals.RationalCell.SubAssign | src/rational.rs:129-133 | the place now holds the difference, which stands for the difference of the values |
| Rationals.RationalCell.MulAssign | src/rational.rs:158-162 | the place now holds the product, which stands for the product of the values |
| Rationals.NatToString | src/rational.rs:14-16 | the decimal rendering of a natural number is a nonempty string of digits |
| Rationals.IntToString | src/rational.rs:14-16 | the rendering of an integer is nonempty and has no space and no parenthesis |
| Rationals.ParseIntToString | src/rational.rs:14-16 | an integer's rendering parses back to the integer |
| Rationals.ParseFraction | src/rational.rs:16 | the "(n / d)" form parses back to n and d |
| Rationals.Display | src/rational.rs:11-18 | no contract of its own; DisplayRoundTrip states that its text parses back |
| Rationals.DisplayRoundTrip | src/rational.rs:11-18 | `Display` loses nothing: its text (the numerator alone over 1, "(n / d)" otherwise) parses back to the same rational |

## Left out

- `main` (src/main.rs:94-134) is left out. It wires the user-interface callbacks and the render cache, and opens URLs. Windowing, the event loop and the browser are outside the model. `handle_open_url` (src/main.rs:87-90) is left out for the same reason.
- Floating point is modelled as exact reals. Rounding, NaN and infinities are not modelled, nor are the `f32`/`f64` casts. The cursor-fixed zoom property and the round trips therefore hold exactly here, and only up to rounding in the program.
- Viewports.Viewport.Transformer requires non-zero source extents. With a zero extent the program divides by zero and produces infinities or NaN, which reals cannot express.
- Viewports.RoundTrip requires equal aspect ratios. When they differ, the transformer from B back to A is not the inverse of the one from A to B (Viewports.SwappedIsNotInverse).
- App.HandleCalculateJuliaConstant requires a non-zero screen size, for the same reason.
- App.HandleZoomViewport requires a non-zero screen size and non-zero viewport extents, for the same reason.
- App.CreateImage models the pixel buffer as an array filled in place. `SharedPixelBuffer` and the conversion into a user-interface `Image` are not modelled. `u32` sizes and the `usize` stride are natural numbers.
- `width` and `height` in CreateImage are not bounded by 2³², and 32-bit overflow of `width * height` is not modelled.
- SingleCaches.SingleCache.GetOrSet takes `func` as a pure function value. A closure whose result changes between calls, through interior mutability, is not modelled. A `func` that panics is not modelled either: the program then keeps the previous pair, because the store at src/singlecache.rs:25 is never reached. The Julia render with 0 iterations reaches this case, by dividing by zero at src/fractals.rs:85. `clone` is the identity on values.
- The `slint` types are records with the same fields: `Rgba8Pixel` as `Rgba`, `SlintViewport` and `JuliaConstant`. The generated code they come from is not part of this model.
- The `Add`/`Sub`/`Mul`/`Neg` impls for owned values delegate to the borrowed ones. They are the same functions here.
- `Debug` is not modelled.
- `PartialOrd::partial_cmp` always returns `Some(cmp)`. It is the same as `Cmp`.
- `BigInt`'s own arithmetic and decimal formatting are unbounded integers and their usual rendering. src/bigint.rs is not part of this model.
- The i32 iteration product `i*(255/iterations)` cannot overflow within the loop's range, so wrap-around is not modelled there.
- The loop's result is compared with the written-out colour only for escape indices within `0..=iterations`.

## Findings

| source | as written | input that shows it | evidently intended | confidence | as-written member | corrected member |
|---|---|---|---|---|---|---|
| src/rational.rs:38-44 | `cmp` cross-multiplies without regard to the signs of the denominators. `From<(BigInt, BigInt)>` keeps a negative denominator. | `Rational::from((1, -2))`, which stands for −1/2: `cmp` with zero gives Greater, so `abs` returns −1/2 | `cmp` orders by value, so `abs` is never negative | high, by proof; not executed | Rationals.AbsOfNegativeDenominator | Rationals.AbsSignedIsMagnitude |
