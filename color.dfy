/** `color_fractal` (Main.cc): turns the depth/root-index raster into an
    RGB image. Depths are clamped into an intensity window and scaled into
    the colour of the pixel's root; error pixels become white. */
module Coloring {
  import opened Machine
  import opened JuliaSet

  /** One output pixel: the three channel values passed to `write_pixel`,
      computed in `uint64_t`. */
  datatype Rgb = Rgb(r: Size, g: Size, b: Size)

  const White: Rgb := Rgb(0xFF, 0xFF, 0xFF)

  /** The `colors` palette (Main.cc:22-44), one colour per root index. */
  const Palette: seq<Rgb> := [
    Rgb(0xFF, 0x00, 0x00), Rgb(0xFF, 0x80, 0x00), Rgb(0xFF, 0xFF, 0x00), Rgb(0x00, 0xFF, 0x00),
    Rgb(0x00, 0xFF, 0xFF), Rgb(0x00, 0x00, 0xFF), Rgb(0xFF, 0x00, 0xFF), Rgb(0xFF, 0x80, 0x80),
    Rgb(0xFF, 0xC0, 0x80), Rgb(0xFF, 0xFF, 0x80), Rgb(0x80, 0xFF, 0x80), Rgb(0x80, 0xFF, 0xFF),
    Rgb(0x80, 0x80, 0xFF), Rgb(0xFF, 0x80, 0xFF), Rgb(0x80, 0x00, 0x00), Rgb(0x80, 0x40, 0x00),
    Rgb(0x80, 0x80, 0x00), Rgb(0x00, 0x80, 0x00), Rgb(0x00, 0x80, 0x80), Rgb(0x00, 0x00, 0x80),
    Rgb(0x80, 0x00, 0x80)]

  // ---------------------------------------------------------------------
  // Mixed signed/unsigned arithmetic of the intensity window.

  /** An `int64_t` converted to `uint64_t` (a comparison with a `uint64_t`
      depth converts it this way). */
  function ToUnsigned(v: Int64): (r: Size)
    ensures 0 <= v ==> r == v
    ensures v < 0 ==> r == SIZE_LIMIT + v
  {
    if v < 0 then SIZE_LIMIT + v else v
  }

  /** A `uint64_t` stored into an `int64_t` (two's complement). */
  function ToSigned(d: Size): (r: Int64)
    ensures ToUnsigned(r) == d
  {
    if d < 0x8000_0000_0000_0000 then d else d - SIZE_LIMIT
  }

  /** The signed subtraction `max - min` stored in a `uint64_t`. */
  function Range(lo: Int64, hi: Int64): (r: Size)
  {
    (hi - lo) % SIZE_LIMIT
  }

  /** The range is the unsigned distance between the two bounds. */
  lemma RangeIsUnsignedDistance(lo: Int64, hi: Int64)
    ensures ToUnsigned(lo) <= ToUnsigned(hi) ==> Range(lo, hi) == ToUnsigned(hi) - ToUnsigned(lo)
    ensures ToUnsigned(hi) < ToUnsigned(lo) ==> Range(lo, hi) == SIZE_LIMIT - (ToUnsigned(lo) - ToUnsigned(hi))
    ensures Range(lo, hi) == 0 <==> lo == hi
  {
    var d := ToUnsigned(hi) - ToUnsigned(lo);
    assert hi - lo == d || hi - lo == d + SIZE_LIMIT || hi - lo == d - SIZE_LIMIT;
  }

  // ---------------------------------------------------------------------
  // Bound selection (Main.cc:46-80).

  /** The intensity window. */
  datatype Intensities = Intensities(lo: Int64, hi: Int64)

  /** The window after the argument defaults (Main.cc:47-60), and whether
      the data scan of Main.cc:63 runs. `first` is the depth of pixel (0, 0),
      read into `min_intensity` only when neither bound is given. The scan
      condition tests `compute_max_intensity` twice, as written, so a
      computed min alone does not start the scan. */
  datatype Start = Start(window: Intensities, computeMin: bool, computeMax: bool)

  function InitialBounds(minArg: Int64, maxArg: Int64, first: Size): (s: Start)
  {
    var lo := if minArg >= 0 then minArg else if maxArg >= 0 then maxArg else ToSigned(first);
    var hi := if maxArg >= 0 then maxArg else lo;
    Start(Intensities(lo, hi), minArg < 0, maxArg < 0)
  }

  /** Whether the scan runs: `compute_max_intensity || compute_max_intensity`. */
  predicate ScanRuns(s: Start)
  {
    s.computeMax || s.computeMax
  }

  /** One non-error pixel of the scan: each bound moves out to the depth
      when the depth lies beyond it (both guards test `compute_max`). */
  function Widen(b: Intensities, p: Pixel, computeMax: bool): Intensities
  {
    if p.error then b
    else
      var lo := if computeMax && p.depth < ToUnsigned(b.lo) then ToSigned(p.depth) else b.lo;
      var hi := if computeMax && p.depth > ToUnsigned(b.hi) then ToSigned(p.depth) else b.hi;
      Intensities(lo, hi)
  }

  /** Pixel (x, y) is reached before position (y0, x0) in row-major order. */
  predicate ScannedBefore(x: int, y: int, y0: int, x0: int)
  {
    y < y0 || (y == y0 && x < x0)
  }

  /** The window after scanning rows 0 .. y-1 and the first x pixels of row y. */
  function Scanned(data: array2<Pixel>, b: Intensities, computeMax: bool, y: nat, x: nat): Intensities
    reads data
    requires x <= data.Length0 && y <= data.Length1 && (x > 0 ==> y < data.Length1)
    decreases y, x
  {
    if x > 0 then Widen(Scanned(data, b, computeMax, y, x - 1), data[x - 1, y], computeMax)
    else if y > 0 then Scanned(data, b, computeMax, y - 1, data.Length0)
    else b
  }

  /** The depth of pixel (0, 0), when there is one. */
  function FirstDepth(data: array2<Pixel>): Size
    reads data
  {
    if data.Length0 > 0 && data.Length1 > 0 then data[0, 0].depth else 0
  }

  /** The window `color_fractal` settles on. */
  function SelectBounds(data: array2<Pixel>, minArg: Int64, maxArg: Int64): Intensities
    reads data
  {
    var s := InitialBounds(minArg, maxArg, FirstDepth(data));
    if ScanRuns(s) then Scanned(data, s.window, s.computeMax, data.Length1, 0) else s.window
  }

  /** The three ways the arguments select the window: with neither bound
      given both start at pixel (0, 0)'s depth and the scan runs; with only
      max given min is set to it and no scan runs; with only min given max
      is set to it and the scan runs (and may still lower min); with both
      given they are used as they are. */
  lemma SelectBoundsCases(data: array2<Pixel>, minArg: Int64, maxArg: Int64)
    ensures var s := InitialBounds(minArg, maxArg, FirstDepth(data));
      && (minArg < 0 && maxArg < 0 ==>
            ScanRuns(s) && s.window == Intensities(ToSigned(FirstDepth(data)), ToSigned(FirstDepth(data))))
      && (minArg < 0 <= maxArg ==> SelectBounds(data, minArg, maxArg) == Intensities(maxArg, maxArg))
      && (maxArg < 0 <= minArg ==> ScanRuns(s) && s.window == Intensities(minArg, minArg))
      && (0 <= minArg && 0 <= maxArg ==> SelectBounds(data, minArg, maxArg) == Intensities(minArg, maxArg))
  {
  }

  /** Some non-error pixel reached before (y0, x0) has depth d. */
  ghost predicate DepthSeen(data: array2<Pixel>, y0: int, x0: int, d: Size)
    reads data
  {
    exists i, j :: 0 <= i < data.Length0 && 0 <= j < data.Length1 && ScannedBefore(i, j, y0, x0) &&
      !data[i, j].error && data[i, j].depth == d
  }

  /** The scan's min only falls: it ends at or below where it started and
      at or below every non-error depth scanned, and is either its start or
      one of those depths. */
  lemma {:induction false} ScannedLowest(data: array2<Pixel>, b: Intensities, y: nat, x: nat)
    requires x <= data.Length0 && y <= data.Length1 && (x > 0 ==> y < data.Length1)
    ensures var r := Scanned(data, b, true, y, x);
      && ToUnsigned(r.lo) <= ToUnsigned(b.lo)
      && (forall i, j :: 0 <= i < data.Length0 && 0 <= j < data.Length1 && ScannedBefore(i, j, y, x) && !data[i, j].error ==>
            ToUnsigned(r.lo) <= data[i, j].depth)
      && (r.lo == b.lo || DepthSeen(data, y, x, ToUnsigned(r.lo)))
    decreases y, x
  {
    var r := Scanned(data, b, true, y, x);
    if x > 0 {
      ScannedLowest(data, b, y, x - 1);
      var q := Scanned(data, b, true, y, x - 1);
      forall i, j | 0 <= i < data.Length0 && 0 <= j < data.Length1 && ScannedBefore(i, j, y, x) && !data[i, j].error
        ensures ToUnsigned(r.lo) <= data[i, j].depth
      {
        if ScannedBefore(i, j, y, x - 1) {
          assert ToUnsigned(q.lo) <= data[i, j].depth;
        }
      }
      if r.lo != b.lo && r.lo == q.lo {
        var i, j :| 0 <= i < data.Length0 && 0 <= j < data.Length1 && ScannedBefore(i, j, y, x - 1) &&
          !data[i, j].error && data[i, j].depth == ToUnsigned(q.lo);
        assert ScannedBefore(i, j, y, x);
      }
      if r.lo != q.lo {
        assert ScannedBefore(x - 1, y, y, x);
      }
    } else if y > 0 {
      ScannedLowest(data, b, y - 1, data.Length0);
      forall i, j | 0 <= i < data.Length0 && 0 <= j < data.Length1 && ScannedBefore(i, j, y, x) && !data[i, j].error
        ensures ToUnsigned(r.lo) <= data[i, j].depth
      {
        assert ScannedBefore(i, j, y - 1, data.Length0);
      }
      if r.lo != b.lo {
        var i, j :| 0 <= i < data.Length0 && 0 <= j < data.Length1 && ScannedBefore(i, j, y - 1, data.Length0) &&
          !data[i, j].error && data[i, j].depth == ToUnsigned(r.lo);
        assert ScannedBefore(i, j, y, x);
      }
    }
  }

  /** The scan's max only rises: it ends at or above where it started and
      at or above every non-error depth scanned, and is either its start or
      one of those depths. */
  lemma {:induction false} ScannedHighest(data: array2<Pixel>, b: Intensities, y: nat, x: nat)
    requires x <= data.Length0 && y <= data.Length1 && (x > 0 ==> y < data.Length1)
    ensures var r := Scanned(data, b, true, y, x);
      && ToUnsigned(r.hi) >= ToUnsigned(b.hi)
      && (forall i, j :: 0 <= i < data.Length0 && 0 <= j < data.Length1 && ScannedBefore(i, j, y, x) && !data[i, j].error ==>
            data[i, j].depth <= ToUnsigned(r.hi))
      && (r.hi == b.hi || DepthSeen(data, y, x, ToUnsigned(r.hi)))
    decreases y, x
  {
    var r := Scanned(data, b, true, y, x);
    if x > 0 {
      ScannedHighest(data, b, y, x - 1);
      var q := Scanned(data, b, true, y, x - 1);
      forall i, j | 0 <= i < data.Length0 && 0 <= j < data.Length1 && ScannedBefore(i, j, y, x) && !data[i, j].error
        ensures data[i, j].depth <= ToUnsigned(r.hi)
      {
        if ScannedBefore(i, j, y, x - 1) {
          assert data[i, j].depth <= ToUnsigned(q.hi);
        }
      }
      if r.hi != b.hi && r.hi == q.hi {
        var i, j :| 0 <= i < data.Length0 && 0 <= j < data.Length1 && ScannedBefore(i, j, y, x - 1) &&
          !data[i, j].error && data[i, j].depth == ToUnsigned(q.hi);
        assert ScannedBefore(i, j, y, x);
      }
      if r.hi != q.hi {
        assert ScannedBefore(x - 1, y, y, x);
      }
    } else if y > 0 {
      ScannedHighest(data, b, y - 1, data.Length0);
      forall i, j | 0 <= i < data.Length0 && 0 <= j < data.Length1 && ScannedBefore(i, j, y, x) && !data[i, j].error
        ensures data[i, j].depth <= ToUnsigned(r.hi)
      {
        assert ScannedBefore(i, j, y - 1, data.Length0);
      }
      if r.hi != b.hi {
        var i, j :| 0 <= i < data.Length0 && 0 <= j < data.Length1 && ScannedBefore(i, j, y - 1, data.Length0) &&
          !data[i, j].error && data[i, j].depth == ToUnsigned(r.hi);
        assert ScannedBefore(i, j, y, x);
      }
    }
  }

  /** The bound selection of `color_fractal` (Main.cc:47-80): argument
      defaults, then (as written) a scan of the non-error pixels guarded by
      `compute_max_intensity` only. */
  method IntensityBounds(data: array2<Pixel>, minArg: Int64, maxArg: Int64) returns (lo: Int64, hi: Int64)
    requires minArg < 0 && maxArg < 0 ==> data.Length0 > 0 && data.Length1 > 0
    ensures Intensities(lo, hi) == SelectBounds(data, minArg, maxArg)
  {
    lo, hi := minArg, maxArg;
    var computeMin, computeMax := false, false;
    if lo < 0 {
      if hi >= 0 {
        lo := hi;
      } else {
        lo := ToSigned(data[0, 0].depth);
      }
      computeMin := true;
    }
    if hi < 0 {
      hi := lo;
      computeMax := true;
    }
    ghost var start := Intensities(lo, hi);
    assert InitialBounds(minArg, maxArg, FirstDepth(data)) == Start(start, computeMin, computeMax);
    if computeMax || computeMax {
      var y := 0;
      while y < data.Length1
        invariant 0 <= y <= data.Length1
        invariant Intensities(lo, hi) == Scanned(data, start, computeMax, y, 0)
      {
        lo, hi := ScanRow(data, y, lo, hi, computeMax, start);
        y := y + 1;
      }
    }
  }

  /** The inner loop of the scan over row y. */
  method ScanRow(data: array2<Pixel>, y: nat, lo0: Int64, hi0: Int64, computeMax: bool, ghost start: Intensities)
    returns (lo: Int64, hi: Int64)
    requires y < data.Length1
    requires Intensities(lo0, hi0) == Scanned(data, start, computeMax, y, 0)
    ensures Intensities(lo, hi) == Scanned(data, start, computeMax, y + 1, 0)
  {
    lo, hi := lo0, hi0;
    var x := 0;
    while x < data.Length0
      invariant 0 <= x <= data.Length0
      invariant Intensities(lo, hi) == Scanned(data, start, computeMax, y, x)
    {
      var p := data[x, y];
      if !p.error {
        if computeMax && p.depth < ToUnsigned(lo) {
          lo := ToSigned(p.depth);
        }
        if computeMax && p.depth > ToUnsigned(hi) {
          hi := ToSigned(p.depth);
        }
      }
      x := x + 1;
    }
  }

  // ---------------------------------------------------------------------
  // Shading (Main.cc:84-108).

  /** The depth clamped into the window: first down to max, then up to min
      (both compared as `uint64_t`). */
  function Clamp(depth: Size, w: Intensities): (d: Size)
    ensures ToUnsigned(w.lo) <= ToUnsigned(w.hi) ==> ToUnsigned(w.lo) <= d <= ToUnsigned(w.hi)
    ensures ToUnsigned(w.lo) <= depth <= ToUnsigned(w.hi) ==> d == depth
    ensures ToUnsigned(w.hi) < ToUnsigned(w.lo) ==> d == ToUnsigned(w.lo)
    ensures ToUnsigned(w.lo) <= ToUnsigned(w.hi) && depth > ToUnsigned(w.hi) ==> d == ToUnsigned(w.hi)
    ensures depth < ToUnsigned(w.lo) ==> d == ToUnsigned(w.lo)
  {
    var d1 := if depth > ToUnsigned(w.hi) then ToUnsigned(w.hi) else depth;
    if d1 < ToUnsigned(w.lo) then ToUnsigned(w.lo) else d1
  }

  /** `(a * c) / range` in `uint64_t`. */
  function ScaleDown(a: Size, c: Size, range: Size): Size
    requires range > 0
  {
    ((a * c) % SIZE_LIMIT) / range
  }

  /** One channel of a non-error pixel: the clamped depth's offset from min
      scaled by c / range in `uint64_t`; with an empty range the channel is
      all or nothing. */
  function Channel(depth: Size, c: Size, w: Intensities): Size
  {
    var d := Clamp(depth, w);
    var range := Range(w.lo, w.hi);
    if range == 0 then (if d >= ToUnsigned(w.hi) then c else 0)
    else ScaleDown(SizeSub(d, ToUnsigned(w.lo)), c, range)
  }

  /** The colour of one pixel under the window w. */
  function Shade(p: Pixel, w: Intensities): Rgb
    requires !p.error ==> p.rootIndex < |Palette|
  {
    if p.error then White
    else
      var c := Palette[p.rootIndex];
      Rgb(Channel(p.depth, c.r, w), Channel(p.depth, c.g, w), Channel(p.depth, c.b, w))
  }

  /** With a proper window (min < max, unsigned, and a span small enough
      that the product does not wrap) a channel is the clamped depth's
      offset scaled by c / (max - min): 0 at or below min, c at or above
      max, and never above c. */
  lemma ChannelScales(depth: Size, c: Size, w: Intensities)
    requires c <= 0xFF
    requires ToUnsigned(w.lo) < ToUnsigned(w.hi) && ToUnsigned(w.hi) - ToUnsigned(w.lo) < 0x100_0000_0000_0000
    ensures var lo, hi := ToUnsigned(w.lo), ToUnsigned(w.hi);
      && Channel(depth, c, w) == (Clamp(depth, w) - lo) * c / (hi - lo)
      && Channel(depth, c, w) <= c
      && (depth <= lo ==> Channel(depth, c, w) == 0)
      && (depth >= hi ==> Channel(depth, c, w) == c)
  {
    var lo, hi := ToUnsigned(w.lo), ToUnsigned(w.hi);
    var d := Clamp(depth, w);
    RangeIsUnsignedDistance(w.lo, w.hi);
    OffsetScales(d - lo, hi - lo, c);
    if depth <= lo {
      assert d == lo;
    }
    if depth >= hi {
      assert d == hi;
    }
  }

  /** The scaling step on an offset within a span small enough not to wrap. */
  lemma OffsetScales(offset: nat, span: nat, c: Size)
    requires c <= 0xFF && 0 < span < 0x100_0000_0000_0000 && offset <= span
    ensures ScaleDown(offset, c, span) == offset * c / span <= c
    ensures offset == 0 ==> ScaleDown(offset, c, span) == 0
    ensures offset == span ==> ScaleDown(offset, c, span) == c
  {
    MulMonotone(offset, span, c);
    MulMonotone(span, 0x100_0000_0000_0000, c);
    ModSmall(offset * c);
    DivBounded(offset * c, span, c);
    if offset == span {
      DivSelf(span, c);
    }
  }

  /** An empty window (min == max) lights every non-error pixel fully: the
      clamps pin the depth to the bound, which meets the `>= max` test. */
  lemma ChannelFlat(depth: Size, c: Size, w: Intensities)
    requires w.lo == w.hi
    ensures Channel(depth, c, w) == c
  {
    RangeIsUnsignedDistance(w.lo, w.hi);
  }

  /** A window whose min lies above its max (unsigned) leaves every
      non-error pixel black: the clamps pin the depth to min. */
  lemma ChannelInvertedIsBlack(depth: Size, c: Size, w: Intensities)
    requires ToUnsigned(w.hi) < ToUnsigned(w.lo)
    ensures Channel(depth, c, w) == 0
  {
    RangeIsUnsignedDistance(w.lo, w.hi);
    assert SizeSub(Clamp(depth, w), ToUnsigned(w.lo)) == 0;
    ScaleDownZero(c, Range(w.lo, w.hi));
  }

  /** Deeper pixels are never darker: within a proper window each channel
      is monotone in the depth. */
  lemma ChannelMonotone(d1: Size, d2: Size, c: Size, w: Intensities)
    requires c <= 0xFF && d1 <= d2
    requires ToUnsigned(w.lo) < ToUnsigned(w.hi) && ToUnsigned(w.hi) - ToUnsigned(w.lo) < 0x100_0000_0000_0000
    ensures Channel(d1, c, w) <= Channel(d2, c, w)
  {
    var lo, hi := ToUnsigned(w.lo), ToUnsigned(w.hi);
    ChannelScales(d1, c, w);
    ChannelScales(d2, c, w);
    ClampMonotone(d1, d2, w);
    ScaledMonotone(Clamp(d1, w) - lo, Clamp(d2, w) - lo, hi - lo, c);
  }

  lemma ScaledMonotone(o1: nat, o2: nat, span: nat, c: nat)
    requires o1 <= o2 && span > 0
    ensures o1 * c / span <= o2 * c / span
  {
    MulMonotone(o1, o2, c);
    DivMonotone(o1 * c, o2 * c, span);
  }

  lemma ClampMonotone(d1: Size, d2: Size, w: Intensities)
    requires d1 <= d2
    ensures Clamp(d1, w) <= Clamp(d2, w)
  {
  }

  lemma ModSmall(p: nat)
    requires p < SIZE_LIMIT
    ensures p % SIZE_LIMIT == p
  {
  }

  lemma ScaleDownZero(c: Size, range: Size)
    requires range > 0
    ensures ScaleDown(0, c, range) == 0
  {
  }

  lemma MulMonotone(a: nat, b: nat, c: nat)
    requires a <= b
    ensures a * c <= b * c
  {
  }

  lemma DivSelf(n: nat, c: nat)
    requires n > 0
    ensures n * c / n == c
  {
    var q, r := n * c / n, n * c % n;
    assert n * c == n * q + r;
    assert n * (c - q) == r;
    if c > q {
      MulMonotone(1, c - q, n);
    }
  }

  lemma DivBounded(a: nat, n: nat, c: nat)
    requires n > 0 && a <= n * c
    ensures a / n <= c
  {
    if a / n > c {
      MulMonotone(c + 1, a / n, n);
    }
  }

  lemma DivMonotone(a: nat, b: nat, n: nat)
    requires n > 0 && a <= b
    ensures a / n <= b / n
  {
    var q := b / n;
    if a / n > q {
      MulMonotone(q + 1, a / n, n);
    }
  }

  /** `color_fractal`: the window, then one colour per pixel, row by row. */
  method ColorFractal(data: array2<Pixel>, minArg: Int64, maxArg: Int64) returns (image: array2<Rgb>)
    requires minArg < 0 && maxArg < 0 ==> data.Length0 > 0 && data.Length1 > 0
    requires forall x, y :: 0 <= x < data.Length0 && 0 <= y < data.Length1 && !data[x, y].error ==>
      data[x, y].rootIndex < |Palette|
    ensures fresh(image) && image.Length0 == data.Length0 && image.Length1 == data.Length1
    ensures forall x, y :: 0 <= x < data.Length0 && 0 <= y < data.Length1 ==>
      image[x, y] == Shade(data[x, y], SelectBounds(data, minArg, maxArg))
  {
    var lo, hi := IntensityBounds(data, minArg, maxArg);
    var w := Intensities(lo, hi);
    image := new Rgb[data.Length0, data.Length1]((x, y) => Rgb(0, 0, 0));
    var y := 0;
    while y < data.Length1
      invariant 0 <= y <= data.Length1
      invariant forall i, j :: 0 <= i < data.Length0 && 0 <= j < y ==> image[i, j] == Shade(data[i, j], w)
    {
      var x := 0;
      while x < data.Length0
        invariant 0 <= x <= data.Length0
        invariant forall i, j :: 0 <= i < data.Length0 && 0 <= j < y ==> image[i, j] == Shade(data[i, j], w)
        invariant forall i :: 0 <= i < x ==> image[i, y] == Shade(data[i, y], w)
      {
        var p := data[x, y];
        if p.error {
          image[x, y] := White;
        } else {
          var c := Palette[p.rootIndex];
          image[x, y] := Rgb(Channel(p.depth, c.r, w), Channel(p.depth, c.g, w), Channel(p.depth, c.b, w));
        }
        x := x + 1;
      }
      y := y + 1;
    }
  }
}
