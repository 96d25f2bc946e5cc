/** `julia_fractal` (JuliaSet.cc): runs the root finder from every pixel,
    classifies the result, and collects the distinct roots found. */
module JuliaSet {
  import opened Machine
  import opened ComplexNumbers
  import opened Iterate

  /** One raster entry, the three channels `write_pixel` stores:
      iteration depth, root index, and the error flag. */
  datatype Pixel = Pixel(depth: Size, rootIndex: nat, error: bool)

  /** What a pixel whose root finder returned the (0,0) sentinel holds. */
  const ErrorPixel: Pixel := Pixel(0, 0, true)

  /** `FractalResult` (JuliaSet.hh): the root list and the w-by-h raster,
      indexed [x, y]. Later passes rewrite both in place. */
  class FractalResult {
    var roots: seq<Complex>
    var data: array2<Pixel>

    constructor (roots: seq<Complex>, data: array2<Pixel>)
      ensures this.roots == roots && this.data == data
    {
      this.roots := roots;
      this.data := data;
    }

    /** Every non-error pixel names an entry of the root list. */
    predicate Valid()
      reads this, data
    {
      forall x, y :: 0 <= x < data.Length0 && 0 <= y < data.Length1 && !data[x, y].error ==>
        data[x, y].rootIndex < |roots|
    }
  }

  /** The pointer `progress` through which the renderer reports the last row done. */
  class ProgressCounter {
    var row: Size

    constructor ()
      ensures row == 0
    {
      row := 0;
    }
  }

  // ---------------------------------------------------------------------
  // The specification: a left-to-right scan over the root finder's results
  // in row-major order.

  /** The root finder's answer for one pixel: the value it returned and the
      depth `max_depth - remaining`, computed in `size_t`. */
  datatype Sample = Sample(value: Complex, depth: Size)

  /** The rectangle of the complex plane the raster covers: x runs over
      [xmin, xmax), y over [ymin, ymax). */
  datatype Viewport = Viewport(xmin: real, xmax: real, ymin: real, ymax: real)

  /** The distance between neighbouring pixels along one axis, `(hi - lo) / n`.
      With n = 0 the axis has no pixels and the value is never used. */
  function Spacing(lo: real, hi: real, n: nat): real
  {
    if n == 0 then 0.0 else (hi - lo) / (n as real)
  }

  /** The coordinate of pixel i along one axis, accumulated one step per
      pixel from `lo`. */
  function Coordinate(lo: real, step: real, i: nat): real
  {
    if i == 0 then lo else Coordinate(lo, step, i - 1) + step
  }

  /** Pixel i of n along an axis lies at lo + i * (hi - lo) / n, so the
      pixels split the axis evenly and pixel n would sit at hi. */
  lemma {:induction false} CoordinateIsLinear(lo: real, step: real, i: nat)
    ensures Coordinate(lo, step, i) == lo + (i as real) * step
  {
    if i > 0 {
      CoordinateIsLinear(lo, step, i - 1);
    }
  }

  /** The starting guess for pixel (x, y) of a w-by-h raster of `view`. */
  function Guess(view: Viewport, w: nat, h: nat, x: nat, y: nat): Complex
  {
    Complex(Coordinate(view.xmin, Spacing(view.xmin, view.xmax, w), x),
            Coordinate(view.ymin, Spacing(view.ymin, view.ymax, h), y))
  }

  /** The sample for pixel (x, y). */
  function SampleAt(cs: seq<Complex>, view: Viewport, w: nat, h: nat, precision: real, maxDepth: Size, x: nat, y: nat): Sample
    requires |cs| >= 1
  {
    var (value, rest) := RootResult(cs, Guess(view, w, h, x, y), precision, maxDepth);
    Sample(value, SizeSub(maxDepth, rest))
  }

  /** `grid` gives the sample of every pixel. */
  ghost predicate IsGrid(grid: (nat, nat) -> Sample, cs: seq<Complex>, view: Viewport, w: nat, h: nat, precision: real, maxDepth: Size)
    requires |cs| >= 1
  {
    forall x: nat, y: nat {:trigger SampleAt(cs, view, w, h, precision, maxDepth, x, y)} ::
      grid(x, y) == SampleAt(cs, view, w, h, precision, maxDepth, x, y)
  }

  /** The samples of the whole plane. */
  function Grid(cs: seq<Complex>, view: Viewport, w: nat, h: nat, precision: real, maxDepth: Size): (grid: (nat, nat) -> Sample)
    requires |cs| >= 1
    ensures IsGrid(grid, cs, view, w, h, precision, maxDepth)
  {
    (x: nat, y: nat) => SampleAt(cs, view, w, h, precision, maxDepth, x, y)
  }

  /** The first x samples of row y. */
  function Row(grid: (nat, nat) -> Sample, y: nat, x: nat): (r: seq<Sample>)
    ensures |r| == x
  {
    if x == 0 then [] else Row(grid, y, x - 1) + [grid(x - 1, y)]
  }

  /** Entry i of the first x samples of row y is the sample of pixel (i, y). */
  lemma {:induction false} RowIndex(grid: (nat, nat) -> Sample, y: nat, x: nat, i: nat)
    requires i < x
    ensures Row(grid, y, x)[i] == grid(i, y)
  {
    if i < x - 1 {
      RowIndex(grid, y, x - 1, i);
    }
  }

  /** The samples of rows 0 .. h-1 of a raster w pixels wide, row after row. */
  function Samples(grid: (nat, nat) -> Sample, w: nat, h: nat): seq<Sample>
  {
    if h == 0 then [] else Samples(grid, w, h - 1) + Row(grid, h - 1, w)
  }

  /** Where row y starts in a row-major raster w pixels wide: y * w,
      counted one row at a time. */
  function RowStart(w: nat, y: nat): nat
  {
    if y == 0 then 0 else RowStart(w, y - 1) + w
  }

  /** The row offset is the product y * w. */
  lemma {:induction false} RowStartIsProduct(w: nat, y: nat)
    ensures RowStart(w, y) == y * w
  {
    if y > 0 {
      RowStartIsProduct(w, y - 1);
      assert (y - 1) * w + w == y * w;
    }
  }

  /** Every pixel of row y lies before the start of any later row. */
  lemma {:induction false} RowStartMonotone(w: nat, y: nat, h: nat)
    requires y < h
    ensures RowStart(w, y) + w <= RowStart(w, h)
    decreases h
  {
    if y < h - 1 {
      RowStartMonotone(w, y, h - 1);
    }
  }

  /** Entry k of s exists and is v. */
  predicate IsAt<T(==)>(s: seq<T>, k: int, v: T)
  {
    0 <= k < |s| && s[k] == v
  }

  /** A raster of h rows has RowStart(w, h) samples. */
  lemma {:induction false} SamplesLength(grid: (nat, nat) -> Sample, w: nat, h: nat)
    ensures |Samples(grid, w, h)| == RowStart(w, h)
  {
    if h > 0 {
      SamplesLength(grid, w, h - 1);
    }
  }

  /** Sample RowStart(w, y) + x of a raster of h rows is the one for pixel (x, y). */
  lemma {:induction false} SampleIndex(grid: (nat, nat) -> Sample, w: nat, h: nat, x: nat, y: nat)
    requires x < w && y < h
    ensures IsAt(Samples(grid, w, h), RowStart(w, y) + x, grid(x, y))
  {
    var prev := Samples(grid, w, h - 1);
    var row := Row(grid, h - 1, w);
    var k := RowStart(w, y) + x;
    SamplesLength(grid, w, h - 1);
    assert Samples(grid, w, h) == prev + row;
    if y < h - 1 {
      SampleIndex(grid, w, h - 1, x, y);
      IndexAppend(prev, row, k);
    } else {
      RowIndex(grid, y, w, x);
      IndexAppend(prev, row, k);
    }
  }

  /** Indexing a concatenation. */
  lemma IndexAppend<T>(a: seq<T>, b: seq<T>, k: nat)
    requires k < |a| + |b|
    ensures k < |a| ==> (a + b)[k] == a[k]
    ensures k >= |a| ==> (a + b)[k] == b[k - |a|]
  {
  }

  /** Row-major layout: sample RowStart(w, y) + x is the one for pixel (x, y). */
  lemma SamplesLayout(grid: (nat, nat) -> Sample, w: nat, h: nat)
    ensures forall x, y :: 0 <= x < w && 0 <= y < h ==>
      IsAt(Samples(grid, w, h), RowStart(w, y) + x, grid(x, y))
  {
    forall x, y | 0 <= x < w && 0 <= y < h
      ensures IsAt(Samples(grid, w, h), RowStart(w, y) + x, grid(x, y))
    {
      SampleIndex(grid, w, h, x, y);
    }
  }

  /** The state of the scan: the root list and the pixels written so far. */
  datatype Scan = Scan(roots: seq<Complex>, pixels: seq<Pixel>)

  /** The scan either runs through or stops with "too many roots". */
  datatype Discovery = Found(scan: Scan) | TooManyRoots

  /** The index the linear search stops at: the first root `equal` to v
      under the detection precision, or the list length if there is none. */
  function FirstMatch(roots: seq<Complex>, v: Complex, detect: real): (i: nat)
    ensures i <= |roots|
    ensures forall j :: 0 <= j < i ==> !Equal(roots[j], v, detect)
    ensures i < |roots| ==> Equal(roots[i], v, detect)
  {
    if roots == [] then 0
    else if Equal(roots[0], v, detect) then 0
    else 1 + FirstMatch(roots[1..], v, detect)
  }

  /** Where one pixel's value goes: the root list afterwards and the pixel
      written, or no room for the new root it needs. */
  datatype Placement = Placed(roots: seq<Complex>, pixel: Pixel) | NoRoom

  /** One pixel of the scan. The sentinel becomes an error pixel without
      looking at the roots; otherwise the value takes the index of its first
      match, or is appended as a new root, unless the list already holds more
      than `degree` roots. */
  function Classify(roots: seq<Complex>, a: Sample, degree: nat, detect: real): Placement
  {
    if a.value == Zero then Placed(roots, ErrorPixel)
    else
      var i := FirstMatch(roots, a.value, detect);
      if i < |roots| then Placed(roots, Pixel(a.depth, i, false))
      else if |roots| > degree then NoRoom
      else Placed(roots + [a.value], Pixel(a.depth, i, false))
  }

  /** One more sample: a stopped scan stays stopped; a running one places
      the sample, or stops when there is no room for it. */
  function Extend(d: Discovery, a: Sample, degree: nat, detect: real): Discovery
  {
    match d
    case TooManyRoots => TooManyRoots
    case Found(s) =>
      match Classify(s.roots, a, degree, detect)
      case NoRoom => TooManyRoots
      case Placed(roots, p) => Found(Scan(roots, s.pixels + [p]))
  }

  /** The scan over a sequence of samples, in order. */
  function Discover(samples: seq<Sample>, degree: nat, detect: real): Discovery
  {
    if samples == [] then Found(Scan([], []))
    else Extend(Discover(samples[..|samples| - 1], degree, detect), samples[|samples| - 1], degree, detect)
  }

  /** The same scan over a w-wide raster, counted by pixel position: rows
      0 .. y-1, then the first x pixels of row y. */
  function ScanTo(grid: (nat, nat) -> Sample, w: nat, y: nat, x: nat, degree: nat, detect: real): Discovery
    decreases y, x
  {
    if x > 0 then Extend(ScanTo(grid, w, y, x - 1, degree, detect), grid(x - 1, y), degree, detect)
    else if y > 0 then ScanTo(grid, w, y - 1, w, degree, detect)
    else Found(Scan([], []))
  }

  /** Counting by position is the scan of the row-major sample sequence. */
  lemma {:induction false} ScanToIsDiscover(grid: (nat, nat) -> Sample, w: nat, y: nat, x: nat, degree: nat, detect: real)
    requires x <= w
    ensures ScanTo(grid, w, y, x, degree, detect) == Discover(Samples(grid, w, y) + Row(grid, y, x), degree, detect)
  {
    RowsScanned(grid, w, y, degree, detect);
    RowScanned(grid, w, y, x, degree, detect);
  }

  /** ScanToIsDiscover at the start of row y. */
  lemma {:induction false} RowsScanned(grid: (nat, nat) -> Sample, w: nat, y: nat, degree: nat, detect: real)
    ensures ScanTo(grid, w, y, 0, degree, detect) == Discover(Samples(grid, w, y) + Row(grid, y, 0), degree, detect)
  {
    if y > 0 {
      RowsScanned(grid, w, y - 1, degree, detect);
      RowScanned(grid, w, y - 1, w, degree, detect);
      ScanToNextRow(grid, w, y, degree, detect);
    } else {
      assert Samples(grid, w, 0) + Row(grid, 0, 0) == [];
    }
  }

  /** ScanToIsDiscover along row y, from its start. */
  lemma {:induction false} RowScanned(grid: (nat, nat) -> Sample, w: nat, y: nat, x: nat, degree: nat, detect: real)
    requires x <= w
    requires ScanTo(grid, w, y, 0, degree, detect) == Discover(Samples(grid, w, y) + Row(grid, y, 0), degree, detect)
    ensures ScanTo(grid, w, y, x, degree, detect) == Discover(Samples(grid, w, y) + Row(grid, y, x), degree, detect)
  {
    if x > 0 {
      RowScanned(grid, w, y, x - 1, degree, detect);
      ScanToNextPixel(grid, w, y, x, degree, detect);
    }
  }

  /** The step of ScanToIsDiscover within a row. */
  lemma ScanToNextPixel(grid: (nat, nat) -> Sample, w: nat, y: nat, x: nat, degree: nat, detect: real)
    requires 0 < x <= w
    requires ScanTo(grid, w, y, x - 1, degree, detect) == Discover(Samples(grid, w, y) + Row(grid, y, x - 1), degree, detect)
    ensures ScanTo(grid, w, y, x, degree, detect) == Discover(Samples(grid, w, y) + Row(grid, y, x), degree, detect)
  {
    var before := Samples(grid, w, y) + Row(grid, y, x - 1);
    var a := grid(x - 1, y);
    assert Samples(grid, w, y) + Row(grid, y, x) == before + [a];
    DiscoverSnoc(before, a, degree, detect);
  }

  /** The step of ScanToIsDiscover from the end of one row to the next. */
  lemma ScanToNextRow(grid: (nat, nat) -> Sample, w: nat, y: nat, degree: nat, detect: real)
    requires 0 < y
    requires ScanTo(grid, w, y - 1, w, degree, detect) == Discover(Samples(grid, w, y - 1) + Row(grid, y - 1, w), degree, detect)
    ensures ScanTo(grid, w, y, 0, degree, detect) == Discover(Samples(grid, w, y) + Row(grid, y, 0), degree, detect)
  {
    assert Samples(grid, w, y) + Row(grid, y, 0) == Samples(grid, w, y - 1) + Row(grid, y - 1, w);
  }

  /** Once the scan has stopped at pixel (x, y), the scan of the whole
      h-row raster has stopped too. */
  lemma {:induction false} ScanToStopped(grid: (nat, nat) -> Sample, w: nat, y: nat, x: nat, h: nat, degree: nat, detect: real)
    requires x <= w && (y < h || (y == h && x == 0))
    requires ScanTo(grid, w, y, x, degree, detect).TooManyRoots?
    ensures ScanTo(grid, w, h, 0, degree, detect).TooManyRoots?
    decreases h - y, w - x
  {
    if y == h {
    } else if x < w {
      ScanToStopped(grid, w, y, x + 1, h, degree, detect);
    } else {
      ScanToStopped(grid, w, y + 1, 0, h, degree, detect);
    }
  }

  /** Root index i denotes value v: no earlier root is `equal` to v, and
      root i is `equal` to v or is v itself (it was appended for v). */
  predicate Denotes(roots: seq<Complex>, i: nat, v: Complex, detect: real)
  {
    && i < |roots|
    && (forall j :: 0 <= j < i ==> !Equal(roots[j], v, detect))
    && (Equal(roots[i], v, detect) || roots[i] == v)
  }

  /** What a completed scan guarantees about its root list: at most
      degree + 1 roots, no sentinel among them, no two of them `equal`. */
  predicate RootsOk(roots: seq<Complex>, degree: nat, detect: real)
  {
    && |roots| <= degree + 1
    && Zero !in roots
    && (forall i, j :: 0 <= i < j < |roots| ==> !Equal(roots[i], roots[j], detect))
  }

  /** What a completed scan guarantees about the pixel written for one
      sample: the error pixel exactly for the sentinel, otherwise the
      sample's depth and the index of the root its value denotes. */
  predicate PixelOk(roots: seq<Complex>, a: Sample, p: Pixel, detect: real)
  {
    if a.value == Zero then p == ErrorPixel
    else
      && !p.error
      && p.depth == a.depth
      && Denotes(roots, p.rootIndex, a.value, detect)
  }

  /** What a completed scan guarantees about its pixels and its root list. */
  predicate ScanInvariant(samples: seq<Sample>, s: Scan, degree: nat, detect: real)
  {
    && |s.pixels| == |samples|
    && RootsOk(s.roots, degree, detect)
    && (forall k :: 0 <= k < |samples| ==> PixelOk(s.roots, samples[k], s.pixels[k], detect))
  }

  /** Placing one sample keeps the root list well formed, only appends to
      it, and writes a pixel that is right for the sample. */
  lemma ClassifyKeepsRoots(roots: seq<Complex>, a: Sample, degree: nat, detect: real)
    requires RootsOk(roots, degree, detect)
    requires Classify(roots, a, degree, detect).Placed?
    ensures var c := Classify(roots, a, degree, detect);
      && RootsOk(c.roots, degree, detect)
      && roots <= c.roots
      && PixelOk(c.roots, a, c.pixel, detect)
  {
    var c := Classify(roots, a, degree, detect);
    if a.value != Zero {
      var i := FirstMatch(roots, a.value, detect);
      if i == |roots| {
        assert c.roots == roots + [a.value];
        forall j, k | 0 <= j < k < |c.roots|
          ensures !Equal(c.roots[j], c.roots[k], detect)
        {
          if k == |roots| {
            assert c.roots[j] == roots[j];
          } else {
            assert c.roots[j] == roots[j] && c.roots[k] == roots[k];
          }
        }
      }
    }
  }

  /** A pixel stays right when roots are appended to the list. */
  lemma PixelOkExtends(roots: seq<Complex>, more: seq<Complex>, a: Sample, p: Pixel, detect: real)
    requires roots <= more
    requires PixelOk(roots, a, p, detect)
    ensures PixelOk(more, a, p, detect)
  {
    if a.value != Zero {
      assert more[p.rootIndex] == roots[p.rootIndex];
      assert forall j :: 0 <= j < p.rootIndex ==> more[j] == roots[j];
    }
  }

  /** One step of the scan keeps the invariant. */
  lemma ExtendKeepsInvariant(init: seq<Sample>, s: Scan, a: Sample, degree: nat, detect: real)
    requires ScanInvariant(init, s, degree, detect)
    requires Extend(Found(s), a, degree, detect).Found?
    ensures ScanInvariant(init + [a], Extend(Found(s), a, degree, detect).scan, degree, detect)
  {
    var c := Classify(s.roots, a, degree, detect);
    ClassifyKeepsRoots(s.roots, a, degree, detect);
    var t := Scan(c.roots, s.pixels + [c.pixel]);
    var samples := init + [a];
    forall k | 0 <= k < |samples|
      ensures PixelOk(t.roots, samples[k], t.pixels[k], detect)
    {
      if k < |init| {
        assert samples[k] == init[k] && t.pixels[k] == s.pixels[k];
        PixelOkExtends(s.roots, t.roots, init[k], s.pixels[k], detect);
      } else {
        assert samples[k] == a && t.pixels[k] == c.pixel;
      }
    }
  }

  /** Every scan that runs through keeps the invariant: one pixel per
      sample, error pixels exactly for the sentinel, at most degree + 1
      roots, no sentinel among them, no two of them `equal`, and each other
      pixel naming the root its value matches. */
  lemma {:induction false} DiscoverKeepsInvariant(samples: seq<Sample>, degree: nat, detect: real)
    requires Discover(samples, degree, detect).Found?
    ensures ScanInvariant(samples, Discover(samples, degree, detect).scan, degree, detect)
  {
    if samples != [] {
      var init := samples[..|samples| - 1];
      var a := samples[|samples| - 1];
      DiscoverKeepsInvariant(init, degree, detect);
      assert samples == init + [a];
      ExtendKeepsInvariant(init, Discover(init, degree, detect).scan, a, degree, detect);
    }
  }

  /** With a positive detection precision, a non-error pixel's index is
      exactly the first root `equal` to its value. */
  lemma DenotesIsFirstMatch(roots: seq<Complex>, i: nat, v: Complex, detect: real)
    requires detect > 0.0
    requires Denotes(roots, i, v, detect)
    ensures i == FirstMatch(roots, v, detect)
  {
    EqualReflexiveIff(v, detect);
  }

  /** The root list only grows by appending and each sample writes exactly
      one pixel: a scan of a prefix is a prefix of the whole scan. */
  lemma {:induction false} DiscoverPrefix(samples: seq<Sample>, k: nat, degree: nat, detect: real)
    requires k <= |samples|
    requires Discover(samples, degree, detect).Found?
    ensures Discover(samples[..k], degree, detect).Found?
    ensures Discover(samples[..k], degree, detect).scan.roots <= Discover(samples, degree, detect).scan.roots
    ensures Discover(samples[..k], degree, detect).scan.pixels <= Discover(samples, degree, detect).scan.pixels
    decreases |samples|
  {
    if k < |samples| {
      var init := samples[..|samples| - 1];
      assert samples[..k] == init[..k];
      DiscoverPrefix(init, k, degree, detect);
    } else {
      assert samples[..k] == samples;
    }
  }

  /** A scan that stopped stays stopped whatever follows. */
  lemma {:induction false} TooManyRootsIsFinal(samples: seq<Sample>, more: seq<Sample>, degree: nat, detect: real)
    requires Discover(samples, degree, detect).TooManyRoots?
    ensures Discover(samples + more, degree, detect).TooManyRoots?
    decreases |more|
  {
    if more == [] {
      assert samples + more == samples;
    } else {
      var init := more[..|more| - 1];
      TooManyRootsIsFinal(samples, init, degree, detect);
      assert (samples + more)[..|samples + more| - 1] == samples + init;
    }
  }

  /** "too many roots" is raised exactly when some pixel, reached with the
      scan still running, has a non-sentinel value that matches no root
      while the list already holds more than `degree` roots. */
  lemma {:induction false} TooManyRootsExactly(samples: seq<Sample>, degree: nat, detect: real)
    ensures Discover(samples, degree, detect).TooManyRoots? <==>
      exists k :: 0 <= k < |samples| && Overflows(samples[..k], samples[k], degree, detect)
    decreases |samples|
  {
    if samples != [] {
      var n := |samples| - 1;
      var init := samples[..n];
      TooManyRootsExactly(init, degree, detect);
      if Discover(samples, degree, detect).TooManyRoots? {
        if Discover(init, degree, detect).TooManyRoots? {
          var k :| 0 <= k < n && Overflows(init[..k], init[k], degree, detect);
          assert init[..k] == samples[..k] && init[k] == samples[k];
        } else {
          assert Overflows(samples[..n], samples[n], degree, detect);
        }
      } else {
        var s := Discover(init, degree, detect).scan;
        forall k | 0 <= k < |samples|
          ensures !Overflows(samples[..k], samples[k], degree, detect)
        {
          if k < n {
            assert init[..k] == samples[..k] && init[k] == samples[k];
          } else {
            assert samples[..k] == init;
          }
        }
      }
    }
  }

  /** The scan of `before` is running and the next sample needs a new root
      that no longer fits. */
  predicate Overflows(before: seq<Sample>, a: Sample, degree: nat, detect: real)
  {
    match Discover(before, degree, detect)
    case TooManyRoots => false
    case Found(s) => Classify(s.roots, a, degree, detect).NoRoom?
  }

  // ---------------------------------------------------------------------
  // The renderer.

  /** The outcome of `julia_fractal`: the result, or the "too many roots"
      exception. */
  datatype Outcome = Rendered(result: FractalResult) | RootsOverflow

  /** The linear search of the root list, stopping at the first `equal` root. */
  method FindRootIndex(roots: seq<Complex>, v: Complex, detect: real) returns (i: nat)
    ensures i <= |roots|
    ensures forall j :: 0 <= j < i ==> !Equal(roots[j], v, detect)
    ensures i < |roots| ==> Equal(roots[i], v, detect)
    ensures i == FirstMatch(roots, v, detect)
  {
    i := 0;
    while i < |roots|
      invariant 0 <= i <= |roots|
      invariant forall j :: 0 <= j < i ==> !Equal(roots[j], v, detect)
    {
      if Equal(roots[i], v, detect) {
        break;
      }
      i := i + 1;
    }
  }

  /** The handling of one root-finder result (JuliaSet.cc:34-51): the
      sentinel check, the linear search, and the append guarded by the
      "too many roots" check. */
  method PlacePixel(roots: seq<Complex>, value: Complex, depth: Size, degree: nat, detect: real)
    returns (placement: Placement)
    ensures placement == Classify(roots, Sample(value, depth), degree, detect)
    ensures placement.Placed? ==> roots <= placement.roots && |placement.roots| <= |roots| + 1
  {
    if value == Zero {
      return Placed(roots, ErrorPixel);
    }
    var index := FindRootIndex(roots, value, detect);
    var newRoots := roots;
    if index == |roots| {
      if |roots| > degree {
        return NoRoom;
      }
      newRoots := roots + [value];
    }
    placement := Placed(newRoots, Pixel(depth, index, false));
  }

  /** One pixel of `julia_fractal` (JuliaSet.cc:29-51): the root finder from
      the pixel's starting guess, then its placement, which continues the
      scan up to the pixel by one step. */
  method ScanPixel(cs: seq<Complex>, guess: Complex, precision: real, detect: real, maxDepth: Size,
                   roots: seq<Complex>, ghost grid: (nat, nat) -> Sample, ghost view: Viewport, ghost w: nat, ghost h: nat,
                   ghost x: nat, ghost y: nat, ghost done: seq<Pixel>)
    returns (placement: Placement)
    requires |cs| >= 1 && IsGrid(grid, cs, view, w, h, precision, maxDepth)
    requires guess == Guess(view, w, h, x, y)
    requires ScanTo(grid, w, y, x, |cs| - 1, detect) == Found(Scan(roots, done))
    ensures placement.NoRoom? <==> ScanTo(grid, w, y, x + 1, |cs| - 1, detect).TooManyRoots?
    ensures placement.Placed? ==>
      ScanTo(grid, w, y, x + 1, |cs| - 1, detect) == Found(Scan(placement.roots, done + [placement.pixel]))
  {
    var value, rest := Root(cs, guess, precision, maxDepth);
    var depth := SizeSub(maxDepth, rest);
    assert grid(x, y) == SampleAt(cs, view, w, h, precision, maxDepth, x, y);
    placement := PlacePixel(roots, value, depth, |cs| - 1, detect);
  }

  /** One row of `julia_fractal` (JuliaSet.cc:26-55): the pixels of row y,
      left to right, continuing the scan of the rows above. On overflow the
      scan stops. */
  method RenderRow(cs: seq<Complex>, view: Viewport, h: nat, precision: real, detect: real, maxDepth: Size,
                   data: array2<Pixel>, y: nat, yp: real, roots: seq<Complex>,
                   ghost grid: (nat, nat) -> Sample, ghost pixels: seq<Pixel>)
    returns (ok: bool, newRoots: seq<Complex>, ghost row: seq<Pixel>)
    requires |cs| >= 1 && IsGrid(grid, cs, view, data.Length0, h, precision, maxDepth)
    requires y < data.Length1 && yp == Coordinate(view.ymin, Spacing(view.ymin, view.ymax, h), y)
    requires ScanTo(grid, data.Length0, y, 0, |cs| - 1, detect) == Found(Scan(roots, pixels))
    requires |pixels| == RowStart(data.Length0, y) && RowsHold(pixels, data, y)
    modifies data
    ensures var d := ScanTo(grid, data.Length0, y + 1, 0, |cs| - 1, detect);
      && (ok <==> d.Found?)
      && (ok ==> d.scan == Scan(newRoots, pixels + row))
    ensures ok ==> |pixels + row| == RowStart(data.Length0, y + 1) && RowsHold(pixels + row, data, y + 1)
    ensures forall i, j :: 0 <= i < data.Length0 && 0 <= j < data.Length1 && j != y ==>
      data[i, j] == old(data[i, j])
  {
    ghost var degree := |cs| - 1;
    var w := data.Length0;
    var xs := Spacing(view.xmin, view.xmax, w);
    newRoots, row := roots, [];
    var xp := view.xmin;
    var x := 0;
    while x < w
      invariant 0 <= x <= w
      invariant xp == Coordinate(view.xmin, xs, x)
      invariant ScanTo(grid, w, y, x, degree, detect) == Found(Scan(newRoots, pixels + row))
      invariant |row| == x && forall i :: 0 <= i < x ==> data[i, y] == row[i]
      invariant forall i, j :: 0 <= i < w && 0 <= j < data.Length1 && j != y ==> data[i, j] == old(data[i, j])
    {
      var placement := ScanPixel(cs, Complex(xp, yp), precision, detect, maxDepth, newRoots, grid, view, w, h, x, y, pixels + row);
      if placement.NoRoom? {
        ScanToStopped(grid, w, y, x + 1, y + 1, degree, detect);
        return false, newRoots, row;
      }
      AppendOne(pixels, row, placement.pixel);
      newRoots := placement.roots;
      StorePixel(data, x, y, placement.pixel, row);
      row := row + [placement.pixel];
      xp := xp + xs;
      x := x + 1;
    }
    ok := true;
    forall i, j | 0 <= i < w && 0 <= j < y
      ensures IsAt(pixels, RowStart(w, j) + i, data[i, j])
    {
      assert data[i, j] == old(data[i, j]);
    }
    RowAppended(pixels, row, data, y);
  }

  /** Appending one element after a concatenation. */
  lemma AppendOne<T>(a: seq<T>, b: seq<T>, c: T)
    ensures a + (b + [c]) == (a + b) + [c]
  {
  }

  /** The store of pixel (x, y) into the raster: row y gains its next
      pixel and every other cell stays as it was. */
  method StorePixel(data: array2<Pixel>, x: nat, y: nat, p: Pixel, ghost row: seq<Pixel>)
    requires x < data.Length0 && y < data.Length1 && |row| == x
    requires forall i :: 0 <= i < x ==> data[i, y] == row[i]
    modifies data
    ensures forall i :: 0 <= i <= x ==> data[i, y] == (row + [p])[i]
    ensures forall i, j :: 0 <= i < data.Length0 && 0 <= j < data.Length1 && (i != x || j != y) ==>
      data[i, j] == old(data[i, j])
  {
    data[x, y] := p;
  }

  /** `julia_fractal` over the viewport `view`, row by row, left to right.
      The ghost `grid` names the sample of every pixel; it is determined by
      the other arguments (see `Grid`). */
  method JuliaFractal(cs: seq<Complex>, w: Size, h: Size, view: Viewport, precision: real, detect: real,
                      maxDepth: Size, progress: ProgressCounter, ghost grid: (nat, nat) -> Sample)
    returns (out: Outcome)
    requires |cs| >= 1 && IsGrid(grid, cs, view, w, h, precision, maxDepth)
    modifies progress
    ensures var d := ScanTo(grid, w, h, 0, |cs| - 1, detect);
      && (out.Rendered? <==> d.Found?)
      && (out.Rendered? ==>
            && fresh(out.result) && fresh(out.result.data)
            && out.result.data.Length0 == w && out.result.data.Length1 == h
            && out.result.roots == d.scan.roots
            && RowMajor(d.scan.pixels, out.result.data)
            && out.result.Valid())
    ensures out.Rendered? && h > 0 ==> progress.row == h - 1
    ensures h == 0 ==> progress.row == old(progress.row)
    ensures out.RootsOverflow? ==>
      || (0 < h && StopsInRow(grid, w, 0, |cs| - 1, detect) && progress.row == old(progress.row))
      || (progress.row + 1 < h && StopsInRow(grid, w, progress.row + 1, |cs| - 1, detect))
  {
    var degree := |cs| - 1;
    var ys := Spacing(view.ymin, view.ymax, h);
    var data := new Pixel[w, h]((x, y) => Pixel(0, 0, false));
    var roots: seq<Complex> := [];
    ghost var pixels: seq<Pixel> := [];
    var yp := view.ymin;
    var y := 0;
    while y < h
      invariant 0 <= y <= h
      invariant yp == Coordinate(view.ymin, ys, y)
      invariant ScanTo(grid, w, y, 0, degree, detect) == Found(Scan(roots, pixels))
      invariant |pixels| == RowStart(w, y) && RowsHold(pixels, data, y)
      invariant y > 0 ==> progress.row == y - 1
      invariant y == 0 ==> progress.row == old(progress.row)
    {
      var ok;
      ghost var row;
      ok, roots, row := RenderRow(cs, view, h, precision, detect, maxDepth, data, y, yp, roots, grid, pixels);
      if !ok {
        ScanToStopped(grid, w, y + 1, 0, h, degree, detect);
        assert StopsInRow(grid, w, y, degree, detect);
        return RootsOverflow;
      }
      pixels := pixels + row;
      yp := yp + ys;
      progress.row := y;
      y := y + 1;
    }
    var result := new FractalResult(roots, data);
    RenderedRaster(grid, data, roots, pixels, degree, detect);
    return Rendered(result);
  }

  /** The scan runs through the rows above y and stops within row y. */
  predicate StopsInRow(grid: (nat, nat) -> Sample, w: nat, y: nat, degree: nat, detect: real)
  {
    && ScanTo(grid, w, y, 0, degree, detect).Found?
    && ScanTo(grid, w, y + 1, 0, degree, detect).TooManyRoots?
  }

  /** At most one row is the one where the scan stops, so `*progress` after
      "too many roots" is determined. */
  lemma StopRowUnique(grid: (nat, nat) -> Sample, w: nat, y1: nat, y2: nat, degree: nat, detect: real)
    requires StopsInRow(grid, w, y1, degree, detect) && StopsInRow(grid, w, y2, degree, detect)
    ensures y1 == y2
  {
    if y1 < y2 {
      ScanToStopped(grid, w, y1 + 1, 0, y2, degree, detect);
    } else if y2 < y1 {
      ScanToStopped(grid, w, y2 + 1, 0, y1, degree, detect);
    }
  }

  /** Rows 0 .. rows-1 of the raster hold the pixel sequence, row after
      row, each row starting at its RowStart offset. */
  ghost predicate RowsHold(pixels: seq<Pixel>, data: array2<Pixel>, rows: nat)
    reads data
  {
    forall i, j :: 0 <= i < data.Length0 && 0 <= j < rows && j < data.Length1 ==>
      IsAt(pixels, RowStart(data.Length0, j) + i, data[i, j])
  }

  /** The raster holds the pixel sequence in row-major order: pixel (x, y)
      is entry y * w + x. */
  ghost predicate RowMajor(pixels: seq<Pixel>, data: array2<Pixel>)
    reads data
  {
    forall x, y :: 0 <= x < data.Length0 && 0 <= y < data.Length1 ==>
      IsAt(pixels, y * data.Length0 + x, data[x, y])
  }

  /** Writing row y leaves the rows above in place and appends its pixels. */
  lemma RowAppended(pixels: seq<Pixel>, row: seq<Pixel>, data: array2<Pixel>, y: nat)
    requires y < data.Length1 && |pixels| == RowStart(data.Length0, y) && |row| == data.Length0
    requires RowsHold(pixels, data, y)
    requires forall i :: 0 <= i < data.Length0 ==> data[i, y] == row[i]
    ensures RowsHold(pixels + row, data, y + 1)
  {
    var w := data.Length0;
    forall i, j | 0 <= i < w && 0 <= j < y + 1 && j < data.Length1
      ensures IsAt(pixels + row, RowStart(w, j) + i, data[i, j])
    {
      if j < y {
        assert IsAt(pixels, RowStart(w, j) + i, data[i, j]);
      }
    }
  }

  /** The raster of a scan that ran through: laid out row-major, and every
      non-error pixel names a root of the list. */
  lemma RenderedRaster(grid: (nat, nat) -> Sample, data: array2<Pixel>, roots: seq<Complex>, pixels: seq<Pixel>,
                       degree: nat, detect: real)
    requires ScanTo(grid, data.Length0, data.Length1, 0, degree, detect) == Found(Scan(roots, pixels))
    requires RowsHold(pixels, data, data.Length1)
    ensures RowMajor(pixels, data)
    ensures forall x, y :: 0 <= x < data.Length0 && 0 <= y < data.Length1 && !data[x, y].error ==>
      data[x, y].rootIndex < |roots|
  {
    var w, h := data.Length0, data.Length1;
    var samples := Samples(grid, w, h);
    ScanToIsDiscover(grid, w, h, 0, degree, detect);
    assert samples + Row(grid, h, 0) == samples;
    DiscoverKeepsInvariant(samples, degree, detect);
    forall x, y | 0 <= x < w && 0 <= y < h
      ensures IsAt(pixels, y * w + x, data[x, y])
      ensures !data[x, y].error ==> data[x, y].rootIndex < |roots|
    {
      RowStartIsProduct(w, y);
      assert IsAt(pixels, RowStart(w, y) + x, data[x, y]);
    }
  }

  /** One more sample extends the scan by one step. */
  lemma DiscoverSnoc(samples: seq<Sample>, a: Sample, degree: nat, detect: real)
    ensures Discover(samples + [a], degree, detect) == Extend(Discover(samples, degree, detect), a, degree, detect)
  {
    assert (samples + [a])[..|samples|] == samples;
  }
}
