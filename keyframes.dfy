/** The keyframe table of the video mode (Main.cc): coefficient lists keyed
    by frame number, padded to a common length and linearly interpolated
    into one coefficient list per frame. */
module Keyframes {
  import opened Machine
  import opened ComplexNumbers
  import opened Iterate

  /** One `--coefficients=...@KF` entry. */
  datatype Keyframe = Keyframe(frame: Size, coeffs: seq<Complex>)

  /** The frame part of a `--coefficients` option: absent, or the integer
      `stoi` read after the `@`. */
  datatype FrameToken = NoFrame | FrameNumber(n: Int32)

  /** The key an option is stored under: 0 when no frame is given, else the
      `int` converted to `size_t` (a negative number wraps). */
  function KeyOf(t: FrameToken): (k: Size)
    ensures t.NoFrame? ==> k == 0
    ensures t.FrameNumber? && t.n >= 0 ==> k == t.n
    ensures t.FrameNumber? && t.n < 0 ==> k == SIZE_LIMIT + t.n
  {
    match t
    case NoFrame => 0
    case FrameNumber(n) => IntToSize(n)
  }

  /** Entries listed in increasing frame order, each frame once: the
      iteration order of a `std::map<size_t, ...>`. */
  predicate Ordered(entries: seq<Keyframe>)
  {
    forall i, j :: 0 <= i < j < |entries| ==> entries[i].frame < entries[j].frame
  }

  datatype Option<T> = None | Some(value: T)

  /** The coefficients stored under frame f, if any: the map lookup the
      listing stands for. */
  function Lookup(entries: seq<Keyframe>, f: Size): Option<seq<Complex>>
  {
    if |entries| == 0 then None
    else if entries[0].frame == f then Some(entries[0].coeffs)
    else Lookup(entries[1..], f)
  }

  /** Every entry holds exactly n coefficients. */
  predicate Uniform(entries: seq<Keyframe>, n: nat)
  {
    forall i :: 0 <= i < |entries| ==> |entries[i].coeffs| == n
  }

  /** cs preceded by enough zero coefficients to reach length n, as
      `insert(begin(), n - size, complex())` does; longer lists stay as
      they are. */
  function Padded(cs: seq<Complex>, n: nat): (r: seq<Complex>)
    ensures |cs| < n ==> |r| == n
    ensures |cs| >= n ==> r == cs
    ensures forall x :: 0 <= x < |r| - |cs| ==> r[x] == Zero
    ensures forall x :: |r| - |cs| <= x < |r| ==> r[x] == cs[x - (|r| - |cs|)]
  {
    if |cs| < n then seq(n - |cs|, _ => Zero) + cs else cs
  }

  /** The table after padding every entry to n coefficients. */
  function PaddedEntries(entries: seq<Keyframe>, n: nat): (r: seq<Keyframe>)
    ensures |r| == |entries|
  {
    seq(|entries|, i requires 0 <= i < |entries| => Keyframe(entries[i].frame, Padded(entries[i].coeffs, n)))
  }

  /** `keyframe_to_coeffs` together with `max_coeffs`, as `main` builds them
      while reading the options. */
  class KeyframeTable {
    var entries: seq<Keyframe>
    var maxCoeffs: nat

    /** The listing is a map's, and `max_coeffs` bounds every entry. */
    ghost predicate Valid()
      reads this
    {
      Ordered(entries) && forall i :: 0 <= i < |entries| ==> |entries[i].coeffs| <= maxCoeffs
    }

    constructor ()
      ensures entries == [] && maxCoeffs == 0 && Valid()
    {
      entries := [];
      maxCoeffs := 0;
    }

    /** One `--coefficients` option (Main.cc:232-252): `max_coeffs` grows to
        the list's length, then `emplace` stores the list unless its frame
        is already present, in which case the option is dropped. */
    method Add(token: FrameToken, coeffs: seq<Complex>)
      requires Valid()
      modifies this
      ensures Valid()
      ensures maxCoeffs == if |coeffs| > old(maxCoeffs) then |coeffs| else old(maxCoeffs)
      ensures var k := KeyOf(token);
        forall f :: Lookup(entries, f) ==
          if f == k && Lookup(old(entries), k).None? then Some(coeffs) else Lookup(old(entries), f)
    {
      var frame := KeyOf(token);
      if |coeffs| > maxCoeffs {
        maxCoeffs := |coeffs|;
      }
      var p := 0;
      while p < |entries| && entries[p].frame < frame
        invariant 0 <= p <= |entries|
        invariant forall j :: 0 <= j < p ==> entries[j].frame < frame
      {
        p := p + 1;
      }
      if p < |entries| && entries[p].frame == frame {
        LookupAt(entries, p);
      } else {
        InsertKeepsMap(entries, p, Keyframe(frame, coeffs));
        entries := entries[..p] + [Keyframe(frame, coeffs)] + entries[p..];
      }
    }

    /** Main.cc:283-287: every entry shorter than `max_coeffs` gets leading
        zero coefficients. */
    method PadToMax()
      requires Valid()
      modifies this
      ensures entries == PaddedEntries(old(entries), maxCoeffs) && maxCoeffs == old(maxCoeffs)
      ensures Ordered(entries) && Uniform(entries, maxCoeffs)
      ensures forall f :: (Lookup(entries, f) ==
        match Lookup(old(entries), f) case None => None case Some(cs) => Some(Padded(cs, maxCoeffs)))
    {
      ghost var original := entries;
      var i := 0;
      while i < |entries|
        invariant 0 <= i <= |entries| == |original| && maxCoeffs == old(maxCoeffs)
        invariant forall j :: 0 <= j < i ==> entries[j] == Keyframe(original[j].frame, Padded(original[j].coeffs, maxCoeffs))
        invariant forall j :: i <= j < |entries| ==> entries[j] == original[j]
      {
        var kf := entries[i];
        if |kf.coeffs| < maxCoeffs {
          entries := entries[i := Keyframe(kf.frame, seq(maxCoeffs - |kf.coeffs|, _ => Zero) + kf.coeffs)];
        }
        i := i + 1;
      }
      assert entries == PaddedEntries(original, maxCoeffs);
      PaddedEntriesKeepOrder(original, maxCoeffs);
    }

    /** The frame loop of Main.cc:289-310 with the rendering left out: the
        coefficient list handed to `julia_fractal` for each frame 0 ..
        end_frame, the last key. */
    method FrameCoefficients() returns (frames: seq<seq<Complex>>)
      requires Ordered(entries) && |entries| >= 2 && Uniform(entries, maxCoeffs)
      requires entries[|entries| - 1].frame < SIZE_LIMIT - 1
      ensures |frames| == entries[|entries| - 1].frame + 1
      ensures forall f :: 0 <= f < |frames| ==> frames[f] == CoefficientsAt(entries, f)
    {
      var kf, next := 0, 1;
      var frameCoeffs := entries[kf].coeffs;
      var endFrame := entries[|entries| - 1].frame;
      frames := [];
      var frame: Size := 0;
      while frame <= endFrame
        invariant frame <= endFrame + 1
        invariant next == kf + 1 <= |entries|
        invariant kf == 0 || entries[kf].frame < frame
        invariant next < |entries| ==> entries[next].frame >= frame
        invariant |frameCoeffs| == maxCoeffs
        invariant |frames| == frame
        invariant forall g :: 0 <= g < frame ==> frames[g] == CoefficientsAt(entries, g)
      {
        if next < |entries| && frame == entries[next].frame {
          KeyIndexIs(entries, frame, next);
          kf := kf + 1;
          next := next + 1;
          frameCoeffs := entries[kf].coeffs;
        } else {
          KeyIndexIs(entries, frame, kf);
          var interval := entries[next].frame - entries[kf].frame;
          var progress := SizeSub(frame, entries[kf].frame);
          frameCoeffs := BlendInto(frameCoeffs, entries[kf].coeffs, entries[next].coeffs, progress, interval);
        }
        frames := frames + [frameCoeffs];
        frame := frame + 1;
      }
    }
  }

  /** In an ordered listing the lookup of an entry's frame finds that entry. */
  lemma {:induction false} LookupAt(entries: seq<Keyframe>, i: nat)
    requires Ordered(entries) && i < |entries|
    ensures Lookup(entries, entries[i].frame) == Some(entries[i].coeffs)
  {
    if i > 0 {
      assert entries[0].frame < entries[i].frame;
      assert entries[1..][i - 1] == entries[i];
      LookupAt(entries[1..], i - 1);
    }
  }

  /** A frame no entry carries is not found. */
  lemma {:induction false} LookupAbsent(entries: seq<Keyframe>, f: Size)
    requires forall i :: 0 <= i < |entries| ==> entries[i].frame != f
    ensures Lookup(entries, f) == None
  {
    if |entries| > 0 {
      LookupAbsent(entries[1..], f);
    }
  }

  /** A lookup in a concatenation tries the front part first. */
  lemma {:induction false} LookupConcat(a: seq<Keyframe>, b: seq<Keyframe>, f: Size)
    ensures Lookup(a + b, f) == if Lookup(a, f).Some? then Lookup(a, f) else Lookup(b, f)
  {
    if |a| > 0 {
      assert (a + b)[1..] == a[1..] + b;
      LookupConcat(a[1..], b, f);
    } else {
      assert a + b == b;
    }
  }

  lemma InsertKeepsOrder(entries: seq<Keyframe>, p: nat, kf: Keyframe)
    requires Ordered(entries) && p <= |entries|
    requires forall j :: 0 <= j < p ==> entries[j].frame < kf.frame
    requires p < |entries| ==> kf.frame < entries[p].frame
    ensures Ordered(entries[..p] + [kf] + entries[p..])
  {
    var r := entries[..p] + [kf] + entries[p..];
    forall i, j | 0 <= i < j < |r|
      ensures r[i].frame < r[j].frame
    {
      if j > p && i < p {
        assert entries[i].frame < kf.frame < entries[p].frame <= entries[j - 1].frame;
      }
    }
  }

  /** Inserting a new key at its sorted position keeps the listing ordered,
      finds the new key's list under it and every other lookup unchanged. */
  lemma InsertKeepsMap(entries: seq<Keyframe>, p: nat, kf: Keyframe)
    requires Ordered(entries) && p <= |entries|
    requires forall j :: 0 <= j < p ==> entries[j].frame < kf.frame
    requires p < |entries| ==> kf.frame < entries[p].frame
    ensures var r := entries[..p] + [kf] + entries[p..];
      && Ordered(r) && Lookup(entries, kf.frame) == None
      && forall f :: Lookup(r, f) == if f == kf.frame then Some(kf.coeffs) else Lookup(entries, f)
  {
    var r := entries[..p] + [kf] + entries[p..];
    InsertKeepsOrder(entries, p, kf);
    LookupAbsent(entries[..p], kf.frame);
    SuffixAbove(entries, p, kf.frame);
    LookupAbsent(entries[p..], kf.frame);
    SplitJoin(entries, p, kf);
    LookupConcat(entries[..p], entries[p..], kf.frame);
    forall f
      ensures Lookup(r, f) == if f == kf.frame then Some(kf.coeffs) else Lookup(entries, f)
    {
      InsertLookup(entries[..p], kf, entries[p..], f);
    }
  }

  lemma SplitJoin(s: seq<Keyframe>, p: nat, kf: Keyframe)
    requires p <= |s|
    ensures s == s[..p] + s[p..]
    ensures s[..p] + [kf] + s[p..] == s[..p] + ([kf] + s[p..])
  {
  }

  /** The entries from p on all lie above a frame below entry p's. */
  lemma SuffixAbove(entries: seq<Keyframe>, p: nat, f: Size)
    requires Ordered(entries) && p <= |entries|
    requires p < |entries| ==> f < entries[p].frame
    ensures forall j :: 0 <= j < |entries[p..]| ==> entries[p..][j].frame != f
  {
    forall j | 0 <= j < |entries[p..]|
      ensures entries[p..][j].frame != f
    {
      assert entries[p] == entries[p..][0] && entries[p..][j] == entries[p + j];
    }
  }

  /** A key missing from the front part is found in front of the back part. */
  lemma InsertLookup(front: seq<Keyframe>, kf: Keyframe, back: seq<Keyframe>, f: Size)
    requires Lookup(front, kf.frame) == None
    ensures Lookup(front + ([kf] + back), f) == if f == kf.frame then Some(kf.coeffs) else Lookup(front + back, f)
  {
    LookupConcat(front, back, f);
    LookupConcat(front, [kf] + back, f);
    assert ([kf] + back)[1..] == back;
  }

  /** Padding keeps every key, in order, pads every value and leaves every
      entry exactly n long when none was longer. */
  lemma {:induction false} PaddedEntriesKeepOrder(entries: seq<Keyframe>, n: nat)
    requires Ordered(entries)
    requires forall i :: 0 <= i < |entries| ==> |entries[i].coeffs| <= n
    ensures Ordered(PaddedEntries(entries, n)) && Uniform(PaddedEntries(entries, n), n)
    ensures forall f :: (Lookup(PaddedEntries(entries, n), f) ==
      match Lookup(entries, f) case None => None case Some(cs) => Some(Padded(cs, n)))
  {
    var r := PaddedEntries(entries, n);
    assert Uniform(r, n) by {
      forall i | 0 <= i < |r|
        ensures |r[i].coeffs| == n
      {
        assert |entries[i].coeffs| <= n;
      }
    }
    if |entries| > 0 {
      PaddedEntriesKeepOrder(entries[1..], n);
      assert r[1..] == PaddedEntries(entries[1..], n);
    }
  }

  // ---------------------------------------------------------------------
  // Padding does not change the equation.

  /** The first k terms of each sum over a list with k leading zeros vanish. */
  lemma {:induction false} LeadingZerosVanish(cs: seq<Complex>, n: nat, g: Complex, k: nat)
    requires |cs| < n && k <= n - |cs|
    ensures PolySum(Padded(cs, n), g, k) == Zero
    ensures NumerSum(Padded(cs, n), g, k) == Zero
    ensures DenomSum(Padded(cs, n), g, k) == Zero
  {
    if k > 0 {
      LeadingZerosVanish(cs, n, g, k - 1);
    }
  }

  /** Past the zeros, each padded sum runs through the original terms. */
  lemma {:induction false} PaddedSums(cs: seq<Complex>, n: nat, g: Complex, k: nat)
    requires |cs| < n && k <= |cs|
    ensures var p := Padded(cs, n); var z := n - |cs|;
      && PolySum(p, g, z + k) == PolySum(cs, g, k)
      && NumerSum(p, g, z + k) == NumerSum(cs, g, k)
      && DenomSum(p, g, z + k) == DenomSum(cs, g, k)
  {
    var p, z := Padded(cs, n), n - |cs|;
    if k == 0 {
      LeadingZerosVanish(cs, n, g, z);
    } else {
      PaddedSums(cs, n, g, k - 1);
      assert p[z + k - 1] == cs[k - 1];
      assert |p| - 1 - (z + k - 1) == |cs| - 1 - (k - 1);
      assert PolyTerm(p, g, z + k - 1) == PolyTerm(cs, g, k - 1);
      assert NumerTerm(p, g, z + k - 1) == NumerTerm(cs, g, k - 1);
      assert DenomTerm(p, g, z + k - 1) == DenomTerm(cs, g, k - 1);
    }
  }

  /** Leading zero coefficients change neither the polynomial nor the
      Newton step, so padding keeps every keyframe's equation. */
  lemma PaddingKeepsEquation(cs: seq<Complex>, n: nat, g: Complex, e: Estimate)
    requires |cs| >= 1
    ensures Polynomial(Padded(cs, n), g) == Polynomial(cs, g)
    ensures NewtonStep(Padded(cs, n), e) == NewtonStep(cs, e)
  {
    if |cs| < n {
      PaddedSums(cs, n, g, |cs|);
      if e.Finite? {
        PaddedSums(cs, n, e.z, |cs|);
      }
    }
  }

  // ---------------------------------------------------------------------
  // Per-frame coefficients.

  /** `(b * progress + a * (interval - progress)) / interval`, with both
      frame counts in `size_t` (the second subtraction wraps). */
  function Interpolate(a: Complex, b: Complex, progress: Size, interval: Size): Complex
    requires interval > 0
  {
    DivScalar(Add(Scale(b, progress as real), Scale(a, SizeSub(interval, progress) as real)), interval as real)
  }

  /** The interpolated list: entry x interpolates a[x] towards b[x]. */
  function Blend(a: seq<Complex>, b: seq<Complex>, progress: Size, interval: Size): (r: seq<Complex>)
    requires |a| == |b| && interval > 0
    ensures |r| == |a|
  {
    seq(|a|, x requires 0 <= x < |a| => Interpolate(a[x], b[x], progress, interval))
  }

  /** Within an interval the interpolation is the straight line from a to
      b: a at progress 0, b at progress = interval. */
  lemma InterpolateIsLinear(a: Complex, b: Complex, progress: Size, interval: Size)
    requires 0 < interval && progress <= interval
    ensures Interpolate(a, b, progress, interval) == Add(a, Scale(Sub(b, a), progress as real / interval as real))
    ensures progress == 0 ==> Interpolate(a, b, progress, interval) == a
    ensures progress == interval ==> Interpolate(a, b, progress, interval) == b
  {
    var p, q, n := progress as real, SizeSub(interval, progress) as real, interval as real;
    assert q == n - p;
    WeightedSum(a, b, p, q, n);
    LinearComponent(a.re, b.re, p, q, n);
    LinearComponent(a.im, b.im, p, q, n);
  }

  lemma WeightedSum(a: Complex, b: Complex, p: real, q: real, n: real)
    requires n != 0.0
    ensures DivScalar(Add(Scale(b, p), Scale(a, q)), n) == Complex((b.re * p + a.re * q) / n, (b.im * p + a.im * q) / n)
  {
  }

  lemma LinearComponent(a: real, b: real, p: real, q: real, n: real)
    requires n > 0.0 && q == n - p
    ensures (b * p + a * q) / n == a + (b - a) * (p / n)
    ensures p == 0.0 ==> (b * p + a * q) / n == a
    ensures p == n ==> (b * p + a * q) / n == b
  {
    assert b * p + a * q == a * n + (b - a) * p;
    if p == n {
      assert p / n == 1.0;
    }
  }

  /** The inner loop of Main.cc:305-309: every entry of the frame's list is
      recomputed from the two keyframes around it. */
  method BlendInto(current: seq<Complex>, a: seq<Complex>, b: seq<Complex>, progress: Size, interval: Size)
    returns (r: seq<Complex>)
    requires |current| == |a| == |b| && interval > 0
    ensures r == Blend(a, b, progress, interval)
  {
    r := current;
    var x := 0;
    while x < |a|
      invariant 0 <= x <= |a| == |r|
      invariant forall y :: 0 <= y < x ==> r[y] == Interpolate(a[y], b[y], progress, interval)
    {
      r := r[x := DivScalar(Add(Scale(b[x], progress as real), Scale(a[x], SizeSub(interval, progress) as real)), interval as real)];
      x := x + 1;
    }
  }

  /** The index of the keyframe at or before frame f that the loop has
      reached: searching upwards from i, the last key not above f (or i). */
  function KeyIndexFrom(entries: seq<Keyframe>, f: Size, i: nat): (r: nat)
    requires i < |entries|
    ensures i <= r < |entries|
    ensures r == i || entries[r].frame <= f
    decreases |entries| - i
  {
    if i + 1 < |entries| && entries[i + 1].frame <= f then KeyIndexFrom(entries, f, i + 1) else i
  }

  function KeyIndex(entries: seq<Keyframe>, f: Size): nat
    requires |entries| >= 1
  {
    KeyIndexFrom(entries, f, 0)
  }

  /** In an ordered listing, KeyIndex picks the one index whose key is not
      above f (or index 0) while the next key is above f (or absent). */
  lemma KeyIndexIs(entries: seq<Keyframe>, f: Size, i: nat)
    requires Ordered(entries) && i < |entries|
    requires i == 0 || entries[i].frame <= f
    requires i + 1 == |entries| || entries[i + 1].frame > f
    ensures KeyIndex(entries, f) == i
  {
    KeyIndexFromIs(entries, f, 0, i);
  }

  lemma {:induction false} KeyIndexFromIs(entries: seq<Keyframe>, f: Size, s: nat, i: nat)
    requires Ordered(entries) && s <= i < |entries|
    requires i == s || entries[i].frame <= f
    requires i + 1 == |entries| || entries[i + 1].frame > f
    ensures KeyIndexFrom(entries, f, s) == i
    decreases i - s
  {
    if s < i {
      assert entries[s + 1].frame <= entries[i].frame;
      KeyIndexFromIs(entries, f, s + 1, i);
    }
  }

  /** The coefficients of frame f (at most the last key): a keyframe's own
      list on each key after the first, otherwise the blend between the
      keyframe reached and the next, with the progress counted from the
      reached key in `size_t` (so it wraps before the first key). */
  function CoefficientsAt(entries: seq<Keyframe>, f: Size): (r: seq<Complex>)
    requires Ordered(entries) && |entries| >= 2 && Uniform(entries, |entries[0].coeffs|)
    requires f <= entries[|entries| - 1].frame
  {
    var i := KeyIndex(entries, f);
    if i > 0 && entries[i].frame == f then entries[i].coeffs
    else
      Blend(entries[i].coeffs, entries[i + 1].coeffs, SizeSub(f, entries[i].frame), entries[i + 1].frame - entries[i].frame)
  }

  /** Every keyframe's frame shows that keyframe's coefficients. A later
      key is reached by the loop and copied verbatim; the first one comes
      out of an interpolation with zero progress, which gives the list back
      over the reals. */
  lemma KeyframesReproduced(entries: seq<Keyframe>, j: nat)
    requires Ordered(entries) && |entries| >= 2 && Uniform(entries, |entries[0].coeffs|)
    requires j < |entries|
    ensures CoefficientsAt(entries, entries[j].frame) == entries[j].coeffs
    ensures 0 < j ==> KeyIndex(entries, entries[j].frame) == j
    ensures j == 0 ==>
              CoefficientsAt(entries, entries[0].frame) ==
              Blend(entries[0].coeffs, entries[1].coeffs, 0, entries[1].frame - entries[0].frame)
  {
    var f := entries[j].frame;
    assert f <= entries[|entries| - 1].frame;
    KeyIndexIs(entries, f, j);
    if j == 0 {
      var r := CoefficientsAt(entries, f);
      forall x | 0 <= x < |r|
        ensures r[x] == entries[0].coeffs[x]
      {
        InterpolateIsLinear(entries[0].coeffs[x], entries[1].coeffs[x], 0, entries[1].frame - f);
      }
    }
  }

  /** Between two consecutive keys every frame lies on the straight line
      from the earlier keyframe's coefficients to the later one's. */
  lemma FramesBetweenKeys(entries: seq<Keyframe>, i: nat, f: Size)
    requires Ordered(entries) && |entries| >= 2 && Uniform(entries, |entries[0].coeffs|)
    requires i + 1 < |entries| && entries[i].frame <= f < entries[i + 1].frame
    ensures var a, b := entries[i].coeffs, entries[i + 1].coeffs;
      var t := (f - entries[i].frame) as real / (entries[i + 1].frame - entries[i].frame) as real;
      && 0.0 <= t < 1.0
      && CoefficientsAt(entries, f) == seq(|a|, x requires 0 <= x < |a| => Add(a[x], Scale(Sub(b[x], a[x]), t)))
  {
    assert entries[i + 1].frame <= entries[|entries| - 1].frame;
    KeyIndexIs(entries, f, i);
    FractionBelowOne((f - entries[i].frame) as real, (entries[i + 1].frame - entries[i].frame) as real);
    var a, b := entries[i].coeffs, entries[i + 1].coeffs;
    var r := CoefficientsAt(entries, f);
    if i > 0 && entries[i].frame == f {
      forall x | 0 <= x < |a|
        ensures r[x] == Add(a[x], Scale(Sub(b[x], a[x]), 0.0))
      {
      }
    } else {
      forall x | 0 <= x < |a|
        ensures r[x] == Add(a[x], Scale(Sub(b[x], a[x]), (f - entries[i].frame) as real / (entries[i + 1].frame - entries[i].frame) as real))
      {
        InterpolateIsLinear(a[x], b[x], f - entries[i].frame, entries[i + 1].frame - entries[i].frame);
      }
    }
  }

  lemma FractionBelowOne(x: real, y: real)
    requires 0.0 <= x < y
    ensures 0.0 <= x / y < 1.0
  {
  }

  /** Before the first key (when it is not 0) the progress wraps: frame f
      is blended with a progress of 2^64 - (k0 - f) frames, far outside the
      first interval. */
  lemma FramesBeforeFirstKey(entries: seq<Keyframe>, f: Size)
    requires Ordered(entries) && |entries| >= 2 && Uniform(entries, |entries[0].coeffs|)
    requires f < entries[0].frame
    ensures CoefficientsAt(entries, f) ==
      Blend(entries[0].coeffs, entries[1].coeffs, SIZE_LIMIT - (entries[0].frame - f), entries[1].frame - entries[0].frame)
    ensures SIZE_LIMIT - (entries[0].frame - f) > entries[1].frame - entries[0].frame
  {
    assert entries[0].frame <= entries[|entries| - 1].frame;
    KeyIndexIs(entries, f, 0);
  }
}
