# zroot in Dafny

A Dafny model of the core of zroot, a Newton-fractal renderer. For every
pixel of a viewport, zroot runs Newton's method on a complex polynomial and
records how deep the iteration went and which root it reached. It then
colours the raster by root and depth. In video mode it interpolates the
polynomial's coefficients between keyframes and renumbers each frame's
roots so that they keep the colours of the previous frame's nearest roots.

The model follows the C++ code routine by routine. Modules, one file each:

- `Machine` (machine.dfy): the fixed-width integer types `size_t`/`uint64_t`,
  `int64_t` and `int`. Unsigned subtraction and the `int` → `size_t`
  conversion wrap explicitly.
- `ComplexNumbers` (complex.dfy): the `complex` value type.
  - The binary operators, `abs2`, `equal` and `pow`.
  - The compound-assignment operators, as methods of a class whose two fields
    they overwrite.
  - Algebraic facts over the exact reals.
- `Iterate` (iterate.dfy): the Newton step `root_iterate` and the budgeted
  loop `root`.
  - `root_iterate` builds a power table, then two weighted sums. It is
    proved to be the Newton step g − P(g)/P′(g).
  - `root` is stated over any step map (`Budgeted`), so its loop properties
    do not depend on the arithmetic.
- `JuliaSet` (julia_set.dfy): `julia_fractal`, which scans the raster,
  classifies each result and collects the distinct roots.
  - It is specified by a left-to-right scan (`Discover`) over the root
    finder's samples in row-major order.
  - The methods are proved to perform that scan pixel by pixel.
- `Align` (align.dfy): `align_roots`, which renumbers roots across frames.
  - The four phases are: the sorted multimap of candidate pairs, the greedy
    claim, the fill of unassigned slots, and the rewrite of pixels and roots.
  - The replacement map is proved to be a permutation, and pixels keep
    denoting the same root values.
- `Coloring` (color.dfy): `color_fractal` and its 21-colour palette.
  - The intensity window is selected with the source's mixed signed/unsigned
    arithmetic, then each pixel is clamped and scaled in `uint64_t`.
- `Keyframes` (keyframes.dfy): the keyframe table of the video mode.
  - Options are stored by frame number, shorter coefficient lists are padded
    with leading zeros, and each frame's coefficients are selected or
    interpolated.

Doubles are exact reals throughout. A Newton step whose denominator is zero
produces NaN components in IEEE-754 arithmetic. The model represents such a
value by the absorbing estimate `NotFinite`, which never compares `equal`.

Quirks of the code that the model keeps as written:

- `root` returns the zero sentinel whenever the budget runs out, even when
  that last step converged. A budget of 0 wraps on its first decrement, so it allows 2^64 steps.
- `julia_fractal` allows `degree + 1` roots: it raises "too many roots" only
  when a new root is needed and the list already holds more than `degree`.
- The denominator term at `x = degree` reads `guess_powers[-1]`. Its weight
  is 0, so the model accepts any value there.
- `pow(p)` returns z^(p+1).
- `color_fractal`:
  - Its scan condition and both update guards test `compute_max_intensity`.
    So a computed min alone starts no scan, and a given min can still be
    lowered by the scan.
  - `max - min` is a signed subtraction stored in a `uint64_t`.
  - A window with min == max lights every non-error pixel fully.
  - A window with min above max (unsigned) leaves every non-error pixel black;
    error pixels stay white.
- Before the first key, when that key is not 0, `frame - kf_it->first` wraps
  in `size_t`.

## Model

| member | source | states |
|---|---|---|
| ComplexNumbers.Same | Complex.hh:11-13 | definition: `operator==`, both components equal |
| ComplexNumbers.Differs | Complex.hh:14-16 | definition: `operator!=`, some component differs |
| ComplexNumbers.Add | Complex.hh:18-20 | definition: the componentwise sum |
| ComplexNumbers.Sub | Complex.hh:27-29 | definition: the componentwise difference |
| ComplexNumbers.Mul | Complex.hh:36-39 | definition: (ar·br − ai·bi, ai·br + ar·bi) |
| ComplexNumbers.Div | Complex.hh:47-51 | definition: a times the conjugate of b, over br² + bi², for b ≠ 0 |
| ComplexNumbers.Scale | Complex.hh:60-62 | definition: both components times a real |
| ComplexNumbers.DivScalar | Complex.hh:69-71 | definition: both components over a real k ≠ 0 |
| ComplexNumbers.Abs2 | Complex.hh:81-83 | definition: re² + im² |
| ComplexNumbers.Equal | Complex.cc:18-22 | definition: both component distances strictly below the precision |
| ComplexNumbers.Power | Complex.cc:10-16 | definition: z^n as n multiplications from 1, the reference `Pow` is proved against |
| ComplexNumbers.SameIsEquality | Complex.hh:11-16 | `==` holds exactly when both components agree, and `!=` is its negation |
| ComplexNumbers.Abs | Complex.cc:19-20 | `fabs` is non-negative and is the value or its negation |
| ComplexNumbers.SubZeroIff | Complex.hh:27-29 | a − b is (0,0) exactly when a == b |
| ComplexNumbers.MulCommutesAndUnit | Complex.hh:36-39 | multiplication commutes, and (1,0) is its unit on both sides |
| ComplexNumbers.MulAssociative | Complex.hh:36-39 | multiplication is associative over the reals |
| ComplexNumbers.MulDistributes | Complex.hh:36-39 | multiplication distributes over `+` |
| ComplexNumbers.MulScale | Complex.hh:60-62 | a real factor moves out of a complex product |
| ComplexNumbers.DivThenMul | Complex.hh:47-51 | (a/b)·b = a for b ≠ 0: division inverts multiplication |
| ComplexNumbers.DivMulCancel | Complex.hh:47-51 | (g·d)/d = g for d ≠ 0 |
| ComplexNumbers.DivLinear | Complex.hh:47-51 | (a − b)/d = a/d − b/d for d ≠ 0 |
| ComplexNumbers.DivZeroIff | Complex.hh:47-51 | a quotient by d ≠ 0 is zero exactly when the dividend is zero |
| ComplexNumbers.Abs2Positive | Complex.hh:81-83 | `abs2` is non-negative, and zero exactly at (0,0) |
| ComplexNumbers.DistanceZeroIff | Complex.hh:81-83 | (a − b).abs2() ≥ 0, and it is 0 exactly when a == b: the distance `align_roots` sorts by |
| ComplexNumbers.PowLoopCount | Complex.cc:12 | `pow`'s loop runs p times for p ≥ 0; a negative p converts to the `size_t` 2^64 + p |
| ComplexNumbers.Pow | Complex.cc:10-16 | `pow(p)` returns z^(count+1), where count is the loop count above, so `pow(0)` is z itself |
| ComplexNumbers.EqualSymmetric | Complex.cc:18-22 | `equal` does not depend on the order of its two complex arguments |
| ComplexNumbers.EqualReflexiveIff | Complex.cc:18-22 | a value is `equal` to itself exactly when the precision is positive (strict comparison) |
| ComplexNumbers.EqualMonotone | Complex.cc:18-22 | `equal` at precision p implies `equal` at any q ≥ p |
| ComplexNumbers.PowerSucc | Iterate.cc:22-24 | each power is the previous one times the guess, from either side |
| ComplexNumbers.ComplexVar.constructor | Complex.cc:8 | the two-argument constructor stores both components unchanged |
| ComplexNumbers.ComplexVar.AddAssign | Complex.hh:21-25 | `+=` leaves the receiver equal to old value + b and returns it |
| ComplexNumbers.ComplexVar.SubAssign | Complex.hh:30-34 | `-=` leaves the receiver equal to old value − b and returns it |
| ComplexNumbers.ComplexVar.MulAssign | Complex.hh:40-45 | `*=` equals the binary `*` on the old value; the temporary keeps the old real part for the imaginary part |
| ComplexNumbers.ComplexVar.DivAssign | Complex.hh:52-58 | `/=` equals the binary `/` on the old value, for b ≠ 0 |
| ComplexNumbers.ComplexVar.ScaleAssign | Complex.hh:63-67 | `*= double` scales both components of the receiver |
| ComplexNumbers.ComplexVar.DivScalarAssign | Complex.hh:72-76 | `/= double` divides both components of the receiver, for k ≠ 0 |
| Iterate.NumerTerm | Iterate.cc:28 | definition: numerator term x, g^(d−x)·c_x·(d−x−1) with d = degree |
| Iterate.DenomTerm | Iterate.cc:29 | definition: denominator term x, g^(d−x−1)·c_x·(d−x); zero at x = d, where the source reads `guess_powers[-1]` with weight 0 |
| Iterate.NumerSum | Iterate.cc:26-30 | definition: the numerator accumulated over the first n coefficients |
| Iterate.DenomSum | Iterate.cc:26-30 | definition: the denominator accumulated over the first n coefficients |
| Iterate.NewtonStep | Iterate.cc:13-32 | definition: `numer / denom`; NaN (`NotFinite`) when the denominator is zero, and NaN stays NaN |
| Iterate.Converged | Iterate.cc:49 | definition: the loop's exit test `last.equal(this_guess, precision)`, false for NaN |
| Iterate.Budgeted | Iterate.cc:36-51 | definition: the step run from the guess under `Budget(max)`; the last iterate when budget remains, else zero; with the remaining budget |
| Iterate.RootResult | Iterate.cc:36-51 | definition: `Budgeted` with the Newton step |
| Iterate.PowerTable | Iterate.cc:19-24 | the table holds guess^k at every index k < size, built by repeated multiplication from 1 |
| Iterate.NewtonSums | Iterate.cc:26-30 | the loop accumulates exactly the numerator and denominator sums over all coefficients, whatever `guess_powers[-1]` holds |
| Iterate.StrayTermVanishes | Iterate.cc:29 | the weight-0 term at x = degree is zero for any stand-in power |
| Iterate.DenomTermIsDerivative | Iterate.cc:29 | denominator term x is term x of the derivative polynomial |
| Iterate.DenomIsDerivative | Iterate.cc:27-30 | the denominator sum over the first n < |cs| terms is the derivative's partial sum |
| Iterate.DenomIsDerivativeValue | Iterate.cc:26-30 | the full denominator is P′(guess) |
| Iterate.NumerTermIsNewton | Iterate.cc:28 | numerator term x is g · (denominator term x) − (polynomial term x) |
| Iterate.NumerIsNewton | Iterate.cc:27-30 | the numerator is g·P′(g) − P(g) |
| Iterate.NewtonStepIsNewton | Iterate.cc:13-32 | `root_iterate` is g − P(g)/P′(g), and it yields NaN exactly when P′(g) = 0 |
| Iterate.FixedPointIffRoot | Iterate.cc:13-32 | where P′(g) ≠ 0, g is a fixed point of the step exactly when P(g) = 0 |
| Iterate.RootIterate | Iterate.cc:13-32 | the method returns the Newton step of its guess (a NaN guess stays NaN) |
| Iterate.Budget | Iterate.cc:48 | a budget b ≥ 1 allows b steps; a budget of 0 wraps and allows 2^64 |
| Iterate.Run | Iterate.cc:41-49 | the steps left fall by at least one, and with some left the final estimate is finite |
| Iterate.RunStopsAtFirstConvergence | Iterate.cc:41-49 | at least one step runs, the loop stops at the first converged step or when the steps run out, and the result is that iterate |
| Iterate.BudgetedMeaning | Iterate.cc:36-51 | with the budget used up the result is the sentinel (even after a converged last step) and no earlier step converged; otherwise the result is the first converged iterate, and `max − remaining` counts the steps taken, between 1 and the budget |
| Iterate.StepsTaken | JuliaSet.cc:30-32 | with budget left over, `max_depth − remaining` in `size_t` is the number of steps taken, also for the wrapped budget 0 |
| Iterate.Root | Iterate.cc:36-51 | the do/while returns the value and the remaining budget that `RootResult` (the budgeted Newton loop) gives |
| JuliaSet.Spacing | JuliaSet.cc:22 | definition: (hi − lo)/n, the pixel spacing `xs` or `ys` |
| JuliaSet.Coordinate | JuliaSet.cc:22-56 | definition: lo with the spacing added i times, as `xp += xs` and `yp += ys` accumulate |
| JuliaSet.SampleAt | JuliaSet.cc:29-32 | definition: `root` from the pixel's guess, with depth `max_depth − remaining` in `size_t` |
| JuliaSet.Classify | JuliaSet.cc:34-51 | definition: zero → error pixel; the first `equal` root → its index; otherwise "too many roots" when more than `degree` roots are held, else append |
| JuliaSet.Extend | JuliaSet.cc:29-54 | definition: one pixel of the scan; a stopped scan stays stopped |
| JuliaSet.Discover | JuliaSet.cc:25-58 | definition: `Extend` over a sample sequence, from no roots and no pixels |
| JuliaSet.ScanTo | JuliaSet.cc:25-58 | definition: the scan up to pixel (x, y), rows outside and columns inside, as the nested loops run |
| JuliaSet.StopsInRow | JuliaSet.cc:45-48 | definition: the scan completes the rows above y and throws within row y |
| JuliaSet.StopRowUnique | JuliaSet.cc:45-48 | at most one row is the one where "too many roots" is thrown, so `*progress` after the throw is determined |
| JuliaSet.CoordinateIsLinear | JuliaSet.cc:22-56 | the coordinate reached by adding the spacing i times is lo + i·spacing |
| JuliaSet.SamplesLayout | JuliaSet.cc:25-28 | the row-major sample sequence holds pixel (x, y)'s sample at y·w + x |
| JuliaSet.FirstMatch | JuliaSet.cc:38-43 | the search index is the first root `equal` to the value, or the list length when none is |
| JuliaSet.FindRootIndex | JuliaSet.cc:38-43 | the linear search loop stops at the first `equal` root, or at the list length |
| JuliaSet.PlacePixel | JuliaSet.cc:34-51 | one result is placed as `Classify` says: sentinel to error pixel, a match to its index, a new value appended, or "too many roots" |
| JuliaSet.ScanPixel | JuliaSet.cc:29-51 | one pixel advances the scan by exactly one step, and it overflows exactly when the scan does |
| JuliaSet.StorePixel | JuliaSet.cc:51 | writing pixel (x, y) adds it to row y; every other cell of the raster keeps its value |
| JuliaSet.RenderRow | JuliaSet.cc:26-55 | row y continues the scan to the start of row y + 1, writing its pixels into the raster, or stops exactly when the scan overflows; cells outside row y keep their values |
| JuliaSet.JuliaFractal | JuliaSet.cc:16-61 | the renderer throws exactly when the scan overflows; otherwise it returns a fresh w×h raster holding the scan's pixels in row-major order, the scan's root list, a valid result, and `*progress = h − 1`; with h = 0 `*progress` is untouched; on overflow in row y it holds y − 1, or is untouched when y = 0 |
| JuliaSet.ScanToIsDiscover | JuliaSet.cc:25-58 | the position-counted scan is the scan of the row-major sample sequence |
| JuliaSet.ScanToStopped | JuliaSet.cc:45-48 | once the scan has stopped at some pixel, the whole render has stopped |
| JuliaSet.ClassifyKeepsRoots | JuliaSet.cc:34-51 | placing a sample only appends to the root list, keeps it within degree + 1 distinct non-sentinel roots, and writes a correct pixel |
| JuliaSet.ExtendKeepsInvariant | JuliaSet.cc:29-54 | one scan step keeps every earlier pixel correct and adds a correct pixel for the new sample |
| JuliaSet.DiscoverKeepsInvariant | JuliaSet.cc:16-61 | a completed scan has one pixel per sample and at most degree + 1 roots, none of them the sentinel and no two `equal`; error pixels are written exactly for the sentinel; every other pixel has its depth and the index of the first root its value matches (or of itself, when appended) |
| JuliaSet.DenotesIsFirstMatch | JuliaSet.cc:39-43 | with a positive detection precision, a non-error pixel's index is exactly the first `equal` root |
| JuliaSet.DiscoverPrefix | JuliaSet.cc:45-51 | the roots and pixels of a scan prefix are prefixes of the full scan's |
| JuliaSet.TooManyRootsIsFinal | JuliaSet.cc:45-48 | a stopped scan stays stopped whatever samples follow |
| JuliaSet.TooManyRootsExactly | JuliaSet.cc:45-48 | the scan stops exactly when some sample, reached with the scan running, needs a new root while the list holds more than `degree` roots |
| JuliaSet.RenderedRaster | JuliaSet.cc:25-58 | a completed render's raster is row-major, and every non-error pixel names a root of the list |
| Align.UpperBound | Main.cc:122 | definition: the first index from i on whose distance exceeds d, where `multimap::emplace` inserts |
| Align.Emplace | Main.cc:122 | definition: insertion at the upper bound of the new key |
| Align.DistancePairs | Main.cc:118-124 | definition: every pair emplaced into an empty multimap in loop order |
| Align.Claim | Main.cc:133-136 | definition: the slot takes the previous index when it is still −1 and erasing that index from the unused set succeeds |
| Align.GreedyUpTo | Main.cc:131-137 | definition: `Claim` over the first k multimap entries, from all −1 and all indices unused |
| Align.FillStep | Main.cc:140-148 | definition: an assigned slot is kept; an unassigned one takes the least unused index, which is erased |
| Align.FillFrom | Main.cc:140-148 | definition: `FillStep` over slots x … n − 1 |
| Align.ReplacementMap | Main.cc:117-148 | definition: the fill applied to the result of the greedy phase over the whole multimap |
| Align.Relabeled | Main.cc:152-157 | definition: an error pixel is kept; any other keeps its depth and takes index m[old index] |
| Align.UpperBoundSplits | Main.cc:122 | `emplace` goes to the upper bound: keys before it are at most the new key, the key at it is greater |
| Align.EmplaceKeepsSorted | Main.cc:122 | inserting a pair that comes after all present ones in loop order keeps the multimap ordered by (distance, insertion) and adds exactly that pair |
| Align.DistancePairsSorted | Main.cc:118-124 | the multimap is sorted by distance, with ties in loop order (previous outer, current inner) |
| Align.DistancePairsKeys | Main.cc:121-122 | every entry holds a real pair and that pair's true `abs2` distance |
| Align.DistancePairsComplete | Main.cc:119-123 | every (previous, current) pair is in the multimap |
| Align.FillDistancePairs | Main.cc:118-124 | the nested loops build exactly the multimap `DistancePairs`, whose order and contents the three lemmas above give |
| Align.AllIndices | Main.cc:126-129 | the unused set starts as {0, …, n − 1} |
| Align.GreedyMatch | Main.cc:126-137 | the greedy phase yields the map and set of `GreedyUpTo`, which `GreedyConsistent` shows stay consistent |
| Align.InitialConsistent | Main.cc:126-131 | the initial map (all −1) and the full unused set are consistent |
| Align.ClaimConsistent | Main.cc:132-137 | one greedy claim keeps assigned values distinct, in range and out of the unused set, and keeps the unused count equal to the unassigned count |
| Align.GreedyConsistent | Main.cc:132-137 | the whole greedy phase keeps the map and set consistent, so previous indices ≥ n are never assigned |
| Align.LeastIsSmallest | Main.cc:145 | `begin()` of the unused set is its smallest member |
| Align.FillStepConsistent | Main.cc:140-148 | an unassigned slot always finds an unused index (the set is never empty there), takes the least unused index as `begin()` does, and keeps consistency; other slots are unchanged |
| Align.FillConsistent | Main.cc:140-148 | the fill phase leaves every slot assigned and the map consistent |
| Align.FillUnassigned | Main.cc:139-148 | the fill loop performs `FillFrom`, the fill phase over all slots |
| Align.FillLeavesFull | Main.cc:140-143 | the fill leaves a fully assigned map unchanged |
| Align.ReplacementMapIsPermutation | Main.cc:126-148 | `replacement_map` ends as a permutation of 0 … n − 1 |
| Align.DiagonalComesFirst | Main.cc:118-124 | for distinct roots matched against themselves, an entry (c, c) is the first entry with current root c |
| Align.GreedyOnSameRoots | Main.cc:132-137 | matched against themselves, exactly the slots whose pair (i, i) has been seen are assigned, each to i |
| Align.SameRootsKeepIndices | Main.cc:117-148 | when the previous and current lists are the same distinct roots, the map is the identity |
| Align.RelabelPixels | Main.cc:150-159 | error pixels are untouched; every other pixel keeps its depth and takes `replacement_map[old index]` |
| Align.PermuteRoots | Main.cc:161-164 | root i moves to slot m[i]; the list keeps its length and multiset |
| Align.PermutedMultiset | Main.cc:161-165 | placing root i at slot m[i] of a permutation m keeps the roots as a multiset |
| Align.AlignRoots | Main.cc:117-166 | the raster is rewritten in place; the map is a permutation; roots are permuted by it; the root multiset is unchanged; every non-error pixel still denotes the same root value; the result stays valid |
| Coloring.InitialBounds | Main.cc:47-60 | definition: the starting min and max and the two compute flags, by the four argument cases |
| Coloring.ScanRuns | Main.cc:63 | definition: the scan runs exactly when `compute_max_intensity` is set (the condition tests it twice) |
| Coloring.Widen | Main.cc:66-77 | definition: one pixel of the scan: error pixels skipped; under `compute_max` min is lowered and max raised, compared unsigned |
| Coloring.Scanned | Main.cc:63-80 | definition: `Widen` over the pixels before (x, y) in row-major order |
| Coloring.SelectBounds | Main.cc:46-80 | definition: `InitialBounds`, then the scan when it runs |
| Coloring.Range | Main.cc:84 | definition: (max − min) mod 2^64 |
| Coloring.ScaleDown | Main.cc:104-106 | definition: `(a * c) / range` with the product wrapping mod 2^64 |
| Coloring.Channel | Main.cc:94-107 | definition: clamp; all or nothing when the range is 0; else `ScaleDown` of the offset from min |
| Coloring.Shade | Main.cc:89-108 | definition: error pixels white; any other pixel gets three `Channel`s of its palette colour |
| Coloring.ToSigned | Main.cc:73 | storing a `uint64_t` depth into `int64_t` and comparing it back as unsigned gives the depth |
| Coloring.RangeIsUnsignedDistance | Main.cc:84 | the signed `max - min` stored unsigned is the unsigned distance (mod 2^64), and is 0 exactly when min == max |
| Coloring.SelectBoundsCases | Main.cc:47-60 | neither bound given: both start at pixel (0, 0)'s depth and the scan runs; only max: min = max, no scan; only min: max = min and the scan runs; both: used as given |
| Coloring.ScannedLowest | Main.cc:63-79 | the scan only lowers min: it ends at or below its start and every scanned non-error depth, and is its start or one of them |
| Coloring.ScannedHighest | Main.cc:63-79 | the scan only raises max: it ends at or above its start and every scanned non-error depth, and is its start or one of them |
| Coloring.IntensityBounds | Main.cc:46-80 | the bound selection yields `SelectBounds` (its cases and scan results are the three lemmas above) |
| Coloring.ScanRow | Main.cc:65-78 | one row of the scan advances the window to the start of the next row |
| Coloring.Clamp | Main.cc:94-95 | within a proper window the clamped depth lies in [min, max]: depths inside stay put, a depth above max becomes max, one below min becomes min; an inverted window pins every depth to min |
| Coloring.ChannelScales | Main.cc:99-107 | with min < max a channel is (clamped − min)·c/(max − min): at most c, 0 at or below min, c at or above max |
| Coloring.ChannelFlat | Main.cc:99-102 | with min == max every non-error pixel gets the full palette channel |
| Coloring.ChannelInvertedIsBlack | Main.cc:94-107 | with min above max (unsigned) every channel is 0 |
| Coloring.ChannelMonotone | Main.cc:94-107 | within a proper window a deeper pixel is never darker |
| Coloring.ColorFractal | Main.cc:46-113 | the output has the input's size; error pixels are white and others are shaded from the palette under the selected window |
| Keyframes.Lookup | Main.cc:252 | definition: the list stored under frame f in the ordered map, or none |
| Keyframes.PaddedEntries | Main.cc:283-287 | definition: every entry's list padded to n, keys kept |
| Keyframes.Interpolate | Main.cc:308 | definition: (b·progress + a·(interval − progress)) / interval, with the subtraction in `size_t` |
| Keyframes.Blend | Main.cc:305-309 | definition: `Interpolate` on every coefficient |
| Keyframes.KeyIndex | Main.cc:296-301 | definition: the keyframe the loop has reached at frame f: it advances while the next key is at most f |
| Keyframes.CoefficientsAt | Main.cc:296-310 | definition: a key frame after the first gets its own list; any other frame blends the current and next key with progress f − key in `size_t` |
| Keyframes.KeyOf | Main.cc:232-241 | no `@` stores under frame 0; a non-negative frame under itself; a negative frame n under the `size_t` 2^64 + n |
| Keyframes.Padded | Main.cc:284-286 | a shorter list becomes n long, with zeros in front and the original as suffix; longer lists are unchanged |
| Keyframes.KeyframeTable.constructor | Main.cc:209-210 | the table starts empty with `max_coeffs` 0 |
| Keyframes.KeyframeTable.Add | Main.cc:232-252 | `max_coeffs` becomes the larger of itself and the list length; the list is stored under its frame unless that frame is present (then the option is dropped); other lookups unchanged |
| Keyframes.InsertKeepsMap | Main.cc:252 | inserting a new key at its sorted place keeps the listing ordered and changes only that key's lookup |
| Keyframes.KeyframeTable.PadToMax | Main.cc:283-287 | every entry is padded to `max_coeffs`; keys and order are kept, and each lookup gives the padded list |
| Keyframes.PaddedEntriesKeepOrder | Main.cc:283-287 | padding keeps the keys in order, makes every entry exactly n long, and pads each looked-up list |
| Keyframes.PaddingKeepsEquation | Main.cc:283-287 | leading zero coefficients change neither the polynomial nor the Newton step |
| Keyframes.InterpolateIsLinear | Main.cc:308 | within an interval the interpolation is a + (b − a)·progress/interval: a at 0, b at the interval's end |
| Keyframes.BlendInto | Main.cc:305-309 | the inner loop recomputes every coefficient of the frame from the two surrounding keyframes |
| Keyframes.KeyIndexIs | Main.cc:296-301 | the keyframe the loop has reached at frame f is the last key not above f (or the first) |
| Keyframes.KeyframeTable.FrameCoefficients | Main.cc:289-310 | one list per frame 0 … last key, each `CoefficientsAt` that frame |
| Keyframes.KeyframesReproduced | Main.cc:296-310 | a key after the first is the one the loop has reached at its frame, whose list is copied verbatim; the first key's frame is the zero-progress blend toward the second, which over the reals is the first key's list |
| Keyframes.FramesBetweenKeys | Main.cc:303-309 | a frame between keys a ≤ f < b lies on the straight line from A to B at (f − a)/(b − a) in [0, 1) |
| Keyframes.FramesBeforeFirstKey | Main.cc:306-308 | before a first key k0 > 0, progress wraps to 2^64 − (k0 − f), beyond the first interval |

## Left out

- Keyframes.KeyframesReproduced: for the first key the equality holds over the reals only. The source computes `(A·interval + B·0) / interval`, which IEEE-754 may round away from A; keys after the first are copied and exact.
- IEEE-754 arithmetic: doubles are exact reals. The model does not capture rounding, overflow to infinity, or the exact bit patterns of NaN. A zero Newton denominator becomes the absorbing `NotFinite` estimate. Convergence of Newton's method is not claimed.
- The x86-64 assembly step `root_iterate_asm` (Iterate.cc:43-44): its body is not part of this model.
- Command-line parsing (`atoi`, `atof`, `stoi`, the `complex(const char*)` parser) and `print_usage`. `Add` takes the frame token and the parsed coefficient list as inputs.
- phosg `Image`: the raster is an `array2<Pixel>` of (depth, root index, error) triples. `result_bit_width`, the image's channel widths and any truncation on `write_pixel` are not modelled. Colour channels are the `uint64_t` values passed to `write_pixel`.
- Output: file naming, `save`, and stderr progress printing. In the frame loop, `FrameCoefficients` returns the coefficient list of each frame instead of rendering it. The rendering, `align_roots` and `color_fractal` calls made per frame are modelled on their own.
- JuliaSet.hh declares `julia_fractal` without the `result_bit_width` and `progress` parameters that JuliaSet.cc takes. The model follows JuliaSet.cc and takes `progress` as a counter object.
- Keyframes.KeyframeTable.FrameCoefficients: requires the last key to be below 2^64 − 1. With a last key of `SIZE_MAX` the loop `frame <= end_frame` never ends.
- Coloring.ChannelScales: states the scaled channel only when max − min < 2^56. For larger spans `(depth - min) * c` can wrap in `uint64_t`; `Channel` still computes that case, wrap included.
- Coloring.ChannelMonotone: holds under the same span bound as `ChannelScales`.
- Coloring.ColorFractal: requires every non-error root index to be below 21, the palette size. Beyond it the source reads past `colors`. It also requires a non-empty raster when neither bound is given, because the source then reads pixel (0, 0).
- JuliaSet.JuliaFractal: requires at least one coefficient. With none, `degree` wraps and the power table has no room for its first entry.
- Align.AlignRoots: requires a valid current result, in which every non-error root index is below the number of roots. The source indexes `replacement_map` with it unchecked.
