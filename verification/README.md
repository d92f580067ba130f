# Epicycle drawing: a Dafny model of the path and term pipeline

`epicycles.py` draws an SVG outline with a chain of rotating vectors (epicycles).
This model covers the pure pipeline between loading the outline and rendering
the animation:

- **Path preparation** (`load_and_process_svg`, after sampling). Several sampled
  contours are joined into one path by a greedy nearest-endpoint tour. The path
  is closed, centred on its mean, and scaled so that its largest coordinate in
  absolute value equals the scale factor.
- **Coefficient dictionary** (`compute_fourier_coefficients`). FFT bin `i` of an
  `n`-point transform becomes the entry `harmonic -> value / n`.
- **Term selection** (`find_optimal_epicycles`). The terms are sorted stably by
  descending energy `|c|^2`. Energy is accumulated until the retained share
  reaches the threshold. The count is clamped to the configured minimum and
  maximum, and the retained share of the final prefix is reported.
- **Animation precomputation** (`precompute_animation`). For every step it
  computes the pen point and the chain of circles and vectors. Each vector spans
  one rotated term, and the chain ends at the pen point.

Modules follow these stages:

| module | file | covers |
|---|---|---|
| `Geometry` | `geometry.dfy` | planar points, sums, squared distance, absolute value |
| `Spectrum` | `spectrum.dfy` | harmonics of FFT bins and the coefficient dictionary |
| `EnergySort` | `energy_sort.dfy` | the stable descending sort by energy |
| `Selection` | `selection.dfy` | threshold scan, clamp, retained-energy ratio |
| `Animation` | `animation.dfy` | pen point and epicycle chain per step |
| `ContourOrder` | `contours.dfy` | the greedy contour tour |
| `PathPrep` | `pathprep.dfy` | join, close, centre and scale |

Complex numbers are `Geometry.Point(x, y)` over `real`. Some numerics are not
modelled and are taken as parameters instead:

- `rotate(c, f, t)` stands for `c * exp(2*pi*i*f*t)`.
- `magnitude(c)` stands for `abs(c)`.
- `dist(p, q)` stands for `np.linalg.norm(p - q)`.
- The FFT values are an input.

The laws proved about the chain hold for every `rotate` and `magnitude`. Those about the tour hold for every `dist`, except three: the tour begins with the whole first contour (`ContourOrder.FirstChoiceIsFirstContour`, `ContourOrder.TourStartsWithFirstContour` and the prefix clause of `PathPrep.JoinContours`) only for a distance that is never negative and is zero from a point to itself, as the norm is.

## Behaviour worth knowing

- **Harmonic window.** `np.fft.fftfreq` maps bin `N/2` of an even-length
  transform to `-N/2`, so the harmonics of an `N`-point transform fill the
  window `[-(N/2), (N-1)/2]` (`Spectrum.SignedFrequency`).
- **Ties in the sort.** `sorted(..., reverse=True)` is stable, so terms of
  equal energy keep dictionary order, which is bin order (`EnergySort.SortIsStable`).
- **Order of the selected terms.** The selected terms stay in energy order, and
  the chain of vectors is built in that order.
- **No validation of the limits.** `find_optimal_epicycles` never checks its
  limits. `Selection.Clamp` gives the result of `max(min, min(k, max))` for
  every pair of limits, including `max < min`.
- **Zero total energy.** When the total energy is zero, the code divides numpy
  floats. That gives NaN with a warning, not an exception. The scan then never
  reaches the threshold, so every term is taken before clamping, and the
  reported ratio is NaN (`Selection.EnergyRatio.NotANumber`).
- **Scale factor.** The configured scale factor enters through the statement
  `points = points / max_extent * scale_factor` of `load_and_process_svg`
  (`PathPrep.Normalise`).

## Model

| member | source | states |
|---|---|---|
| Spectrum.SignedFrequency | epicycles.py:142 | the harmonic of bin `i` lies in the window `[-(n/2), (n-1)/2]` and is congruent to `i` modulo `n` |
| Spectrum.BinOfSignedFrequency | epicycles.py:142 | the bin can be recovered from its harmonic |
| Spectrum.SignedFrequencyOfBin | epicycles.py:142 | every harmonic of the window is the harmonic of exactly the bin `BinOf` names |
| Spectrum.SignedFrequencyInjective | epicycles.py:142-144 | two bins never share a harmonic, so no dictionary entry overwrites another |
| Spectrum.Coefficients | epicycles.py:138-144 | one item per sample, in bin order: item `i` has the harmonic of bin `i`, the harmonics are pairwise distinct and in the window, and each coefficient times `n` gives back the transform value of its bin |
| Spectrum.Dict | epicycles.py:144 | a dictionary built by insertion maps every key to the value inserted last with it |
| Spectrum.DictKeys | epicycles.py:144 | the keys of a dictionary built by insertion are exactly the inserted keys |
| Spectrum.DictOfDistinctKeys | epicycles.py:144 | with distinct keys, the dictionary has one entry per item, holding that item's coefficient |
| Spectrum.CoefficientDict | epicycles.py:136-145 | the dictionary has one entry per sample; the key of bin `i` is its harmonic, and its value times `n` is the transform value of bin `i` |
| Spectrum.CoefficientDictionary | epicycles.py:136-145 | the dictionary has exactly `n` entries, its keys are exactly the harmonic window, and entry `f` times `n` is the transform value of bin `BinOf(n, f)` |
| EnergySort.SortByEnergy | epicycles.py:150 | the sorted terms are a permutation of the input in non-increasing energy |
| EnergySort.SortIsStable | epicycles.py:150 | for every energy level, the terms at that level appear in their original order |
| EnergySort.StableSortIsUnique | epicycles.py:150 | any non-increasing arrangement that keeps every level's order equals the model's sort, so the model agrees with Python's stable `sorted` |
| Selection.SumEnergy | epicycles.py:153 | the summed energy is never negative and is at least the energy of every single term |
| Selection.SortKeepsEnergy | epicycles.py:150-153 | sorting does not change the total energy |
| Selection.Ratio | epicycles.py:160 | the energy ratio is a number exactly when the total is positive, and lies in `[0, 1]` for a part of the total |
| Selection.ThresholdCount | epicycles.py:154-168 | the count is the first prefix length whose share reaches the threshold, or all terms if none does |
| Selection.ThresholdCountUnique | epicycles.py:154-168 | any count with that first-reaching property is the threshold count |
| Selection.Clamp | epicycles.py:171 | the clamped count is at least the minimum, at most the maximum when the limits are ordered, unchanged inside them, and the minimum when the maximum is below it |
| Selection.Select | epicycles.py:148-177 | the count is the clamped threshold count, the kept terms are that prefix of the sorted terms, and the ratio is the kept share of the total energy |
| Selection.SelectedOutweighDropped | epicycles.py:150-177 | every kept term has at least the energy of every dropped term |
| Selection.RetainedEnergyMeetsThreshold | epicycles.py:157-175 | when the total energy is positive, the threshold is at most 1 and the threshold count fits under the maximum, the reported ratio reaches the threshold |
| Selection.ThresholdMonotone | epicycles.py:157-175 | raising the threshold never lowers the count nor the reported ratio |
| Selection.ConfiguredSelection | epicycles.py:34-36 | under the configured limits, at least 100 samples give between 100 and 2000 terms, exactly 100 when fewer reach 99.9%, and, with a positive total energy, a 99.9% share when the threshold count is at most 2000 |
| Selection.TotalEnergy | epicycles.py:153 | the loop computes the total energy of the sorted terms |
| Selection.PrefixEnergy | epicycles.py:174 | the loop computes the energy of the first `count` terms |
| Selection.ScanThreshold | epicycles.py:154-168 | the scan stops at the first prefix reaching the threshold, or takes all terms |
| Selection.FindOptimalEpicycles | epicycles.py:148-177 | the step-by-step procedure returns exactly the selection `Select` describes |
| Animation.StepTime | epicycles.py:190 | the time of a step lies in `[0, 1)`, and the first step is at time 0 |
| Animation.PartialSum | epicycles.py:192-195 | the running sum after `k` terms is the sum of the first `k` rotated terms |
| Animation.PenPosition | epicycles.py:192-195 | the pen position is the sum of all rotated terms |
| Animation.PenPoint | epicycles.py:192-195 | the accumulating loop ends with the pen position, the sum of all rotated terms |
| Animation.BuildFrame | epicycles.py:197-221 | the frame is a chain: it starts at the origin, each vector starts where the previous one ends and spans its rotated term, and each circle is centred on its vector's start with the term's radius |
| Animation.ChainFollowsPartialSums | epicycles.py:199-219 | vector `k` of a chain runs from the `k`-th to the `k+1`-st partial sum |
| Animation.ChainEndsAtPen | epicycles.py:192-219 | the last vector of the chain ends at the pen point |
| Animation.ChainIsUnique | epicycles.py:197-221 | two chains for the same terms and time are equal |
| Animation.PrecomputeAnimation | epicycles.py:184-223 | one pen point and one chain per step at time `step / num_steps`, and each step's chain ends at that step's pen point |
| ContourOrder.Reverse | epicycles.py:124-127 | the reversal has the same length, holds point `i` at position `n-1-i`, and has the same points |
| ContourOrder.ReverseReverse | epicycles.py:124-127 | reversing twice gives back the contour |
| ContourOrder.Consider | epicycles.py:111-120 | one update keeps one of the two candidates, no farther than either, and keeps the best so far on a tie |
| ContourOrder.Nearest | epicycles.py:110-121 | the chosen endpoint is at least as near as every candidate endpoint, and strictly nearer than every candidate scanned before it |
| ContourOrder.Oriented | epicycles.py:123-124 | the appended contour is the chosen one or its reversal, and starts at the chosen endpoint |
| ContourOrder.Choice | epicycles.py:105-124 | the next contour is non-empty and is a remaining contour, forwards or reversed |
| ContourOrder.ChoiceIsNearest | epicycles.py:105-124 | the appended contour starts no farther from the current position than either end of any remaining contour |
| ContourOrder.ChoicePrefersEarlier | epicycles.py:110-121 | every contour before the chosen one is strictly farther at both ends, so the first minimum wins |
| ContourOrder.ChoicePrefersForward | epicycles.py:110-124 | a contour is reversed only when its end is strictly nearer than its start |
| ContourOrder.Without | epicycles.py:127 | a contour stays exactly when it is neither the chosen contour nor its reversal |
| ContourOrder.WithoutConcat | epicycles.py:127 | filtering a concatenation is the concatenation of the filtered parts, so the kept contours keep their order and copies |
| ContourOrder.WithoutSingle | epicycles.py:127 | a single contour is kept exactly when it is not the chosen contour or its reversal |
| ContourOrder.WithoutShrinks | epicycles.py:127 | the remaining list shrinks on every round, so the loop ends |
| ContourOrder.WithoutNothing | epicycles.py:127 | a filter that matches nothing leaves the list unchanged |
| ContourOrder.WithoutRemovesOne | epicycles.py:127 | with no duplicates up to reversal, exactly one contour is removed per round |
| ContourOrder.WithoutKeepsDistinct | epicycles.py:127 | filtering keeps a duplicate-free list duplicate-free |
| ContourOrder.Order | epicycles.py:101-127 | the tour has no more contours than the input, all non-empty, and begins with the nearest choice |
| ContourOrder.OrderUsesInputs | epicycles.py:101-127 | every contour of the tour is an input contour or its reversal |
| ContourOrder.OrderCoversInputs | epicycles.py:101-127 | every input contour appears in the tour, forwards or reversed |
| ContourOrder.OrderIsDistinct | epicycles.py:101-127 | no contour appears twice in the tour, even reversed |
| ContourOrder.OrderIsComplete | epicycles.py:101-127 | with no duplicates up to reversal in the input, the tour has exactly as many contours as the input |
| ContourOrder.ConnectContours | epicycles.py:99-129 | the joined path is non-empty and begins with the whole contour chosen first from the first point of the first contour |
| ContourOrder.Concat | epicycles.py:129 | the first contour is a prefix of the concatenation |
| ContourOrder.ConcatPoints | epicycles.py:129 | a point is in the concatenation exactly when it is in one of the contours |
| ContourOrder.FirstChoiceIsFirstContour | epicycles.py:102-121 | starting at the first point of the first contour, the first round picks that contour unreversed |
| ContourOrder.TourStartsWithFirstContour | epicycles.py:99-129 | the joined path starts with the whole first contour, in its own direction |
| ContourOrder.TourVisitsExactlyInputPoints | epicycles.py:99-129 | a point is on the joined path exactly when it is on some input contour |
| ContourOrder.Update | epicycles.py:111-121 | one `if dist < best_dist` update produces the candidate `Consider` names, with its distance |
| ContourOrder.ConsiderContour | epicycles.py:110-121 | one pass of the inner loop body updates the best candidate and distance to those of the scanned prefix plus one contour |
| ContourOrder.ScanNearest | epicycles.py:105-124 | the inner loop picks the contour and orientation the nearest-endpoint choice names |
| ContourOrder.ConnectContoursTsp | epicycles.py:99-129 | the loop builds exactly the greedy tour, concatenated |
| PathPrep.ClosePath | epicycles.py:86-87 | the path gains its first point exactly when its ends are farther apart than the tolerance, and its ends are within the tolerance afterwards |
| PathPrep.ClosePathIdempotent | epicycles.py:86-87 | closing a closed path changes nothing |
| PathPrep.SumTranslate | epicycles.py:90-91 | shifting every point shifts the sum by `n` times the shift |
| PathPrep.SumRescale | epicycles.py:94 | scaling every point scales the sum |
| PathPrep.Mean | epicycles.py:90 | the mean taken `n` times is the sum of the path |
| PathPrep.Centre | epicycles.py:90-91 | the centred path has as many points as the path, and they sum to the origin |
| PathPrep.CentreKeepsShape | epicycles.py:90-91 | centring keeps the offset between any two points |
| PathPrep.CentredSumIsOrigin | epicycles.py:90-91 | the centred path sums to, and has its mean at, the origin |
| PathPrep.CentreIdempotent | epicycles.py:90-91 | centring a centred path changes nothing |
| PathPrep.MaxExtent | epicycles.py:92 | the extent bounds every coordinate in absolute value and is attained by one |
| PathPrep.MaxExtentIs | epicycles.py:92 | any value with those two properties is the extent |
| PathPrep.Normalise | epicycles.py:92-94 | with a positive extent every point is scaled by the one factor `scale / extent`; with a zero extent the path is unchanged |
| PathPrep.NormalisedExtent | epicycles.py:92-94 | after scaling, the largest coordinate in absolute value is exactly the scale factor |
| PathPrep.NormaliseDegenerate | epicycles.py:92-94 | a zero extent means every point is the origin and the path is left as it is |
| PathPrep.NormaliseKeepsCentre | epicycles.py:90-94 | scaling keeps a centred path centred |
| PathPrep.JoinContours | epicycles.py:80-83 | the joined path holds exactly the sampled points and, for a distance like the norm, begins with the whole first contour in its own direction |
| PathPrep.PreparePath | epicycles.py:80-96 | the prepared path is non-empty and sums to the origin |
| PathPrep.PreparedPath | epicycles.py:80-96 | the prepared path has one point more than the joined contours exactly when their ends were apart, sums to the origin, and reaches the scale factor in its largest coordinate unless all its points coincide |

## Left out

- SVG loading and arc-length sampling (lines 59-78) are not modelled; the sampled contours are the input. Reading files is I/O, and sampling uses the `svgpathtools` library.
- The FFT, `np.exp`, `abs` of a complex number and `np.linalg.norm` are not modelled. The first is an input; the other three are the parameters `rotate`, `magnitude` and `dist`. They are floating-point library numerics.
- Floating point in general: all arithmetic is on exact reals. Rounding, overflow and NaN are not modelled, except the NaN ratio of a zero total energy.
- PathPrep.ClosePath: the source compares the norm of the gap with `1e-6`; the model compares the squared distance with `1e-12`. The two tests agree, because both sides are non-negative and the square root is not modelled.
- The third coordinate (always 0) that `precompute_animation` attaches to each point is dropped.
- The Manim scene, `main` and the rendering options of `CONFIG` (colours, timing, resolution) are not modelled. They only draw the precomputed states.
- The `CONFIG` table is not modelled as a global. The selector limits are a `Limits` parameter; the configured values are `Selection.ConfiguredLimits`. The scale factor is a parameter of `PathPrep.Normalise`; its configured value is `PathPrep.ScaleFactor`.
- Selection.Select: requires the limits to be `Selection.Admissible`: `min_epicycles <= n`, and at least one of the two limits non-negative. A minimum above `n` makes line 174 raise `IndexError`. When both limits are negative, line 171 yields a negative count, which line 177 applies as a slice from the back; that path is not modelled. A negative minimum with a non-negative maximum is modelled: the count is then `min(k, max_epicycles)`.
- Selection.Select: requires a non-empty dictionary. An empty one ends in a division by an integer zero or an `IndexError`.
- Selection.RetainedEnergyMeetsThreshold: holds only when the threshold count is at most `max_epicycles`, the total energy is positive and `energy_threshold <= 1`. Otherwise the maximum can cut the prefix below the threshold, the ratio is NaN, or the ratio of at most 1 falls short of a threshold above 1.
- ContourOrder.ConnectContours: requires a non-empty list of non-empty contours. The source raises `IndexError` on an empty list or an empty contour.
- ContourOrder.OrderIsComplete: assumes no two input contours are equal up to reversal. The source's filter at line 127 drops every copy of the chosen contour at once, so duplicated contours are drawn once; `OrderUsesInputs`, `OrderCoversInputs` and `OrderIsDistinct` state what happens in general.
- ContourOrder.TourStartsWithFirstContour: needs a distance that is non-negative and zero between a point and itself, which the Euclidean norm is. The same holds for ContourOrder.FirstChoiceIsFirstContour and for the prefix clause of PathPrep.JoinContours.
