/** `find_optimal_epicycles`: how many of the strongest terms to keep. The
    terms are sorted by descending energy, energy is accumulated until the
    retained share reaches the threshold (all terms if it never does), the
    count is clamped to the configured minimum and maximum, and the retained
    share of the clamped prefix is reported. The configuration values are
    parameters rather than a global table. */
module Selection {
  import opened Spectrum
  import opened EnergySort

  /** The configuration values the selector reads. */
  datatype Limits = Limits(energyThreshold: real, minEpicycles: int, maxEpicycles: int)

  /** The configured values: 99.9% of the energy, at least 100 and at most
      2000 terms. */
  const ConfiguredLimits: Limits := Limits(0.999, 100, 2000)

  /** The limits under which the clamped count is a prefix length of `n`
      terms: a minimum above `n` makes the program index past the end of the
      sorted items, and when both limits are negative the count is negative
      and the program slices from the back. A negative minimum with a
      non-negative maximum is harmless, since the count is then
      `min(k, max) >= 0`. */
  predicate Admissible(lim: Limits, n: nat) {
    lim.minEpicycles <= n && (0 <= lim.minEpicycles || 0 <= lim.maxEpicycles)
  }

  /** A quotient of energies as numpy computes it on float64 values: a zero
      total gives NaN (with a runtime warning), not an exception. */
  datatype EnergyRatio = Finite(value: real) | NotANumber

  datatype Selection = Selection(count: nat, terms: seq<Term>, ratio: EnergyRatio)

  /** The energies of `s`, summed left to right: never negative, and at
      least the energy of any single term. */
  function SumEnergy(s: seq<Term>): (e: real)
    ensures e >= 0.0
    ensures forall i :: 0 <= i < |s| ==> TermEnergy(s[i]) <= e
    decreases |s|
  {
    if |s| == 0 then 0.0 else SumEnergy(s[..|s| - 1]) + TermEnergy(s[|s| - 1])
  }

  lemma {:induction false} SumEnergyConcat(a: seq<Term>, b: seq<Term>)
    ensures SumEnergy(a + b) == SumEnergy(a) + SumEnergy(b)
    decreases |b|
  {
    if |b| == 0 {
      assert a + b == a;
    } else {
      assert (a + b)[..|a + b| - 1] == a + b[..|b| - 1];
      SumEnergyConcat(a, b[..|b| - 1]);
    }
  }

  /** A longer prefix never holds less energy. */
  lemma PrefixEnergyMonotone(s: seq<Term>, i: nat, j: nat)
    requires i <= j <= |s|
    ensures SumEnergy(s[..i]) <= SumEnergy(s[..j])
  {
    assert s[..j] == s[..i] + s[i..j];
    SumEnergyConcat(s[..i], s[i..j]);
  }

  lemma PrefixEnergyBound(s: seq<Term>, i: nat)
    requires i <= |s|
    ensures SumEnergy(s[..i]) <= SumEnergy(s)
  {
    PrefixEnergyMonotone(s, i, |s|);
    assert s[..|s|] == s;
  }

  lemma {:induction false} InsertKeepsEnergy(s: seq<Term>, t: Term)
    requires NonIncreasing(s)
    ensures SumEnergy(Insert(s, t)) == SumEnergy(s) + TermEnergy(t)
    decreases |s|
  {
    if |s| == 0 {
      assert Insert(s, t) == [t];
      assert [t][..0] == [];
    } else if TermEnergy(s[0]) >= TermEnergy(t) {
      NonIncreasingTail(s);
      InsertKeepsEnergy(s[1..], t);
      assert Insert(s, t) == [s[0]] + Insert(s[1..], t);
      SumEnergyConcat([s[0]], Insert(s[1..], t));
      assert s == [s[0]] + s[1..];
      SumEnergyConcat([s[0]], s[1..]);
    } else {
      assert Insert(s, t) == [t] + s;
      SumEnergyConcat([t], s);
      assert [t][..0] == [];
    }
  }

  /** Sorting does not change the total energy of the spectrum. */
  lemma {:induction false} SortKeepsEnergy(s: seq<Term>)
    ensures SumEnergy(SortByEnergy(s)) == SumEnergy(s)
    decreases |s|
  {
    if |s| > 0 {
      SortKeepsEnergy(s[..|s| - 1]);
      InsertKeepsEnergy(SortByEnergy(s[..|s| - 1]), s[|s| - 1]);
    }
  }

  /** `part / total` for non-negative energies. */
  function Ratio(part: real, total: real): (r: EnergyRatio)
    requires 0.0 <= part && 0.0 <= total
    ensures r.Finite? <==> total > 0.0
    ensures r.Finite? && part <= total ==> 0.0 <= r.value <= 1.0
  {
    if total == 0.0 then NotANumber else Finite(part / total)
  }

  /** `ratio >= threshold` as a float comparison: false when the ratio is NaN. */
  predicate AtLeast(r: EnergyRatio, threshold: real) {
    r.Finite? && r.value >= threshold
  }

  /** The first `i` terms of `sorted` hold at least the threshold share of the
      energy of all of them. */
  predicate Reaches(sorted: seq<Term>, threshold: real, i: nat)
    requires i <= |sorted|
  {
    AtLeast(Ratio(SumEnergy(sorted[..i]), SumEnergy(sorted)), threshold)
  }

  function SearchFrom(sorted: seq<Term>, threshold: real, i: nat): (k: nat)
    requires 1 <= i <= |sorted|
    ensures i <= k <= |sorted|
    ensures forall j :: i <= j < k ==> !Reaches(sorted, threshold, j)
    ensures Reaches(sorted, threshold, k) || k == |sorted|
    decreases |sorted| - i
  {
    if Reaches(sorted, threshold, i) || i == |sorted| then i
    else SearchFrom(sorted, threshold, i + 1)
  }

  /** The count before clamping: the least `i >= 1` whose prefix reaches the
      threshold, or every term when no prefix does. */
  function ThresholdCount(sorted: seq<Term>, threshold: real): (k: nat)
    requires |sorted| > 0
    ensures 1 <= k <= |sorted|
    ensures forall i :: 1 <= i < k ==> !Reaches(sorted, threshold, i)
    ensures Reaches(sorted, threshold, k) || k == |sorted|
  {
    SearchFrom(sorted, threshold, 1)
  }

  /** `max(lo, min(k, hi))`. */
  function Clamp(k: int, lo: int, hi: int): (r: int)
    ensures r >= lo
    ensures lo <= hi ==> r <= hi
    ensures lo <= k <= hi ==> r == k
    ensures k < lo || hi < lo ==> r == lo
    ensures lo <= hi < k ==> r == hi
  {
    var capped := if k <= hi then k else hi;
    if lo >= capped then lo else capped
  }

  /** Every term of `kept` carries at least the energy of every term of `dropped`. */
  predicate Outweighs(kept: seq<Term>, dropped: seq<Term>) {
    forall t, u :: t in kept && u in dropped ==> TermEnergy(t) >= TermEnergy(u)
  }

  /** What `find_optimal_epicycles` returns. The program crashes when the
      spectrum is empty (a division of integer zeros, or an index past the
      end) and when the limits are not `Admissible`, hence the
      preconditions. */
  function Select(coeffs: seq<Term>, lim: Limits): (sel: Selection)
    requires |coeffs| > 0
    requires Admissible(lim, |coeffs|)
    ensures sel.count == Clamp(ThresholdCount(SortByEnergy(coeffs), lim.energyThreshold),
                               lim.minEpicycles, lim.maxEpicycles)
    ensures lim.minEpicycles <= sel.count <= |coeffs|
    ensures lim.minEpicycles <= lim.maxEpicycles ==> sel.count <= lim.maxEpicycles
    ensures sel.terms == SortByEnergy(coeffs)[..sel.count]
    ensures SumEnergy(sel.terms) <= SumEnergy(coeffs)
    ensures sel.ratio == Ratio(SumEnergy(sel.terms), SumEnergy(coeffs))
  {
    var sorted := SortByEnergy(coeffs);
    var raw := ThresholdCount(sorted, lim.energyThreshold);
    var count := Clamp(raw, lim.minEpicycles, lim.maxEpicycles);
    assert count <= |coeffs|;
    PrefixEnergyBound(sorted, count);
    SortKeepsEnergy(coeffs);
    Selection(count, sorted[..count], Ratio(SumEnergy(sorted[..count]), SumEnergy(sorted)))
  }

  lemma SortedSplit(s: seq<Term>, k: nat)
    requires NonIncreasing(s) && k <= |s|
    ensures Outweighs(s[..k], s[k..])
  {
    forall t, u | t in s[..k] && u in s[k..]
      ensures TermEnergy(t) >= TermEnergy(u)
    {
      var i :| 0 <= i < k && s[i] == t;
      var j :| k <= j < |s| && s[j] == u;
    }
  }

  /** Every selected term carries at least the energy of every term left out. */
  lemma SelectedOutweighDropped(coeffs: seq<Term>, lim: Limits)
    requires |coeffs| > 0
    requires Admissible(lim, |coeffs|)
    ensures Outweighs(Select(coeffs, lim).terms, SortByEnergy(coeffs)[Select(coeffs, lim).count..])
  {
    SortedSplit(SortByEnergy(coeffs), Select(coeffs, lim).count);
  }

  /** The ratio grows with the retained part. */
  lemma RatioMonotone(p: real, q: real, total: real)
    requires 0.0 <= p <= q <= total && total > 0.0
    ensures Ratio(p, total).value <= Ratio(q, total).value
  {
    DivideMonotone(p, q, total);
  }

  lemma DivideMonotone(p: real, q: real, total: real)
    requires p <= q && total > 0.0
    ensures p / total <= q / total
  {
    assert q / total - p / total == (q - p) / total;
  }

  /** All of the energy is a ratio of one. */
  lemma RatioOfWhole(total: real)
    requires total > 0.0
    ensures Ratio(total, total).value == 1.0
  {
  }

  /** Only the count `ThresholdCount` returns is a least threshold-reaching
      prefix length (or the full length when none reaches). */
  lemma ThresholdCountUnique(sorted: seq<Term>, threshold: real, k: nat)
    requires 1 <= k <= |sorted|
    requires forall i :: 1 <= i < k ==> !Reaches(sorted, threshold, i)
    requires Reaches(sorted, threshold, k) || k == |sorted|
    ensures k == ThresholdCount(sorted, threshold)
  {
  }

  /** A prefix at least as long as the threshold count holds at least the
      threshold share (for a threshold of at most one). */
  lemma PrefixMeetsThreshold(sorted: seq<Term>, threshold: real, count: nat)
    requires |sorted| > 0 && SumEnergy(sorted) > 0.0 && threshold <= 1.0
    requires ThresholdCount(sorted, threshold) <= count <= |sorted|
    ensures Ratio(SumEnergy(sorted[..count]), SumEnergy(sorted)).value >= threshold
  {
    var raw := ThresholdCount(sorted, threshold);
    var total := SumEnergy(sorted);
    PrefixEnergyBound(sorted, count);
    if Reaches(sorted, threshold, raw) {
      PrefixEnergyMonotone(sorted, raw, count);
      RatioMonotone(SumEnergy(sorted[..raw]), SumEnergy(sorted[..count]), total);
    } else {
      assert sorted[..count] == sorted;
      RatioOfWhole(total);
    }
  }

  /** Unless the maximum cut it short, the kept prefix holds at least the
      threshold share of the energy (for a threshold of at most one). */
  lemma RetainedEnergyMeetsThreshold(coeffs: seq<Term>, lim: Limits)
    requires |coeffs| > 0
    requires Admissible(lim, |coeffs|)
    requires SumEnergy(coeffs) > 0.0 && lim.energyThreshold <= 1.0
    requires ThresholdCount(SortByEnergy(coeffs), lim.energyThreshold) <= lim.maxEpicycles
    ensures Select(coeffs, lim).ratio.value >= lim.energyThreshold
  {
    var sorted := SortByEnergy(coeffs);
    var sel := Select(coeffs, lim);
    var kept := Ratio(SumEnergy(sorted[..sel.count]), SumEnergy(sorted));
    assert sel.ratio == kept by {
      SortKeepsEnergy(coeffs);
    }
    assert kept.value >= lim.energyThreshold by {
      SortKeepsEnergy(coeffs);
      PrefixMeetsThreshold(sorted, lim.energyThreshold, sel.count);
    }
  }

  lemma ReachesMonotone(sorted: seq<Term>, lower: real, higher: real, i: nat)
    requires lower <= higher && i <= |sorted|
    ensures Reaches(sorted, higher, i) ==> Reaches(sorted, lower, i)
  {
  }

  /** On a fixed sorted spectrum, a higher threshold never gives a smaller
      threshold count. */
  lemma ThresholdCountMonotone(sorted: seq<Term>, lower: real, higher: real)
    requires |sorted| > 0 && lower <= higher
    ensures ThresholdCount(sorted, lower) <= ThresholdCount(sorted, higher)
  {
    var k2 := ThresholdCount(sorted, higher);
    ReachesMonotone(sorted, lower, higher, k2);
  }

  /** Raising the energy threshold, with everything else fixed, never lowers
      the number of selected terms nor the retained share of the energy. */
  lemma ThresholdMonotone(coeffs: seq<Term>, lim: Limits, higher: real)
    requires |coeffs| > 0
    requires Admissible(lim, |coeffs|)
    requires lim.energyThreshold <= higher
    ensures Select(coeffs, lim).count <= Select(coeffs, lim.(energyThreshold := higher)).count
    ensures Select(coeffs, lim).ratio.Finite? ==>
              Select(coeffs, lim).ratio.value
              <= Select(coeffs, lim.(energyThreshold := higher)).ratio.value
  {
    var s1, s2 := Select(coeffs, lim), Select(coeffs, lim.(energyThreshold := higher));
    ThresholdCountMonotone(SortByEnergy(coeffs), lim.energyThreshold, higher);
    assert s1.count <= s2.count;
    if s1.ratio.Finite? {
      PrefixGrows(SortByEnergy(coeffs), s1.count, s2.count);
      RatioMonotone(SumEnergy(s1.terms), SumEnergy(s2.terms), SumEnergy(coeffs));
    }
  }

  lemma PrefixGrows(s: seq<Term>, i: nat, j: nat)
    requires i <= j <= |s|
    ensures SumEnergy(s[..i]) <= SumEnergy(s[..j]) <= SumEnergy(s)
  {
    PrefixEnergyMonotone(s, i, j);
    PrefixEnergyBound(s, j);
  }

  /** `total_energy`: the total energy, summed by a loop. */
  method TotalEnergy(sorted: seq<Term>) returns (total: real)
    ensures total == SumEnergy(sorted)
  {
    total := 0.0;
    var k := 0;
    while k < |sorted|
      invariant 0 <= k <= |sorted|
      invariant total == SumEnergy(sorted[..k])
    {
      assert sorted[..k + 1][..k] == sorted[..k];
      total := total + TermEnergy(sorted[k]);
      k := k + 1;
    }
    assert sorted[..k] == sorted;
  }

  /** `final_energy`: the energy of the first `count` sorted terms. */
  method PrefixEnergy(sorted: seq<Term>, count: nat) returns (energy: real)
    requires count <= |sorted|
    ensures energy == SumEnergy(sorted[..count])
  {
    energy := 0.0;
    var k := 0;
    while k < count
      invariant 0 <= k <= count
      invariant energy == SumEnergy(sorted[..k])
    {
      assert sorted[..k + 1][..k] == sorted[..k];
      energy := energy + TermEnergy(sorted[k]);
      k := k + 1;
    }
  }

  /** The `for` loop over `enumerate(sorted_items, 1)`: accumulate until the
      ratio reaches the threshold and stop there; a scan that never stops
      yields every term. */
  method ScanThreshold(sorted: seq<Term>, total: real, threshold: real) returns (optimal: nat)
    requires |sorted| > 0 && total == SumEnergy(sorted)
    ensures 1 <= optimal <= |sorted|
    ensures forall j :: 1 <= j < optimal ==> !Reaches(sorted, threshold, j)
    ensures Reaches(sorted, threshold, optimal) || optimal == |sorted|
  {
    var n := |sorted|;
    var cumulative := 0.0;
    optimal := 0;
    var i := 0;
    while i < n && optimal == 0
      invariant 0 <= i <= n
      invariant cumulative == SumEnergy(sorted[..i])
      invariant forall j :: 1 <= j < i ==> !Reaches(sorted, threshold, j)
      invariant optimal == 0 ==> i == 0 || !Reaches(sorted, threshold, i)
      invariant optimal != 0 ==> optimal == i && Reaches(sorted, threshold, i)
    {
      assert sorted[..i + 1][..i] == sorted[..i];
      cumulative := cumulative + TermEnergy(sorted[i]);
      i := i + 1;
      PrefixEnergyBound(sorted, i);
      if total > 0.0 && cumulative / total >= threshold {
        optimal := i;
      }
    }
    if optimal == 0 {
      optimal := n;
    }
  }

  /** `find_optimal_epicycles` step by step: sort, total, threshold scan,
      clamp, retained energy and ratio. */
  method FindOptimalEpicycles(coeffs: seq<Term>, lim: Limits)
    returns (count: nat, selected: seq<Term>, ratio: EnergyRatio)
    requires |coeffs| > 0
    requires Admissible(lim, |coeffs|)
    ensures Selection(count, selected, ratio) == Select(coeffs, lim)
  {
    var sorted := SortByEnergy(coeffs);
    var total := TotalEnergy(sorted);
    var optimal := ScanThreshold(sorted, total, lim.energyThreshold);
    ThresholdCountUnique(sorted, lim.energyThreshold, optimal);
    var capped := if optimal <= lim.maxEpicycles then optimal else lim.maxEpicycles;
    count := if lim.minEpicycles >= capped then lim.minEpicycles else capped;
    var finalEnergy := PrefixEnergy(sorted, count);
    PrefixEnergyBound(sorted, count);
    ratio := if total == 0.0 then NotANumber else Finite(finalEnergy / total);
    selected := sorted[..count];
  }

  /** Under the configured limits, a transform of at least 100 samples keeps
      between 100 and 2000 terms, and exactly 100 whenever fewer already reach
      99.9% of the energy; with a positive total energy it reaches that share
      whenever the threshold count is within the maximum. */
  lemma ConfiguredSelection(coeffs: seq<Term>)
    requires 100 <= |coeffs|
    ensures var sel := Select(coeffs, ConfiguredLimits);
            && 100 <= sel.count <= 2000
            && (ThresholdCount(SortByEnergy(coeffs), 0.999) <= 100 ==> sel.count == 100)
            && (SumEnergy(coeffs) > 0.0 && ThresholdCount(SortByEnergy(coeffs), 0.999) <= 2000 ==>
                  sel.ratio.value >= 0.999)
  {
    if SumEnergy(coeffs) > 0.0 && ThresholdCount(SortByEnergy(coeffs), 0.999) <= 2000 {
      RetainedEnergyMeetsThreshold(coeffs, ConfiguredLimits);
    }
  }
}
