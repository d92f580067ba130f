/** The coefficient dictionary built by `compute_fourier_coefficients`: FFT bin
    `i` of an `n`-point signal becomes the entry `signed harmonic -> value / n`.
    The transform values themselves are an input of this model (the FFT is
    floating-point numerics and is not modelled). */
module Spectrum {
  import opened Geometry

  /** One term of the decomposition: its signed harmonic and complex coefficient. */
  datatype Term = Term(freq: int, coeff: Point)

  /** The lowest and highest harmonic an `n`-point transform produces. */
  function LowestFrequency(n: nat): int {
    -(n / 2)
  }

  function HighestFrequency(n: nat): int {
    (n - 1) / 2
  }

  /** The harmonic of bin `i`, as `fftfreq(n, d=1/n)` cast to int: the
      representative of `i` modulo `n` that lies in the window of harmonics. */
  function SignedFrequency(n: nat, i: nat): (f: int)
    requires i < n
    ensures LowestFrequency(n) <= f <= HighestFrequency(n)
    ensures f == i || f == i - n
  {
    if i <= (n - 1) / 2 then i else i - n
  }

  /** The bin that holds harmonic `f`: the inverse of `SignedFrequency`. */
  function BinOf(n: nat, f: int): (i: nat)
    requires LowestFrequency(n) <= f <= HighestFrequency(n)
    ensures i < n
    ensures i == f || i == f + n
  {
    if f >= 0 then f else f + n
  }

  lemma BinOfSignedFrequency(n: nat, i: nat)
    requires i < n
    ensures BinOf(n, SignedFrequency(n, i)) == i
  {
  }

  lemma SignedFrequencyOfBin(n: nat, f: int)
    requires LowestFrequency(n) <= f <= HighestFrequency(n)
    ensures SignedFrequency(n, BinOf(n, f)) == f
  {
  }

  /** Distinct bins never share a harmonic, so the dictionary has no key collision. */
  lemma SignedFrequencyInjective(n: nat, i: nat, j: nat)
    requires i < n && j < n
    requires SignedFrequency(n, i) == SignedFrequency(n, j)
    ensures i == j
  {
    BinOfSignedFrequency(n, i);
    BinOfSignedFrequency(n, j);
  }

  predicate DistinctFrequencies(ts: seq<Term>) {
    forall i, j :: 0 <= i < j < |ts| ==> ts[i].freq != ts[j].freq
  }

  /** The items of the coefficient dictionary in iteration (= insertion = bin)
      order. `fft` holds the raw transform values, one per sample. */
  function Coefficients(fft: seq<Point>): (ts: seq<Term>)
    ensures |ts| == |fft|
    ensures forall i :: 0 <= i < |ts| ==> ts[i].freq == SignedFrequency(|fft|, i)
    ensures DistinctFrequencies(ts)
    ensures forall i :: 0 <= i < |ts| ==>
              LowestFrequency(|fft|) <= ts[i].freq <= HighestFrequency(|fft|)
    ensures forall i :: 0 <= i < |ts| ==> Scale(ts[i].coeff, |fft| as real) == fft[i]
  {
    var n := |fft|;
    var ts := seq(n, i requires 0 <= i < n => Term(SignedFrequency(n, i), Scale(fft[i], 1.0 / n as real)));
    forall i, j | 0 <= i < j < n
      ensures ts[i].freq != ts[j].freq
    {
      if ts[i].freq == ts[j].freq {
        SignedFrequencyInjective(n, i, j);
      }
    }
    forall i | 0 <= i < n
      ensures Scale(ts[i].coeff, n as real) == fft[i]
    {
      ScaleInverse(fft[i], n as real);
    }
    ts
  }

  /** Item `i` is the last of `items` with its key. */
  predicate LastWithKey(items: seq<Term>, i: nat)
    requires i < |items|
  {
    forall j :: i < j < |items| ==> items[j].freq != items[i].freq
  }

  /** A dictionary built by inserting `items` in order, as a Python dict
      comprehension does: every key maps to the value inserted last with it. */
  function Dict(items: seq<Term>): (d: map<int, Point>)
    ensures forall i :: 0 <= i < |items| && LastWithKey(items, i) ==>
              items[i].freq in d && d[items[i].freq] == items[i].coeff
    decreases |items|
  {
    if |items| == 0 then map[]
    else
      var n := |items|;
      var init, last := items[..n - 1], items[n - 1];
      assert forall i :: 0 <= i < n - 1 && LastWithKey(items, i) ==>
               LastWithKey(init, i) && init[i] == items[i] && items[i].freq != last.freq by {
        forall i | 0 <= i < n - 1 && LastWithKey(items, i)
          ensures LastWithKey(init, i) && init[i] == items[i] && items[i].freq != last.freq
        {
          assert forall j :: i < j < n - 1 ==> init[j] == items[j];
        }
      }
      Dict(init)[last.freq := last.coeff]
  }

  function Keys(items: seq<Term>): set<int> {
    set i | 0 <= i < |items| :: items[i].freq
  }

  lemma KeysOfSnoc(items: seq<Term>)
    requires |items| > 0
    ensures Keys(items) == Keys(items[..|items| - 1]) + {items[|items| - 1].freq}
  {
    var n := |items|;
    var init := items[..n - 1];
    forall f | f in Keys(items)
      ensures f in Keys(init) + {items[n - 1].freq}
    {
      var i :| 0 <= i < n && items[i].freq == f;
      if i < n - 1 {
        assert init[i].freq == f;
      }
    }
    forall f | f in Keys(init)
      ensures f in Keys(items)
    {
      var i :| 0 <= i < n - 1 && init[i].freq == f;
      assert items[i].freq == f;
    }
  }

  lemma DistinctInit(items: seq<Term>)
    requires |items| > 0 && DistinctFrequencies(items)
    ensures DistinctFrequencies(items[..|items| - 1])
    ensures items[|items| - 1].freq !in Keys(items[..|items| - 1])
  {
    var n := |items|;
    var init := items[..n - 1];
    forall i, j | 0 <= i < j < n - 1
      ensures init[i].freq != init[j].freq
    {
      assert init[i] == items[i] && init[j] == items[j];
    }
  }

  lemma {:induction false} DictKeys(items: seq<Term>)
    ensures Dict(items).Keys == Keys(items)
    decreases |items|
  {
    if |items| > 0 {
      DictKeys(items[..|items| - 1]);
      KeysOfSnoc(items);
    }
  }

  /** Without repeated keys the dictionary has one entry per item, and each
      item's key maps to that item's coefficient. */
  lemma {:induction false} DictOfDistinctKeys(items: seq<Term>)
    requires DistinctFrequencies(items)
    ensures |Dict(items)| == |items|
    ensures forall i :: 0 <= i < |items| ==>
              items[i].freq in Dict(items) && Dict(items)[items[i].freq] == items[i].coeff
    decreases |items|
  {
    DictKeys(items);
    if |items| > 0 {
      var n := |items|;
      var init := items[..n - 1];
      var last := items[n - 1];
      DistinctInit(items);
      DictOfDistinctKeys(init);
      DictKeys(init);
      var m := Dict(init);
      assert Dict(items) == m[last.freq := last.coeff];
      assert |Dict(items)| == |items| by {
        assert last.freq !in m;
      }
      forall i | 0 <= i < n
        ensures items[i].freq in Dict(items) && Dict(items)[items[i].freq] == items[i].coeff
      {
        if i < n - 1 {
          assert init[i] == items[i];
          assert items[i].freq != last.freq;
        }
      }
    }
  }

  /** `compute_fourier_coefficients`: one entry per bin, keyed by the bin's
      harmonic and holding the bin's value divided by `n`. */
  function CoefficientDict(fft: seq<Point>): (d: map<int, Point>)
    ensures |d| == |fft|
    ensures forall i :: 0 <= i < |fft| ==>
              SignedFrequency(|fft|, i) in d && Scale(d[SignedFrequency(|fft|, i)], |fft| as real) == fft[i]
  {
    var ts := Coefficients(fft);
    DictOfDistinctKeys(ts);
    Dict(ts)
  }

  /** The dictionary built from an `n`-point transform has exactly `n`
      entries, keyed by every harmonic of the window; the entry for harmonic
      `f` is the value of bin `BinOf(n, f)` divided by `n`. */
  lemma CoefficientDictionary(fft: seq<Point>)
    ensures |CoefficientDict(fft)| == |fft|
    ensures forall f :: f in CoefficientDict(fft) <==>
              LowestFrequency(|fft|) <= f <= HighestFrequency(|fft|)
    ensures forall f :: f in CoefficientDict(fft) ==>
              Scale(CoefficientDict(fft)[f], |fft| as real) == fft[BinOf(|fft|, f)]
  {
    var n := |fft|;
    var ts := Coefficients(fft);
    DictOfDistinctKeys(ts);
    DictKeys(ts);
    forall f | LowestFrequency(n) <= f <= HighestFrequency(n)
      ensures f in Keys(ts)
    {
      SignedFrequencyOfBin(n, f);
      assert ts[BinOf(n, f)].freq == f;
    }
    forall f | f in Keys(ts)
      ensures LowestFrequency(n) <= f <= HighestFrequency(n)
      ensures Scale(Dict(ts)[f], n as real) == fft[BinOf(n, f)]
    {
      var i :| 0 <= i < n && ts[i].freq == f;
      BinOfSignedFrequency(n, i);
    }
  }
}
