/** `connect_contours_tsp`: greedy ordering of several sampled contours into
    one path. Starting at the first point of the first contour, the scan takes
    the remaining contour whose start or end is nearest to the current
    position (reversing it when its end is nearer), appends it, moves to its
    last point and drops it, together with every copy of it or of its
    reversal, from the remaining list.

    The distance is a parameter: the scan only compares distances, and the
    properties below hold for any distance, in particular for the Euclidean
    norm the source uses and for its square. */
module ContourOrder {
  import opened Geometry

  /** `dist(p, q)` stands for `np.linalg.norm(p - q)`. */
  type Distance = (Point, Point) -> real

  /** What the scan needs of a distance: it is never negative and vanishes
      between a point and itself. */
  ghost predicate IsDistance(dist: Distance) {
    && (forall p, q :: dist(p, q) >= 0.0)
    && (forall p :: dist(p, p) == 0.0)
  }

  /** A sampled contour: a non-empty sequence of points, walked in order. */
  type Contour = seq<Point>

  predicate NonEmptyContours(cs: seq<Contour>) {
    forall c :: c in cs ==> |c| > 0
  }

  /** `c[::-1]`: the same points, walked from the last to the first. */
  function Reverse(c: Contour): (r: Contour)
    ensures |r| == |c|
    ensures forall i :: 0 <= i < |c| ==> r[i] == c[|c| - 1 - i]
    ensures forall p :: p in r <==> p in c
  {
    var r := seq(|c|, i requires 0 <= i < |c| => c[|c| - 1 - i]);
    assert forall p :: p in c ==> p in r by {
      forall p | p in c
        ensures p in r
      {
        var i :| 0 <= i < |c| && c[i] == p;
        assert r[|c| - 1 - i] == p;
      }
    }
    r
  }

  lemma ReverseReverse(c: Contour)
    ensures Reverse(Reverse(c)) == c
  {
    var r := Reverse(c);
    var rr := Reverse(r);
    forall i | 0 <= i < |c|
      ensures rr[i] == c[i]
    {
      assert rr[i] == r[|c| - 1 - i];
    }
  }

  /** Whether `c` is `b` in either direction, the test by which
      `connect_contours_tsp` drops contours from `remaining`. */
  predicate SameUpToReversal(c: Contour, b: Contour) {
    c == b || c == Reverse(b)
  }

  /** No two contours of `cs` are equal, in either direction. */
  predicate DistinctUpToReversal(cs: seq<Contour>) {
    forall i, j :: 0 <= i < j < |cs| ==> !SameUpToReversal(cs[i], cs[j])
  }

  /** A candidate of the scan: the start (`atEnd == false`) or the end of
      contour `index`. The scan looks at the start of contour 0, then its
      end, then the start of contour 1, and so on. */
  datatype Candidate = Candidate(index: nat, atEnd: bool)

  /** The scan looks at `c` strictly before `d`. */
  predicate Before(c: Candidate, d: Candidate) {
    c.index < d.index || (c.index == d.index && !c.atEnd && d.atEnd)
  }

  function EndpointOf(cs: seq<Contour>, c: Candidate): Point
    requires NonEmptyContours(cs) && c.index < |cs|
  {
    var con := cs[c.index];
    if c.atEnd then con[|con| - 1] else con[0]
  }

  function CandidateDist(cs: seq<Contour>, dist: Distance, cur: Point, c: Candidate): real
    requires NonEmptyContours(cs) && c.index < |cs|
  {
    dist(cur, EndpointOf(cs, c))
  }

  /** One `if dist < best_dist` update of the scan: the result is one of the
      two candidates, no farther than either, and a tie keeps the best so far,
      so only a strictly nearer candidate replaces it. */
  function Consider(cs: seq<Contour>, dist: Distance, cur: Point, best: Candidate, c: Candidate): (r: Candidate)
    requires NonEmptyContours(cs) && best.index < |cs| && c.index < |cs|
    ensures r == best || r == c
    ensures CandidateDist(cs, dist, cur, r) <= CandidateDist(cs, dist, cur, best)
    ensures CandidateDist(cs, dist, cur, r) <= CandidateDist(cs, dist, cur, c)
    ensures CandidateDist(cs, dist, cur, best) <= CandidateDist(cs, dist, cur, c) ==> r == best
  {
    if CandidateDist(cs, dist, cur, c) < CandidateDist(cs, dist, cur, best) then c else best
  }

  /** The winner of the scan over the first `k` contours: a nearest
      candidate, and among the nearest the one the scan looks at first. */
  function Nearest(cs: seq<Contour>, dist: Distance, cur: Point, k: nat): (r: Candidate)
    requires NonEmptyContours(cs) && 0 < k <= |cs|
    ensures r.index < k
    ensures forall c: Candidate :: c.index < k ==>
              CandidateDist(cs, dist, cur, r) <= CandidateDist(cs, dist, cur, c)
    ensures forall c: Candidate :: Before(c, r) ==>
              CandidateDist(cs, dist, cur, r) < CandidateDist(cs, dist, cur, c)
    decreases k
  {
    var start := Candidate(k - 1, false);
    var afterStart := if k == 1 then start else Consider(cs, dist, cur, Nearest(cs, dist, cur, k - 1), start);
    Consider(cs, dist, cur, afterStart, Candidate(k - 1, true))
  }

  /** The contour a candidate selects, turned so that it begins at that
      candidate. */
  function Oriented(cs: seq<Contour>, c: Candidate): (b: Contour)
    requires NonEmptyContours(cs) && c.index < |cs|
    ensures |b| > 0
    ensures SameUpToReversal(cs[c.index], b)
    ensures b[0] == EndpointOf(cs, c)
  {
    ReverseReverse(cs[c.index]);
    if c.atEnd then Reverse(cs[c.index]) else cs[c.index]
  }

  /** The contour the scan appends next: a remaining contour, forwards or
      reversed. */
  function Choice(rem: seq<Contour>, dist: Distance, cur: Point): (b: Contour)
    requires |rem| > 0 && NonEmptyContours(rem)
    ensures |b| > 0
    ensures b in rem || Reverse(b) in rem
  {
    Oriented(rem, Nearest(rem, dist, cur, |rem|))
  }

  /** The appended contour starts at an endpoint no farther from the current
      position than either endpoint of any remaining contour. */
  lemma ChoiceIsNearest(rem: seq<Contour>, dist: Distance, cur: Point)
    requires |rem| > 0 && NonEmptyContours(rem)
    ensures forall c :: c in rem ==>
              dist(cur, Choice(rem, dist, cur)[0]) <= dist(cur, c[0]) &&
              dist(cur, Choice(rem, dist, cur)[0]) <= dist(cur, c[|c| - 1])
  {
    var r := Nearest(rem, dist, cur, |rem|);
    var best := CandidateDist(rem, dist, cur, r);
    assert best == dist(cur, Choice(rem, dist, cur)[0]);
    forall c | c in rem
      ensures best <= dist(cur, c[0]) && best <= dist(cur, c[|c| - 1])
    {
      var i :| 0 <= i < |rem| && rem[i] == c;
      assert best <= CandidateDist(rem, dist, cur, Candidate(i, false));
      assert best <= CandidateDist(rem, dist, cur, Candidate(i, true));
    }
  }

  /** Ties between contours go to the one listed first: every contour
      before the chosen one has both endpoints strictly farther. */
  lemma ChoicePrefersEarlier(rem: seq<Contour>, dist: Distance, cur: Point)
    requires |rem| > 0 && NonEmptyContours(rem)
    ensures forall i :: 0 <= i < Nearest(rem, dist, cur, |rem|).index ==>
              dist(cur, Choice(rem, dist, cur)[0]) < dist(cur, rem[i][0]) &&
              dist(cur, Choice(rem, dist, cur)[0]) < dist(cur, rem[i][|rem[i]| - 1])
  {
    var r := Nearest(rem, dist, cur, |rem|);
    var best := CandidateDist(rem, dist, cur, r);
    assert best == dist(cur, Choice(rem, dist, cur)[0]);
    forall i | 0 <= i < r.index
      ensures best < dist(cur, rem[i][0]) && best < dist(cur, rem[i][|rem[i]| - 1])
    {
      assert best < CandidateDist(rem, dist, cur, Candidate(i, false));
      assert best < CandidateDist(rem, dist, cur, Candidate(i, true));
    }
  }

  /** A tie between the two ends of the chosen contour goes to its start:
      the contour is reversed only when its end is strictly nearer. */
  lemma ChoicePrefersForward(rem: seq<Contour>, dist: Distance, cur: Point)
    requires |rem| > 0 && NonEmptyContours(rem)
    ensures var j := Nearest(rem, dist, cur, |rem|).index;
            dist(cur, rem[j][0]) <= dist(cur, rem[j][|rem[j]| - 1]) ==> Choice(rem, dist, cur) == rem[j]
  {
    var r := Nearest(rem, dist, cur, |rem|);
    if r.atEnd {
      assert CandidateDist(rem, dist, cur, r) < CandidateDist(rem, dist, cur, Candidate(r.index, false));
    }
  }

  /** The `remaining` list comprehension: the remaining contours other than
      `b` and its reversal. */
  function Without(rem: seq<Contour>, b: Contour): (r: seq<Contour>)
    ensures |r| <= |rem|
    ensures forall c :: c in r <==> c in rem && !SameUpToReversal(c, b)
  {
    if |rem| == 0 then []
    else (if SameUpToReversal(rem[0], b) then [] else [rem[0]]) + Without(rem[1..], b)
  }

  /** The filter works contour by contour: filtering a concatenation filters
      each part and keeps the kept contours in their order, with their copies. */
  lemma {:induction false} WithoutConcat(a: seq<Contour>, c: seq<Contour>, b: Contour)
    ensures Without(a + c, b) == Without(a, b) + Without(c, b)
    decreases |a|
  {
    if |a| == 0 {
      assert a + c == c;
    } else {
      assert (a + c)[0] == a[0];
      assert (a + c)[1..] == a[1..] + c;
      WithoutConcat(a[1..], c, b);
    }
  }

  /** A single contour is kept exactly when it is not `b` in either direction. */
  lemma WithoutSingle(c: Contour, b: Contour)
    ensures SameUpToReversal(c, b) ==> Without([c], b) == []
    ensures !SameUpToReversal(c, b) ==> Without([c], b) == [c]
  {
  }

  lemma {:induction false} WithoutShrinks(rem: seq<Contour>, b: Contour, j: nat)
    requires j < |rem| && SameUpToReversal(rem[j], b)
    ensures |Without(rem, b)| < |rem|
    decreases j
  {
    if j > 0 {
      WithoutShrinks(rem[1..], b, j - 1);
    }
  }

  /** When nothing in `rem` is `b` in either direction, nothing is dropped. */
  lemma {:induction false} WithoutNothing(rem: seq<Contour>, b: Contour)
    requires forall c :: c in rem ==> !SameUpToReversal(c, b)
    ensures Without(rem, b) == rem
    decreases |rem|
  {
    if |rem| > 0 {
      WithoutNothing(rem[1..], b);
    }
  }

  /** In a list without repeats, exactly the one matching contour is dropped. */
  lemma {:induction false} WithoutRemovesOne(rem: seq<Contour>, b: Contour, j: nat)
    requires DistinctUpToReversal(rem)
    requires j < |rem| && SameUpToReversal(rem[j], b)
    ensures |Without(rem, b)| == |rem| - 1
    decreases j
  {
    var rest := rem[1..];
    assert DistinctUpToReversal(rest) by {
      forall i, k | 0 <= i < k < |rest|
        ensures !SameUpToReversal(rest[i], rest[k])
      {
        assert rest[i] == rem[i + 1] && rest[k] == rem[k + 1];
      }
    }
    if j == 0 {
      forall c | c in rest
        ensures !SameUpToReversal(c, b)
      {
        var k :| 0 <= k < |rest| && rest[k] == c;
        assert !SameUpToReversal(rem[0], rem[k + 1]);
        ReverseReverse(b);
        ReverseReverse(c);
      }
      WithoutNothing(rest, b);
    } else {
      assert !SameUpToReversal(rem[0], rem[j]);
      assert !SameUpToReversal(rem[0], b) by {
        ReverseReverse(b);
        ReverseReverse(rem[0]);
        ReverseReverse(rem[j]);
      }
      WithoutRemovesOne(rest, b, j - 1);
    }
  }

  /** A contour matching none of a repeat-free list can go in front of it. */
  lemma ConsDistinct(b: Contour, rest: seq<Contour>)
    requires DistinctUpToReversal(rest)
    requires forall c :: c in rest ==> !SameUpToReversal(b, c)
    ensures DistinctUpToReversal([b] + rest)
  {
    var r := [b] + rest;
    forall i, k | 0 <= i < k < |r|
      ensures !SameUpToReversal(r[i], r[k])
    {
      if i == 0 {
        assert r[k] in rest;
      } else {
        assert r[i] == rest[i - 1] && r[k] == rest[k - 1];
      }
    }
  }

  /** Dropping contours keeps a list free of repeats. */
  lemma {:induction false} WithoutKeepsDistinct(rem: seq<Contour>, b: Contour)
    requires DistinctUpToReversal(rem)
    ensures DistinctUpToReversal(Without(rem, b))
    decreases |rem|
  {
    if |rem| > 0 {
      var rest := rem[1..];
      assert DistinctUpToReversal(rest) by {
        forall i, k | 0 <= i < k < |rest|
          ensures !SameUpToReversal(rest[i], rest[k])
        {
          assert rest[i] == rem[i + 1] && rest[k] == rem[k + 1];
        }
      }
      WithoutKeepsDistinct(rest, b);
      var w := Without(rest, b);
      if !SameUpToReversal(rem[0], b) {
        forall c | c in w
          ensures !SameUpToReversal(rem[0], c)
        {
          var k :| 0 <= k < |rest| && rest[k] == c;
          assert rem[k + 1] == c;
        }
        ConsDistinct(rem[0], w);
      }
    }
  }

  /** The greedy tour from `cur` through the contours `rem`, one oriented
      contour per step. */
  function Order(rem: seq<Contour>, dist: Distance, cur: Point): (out: seq<Contour>)
    requires NonEmptyContours(rem)
    ensures |out| <= |rem|
    ensures NonEmptyContours(out)
    ensures |rem| > 0 ==> |out| > 0 && out[0] == Choice(rem, dist, cur)
    decreases |rem|
  {
    if |rem| == 0 then []
    else
      var b := Choice(rem, dist, cur);
      WithoutShrinks(rem, b, Nearest(rem, dist, cur, |rem|).index);
      [b] + Order(Without(rem, b), dist, b[|b| - 1])
  }

  /** Every contour of the tour is an input contour, possibly reversed. */
  lemma {:induction false} OrderUsesInputs(rem: seq<Contour>, dist: Distance, cur: Point)
    requires NonEmptyContours(rem)
    ensures forall c :: c in Order(rem, dist, cur) ==> c in rem || Reverse(c) in rem
    decreases |rem|
  {
    if |rem| > 0 {
      var b := Choice(rem, dist, cur);
      var w := Without(rem, b);
      var j := Nearest(rem, dist, cur, |rem|).index;
      WithoutShrinks(rem, b, j);
      OrderUsesInputs(w, dist, b[|b| - 1]);
      ReverseReverse(b);
      assert rem[j] == b || rem[j] == Reverse(b);
    }
  }

  /** Every input contour appears in the tour, forward or reversed. */
  lemma {:induction false} OrderCoversInputs(rem: seq<Contour>, dist: Distance, cur: Point)
    requires NonEmptyContours(rem)
    ensures forall c :: c in rem ==> c in Order(rem, dist, cur) || Reverse(c) in Order(rem, dist, cur)
    decreases |rem|
  {
    if |rem| > 0 {
      var b := Choice(rem, dist, cur);
      var w := Without(rem, b);
      WithoutShrinks(rem, b, Nearest(rem, dist, cur, |rem|).index);
      OrderCoversInputs(w, dist, b[|b| - 1]);
      ReverseReverse(b);
    }
  }

  /** No contour is visited twice, in either direction. */
  lemma {:induction false} OrderIsDistinct(rem: seq<Contour>, dist: Distance, cur: Point)
    requires NonEmptyContours(rem)
    ensures DistinctUpToReversal(Order(rem, dist, cur))
    decreases |rem|
  {
    if |rem| > 0 {
      var b := Choice(rem, dist, cur);
      var w := Without(rem, b);
      WithoutShrinks(rem, b, Nearest(rem, dist, cur, |rem|).index);
      var rest := Order(w, dist, b[|b| - 1]);
      OrderIsDistinct(w, dist, b[|b| - 1]);
      OrderUsesInputs(w, dist, b[|b| - 1]);
      forall c | c in rest
        ensures !SameUpToReversal(b, c)
      {
        ReverseReverse(b);
        ReverseReverse(c);
      }
      ConsDistinct(b, rest);
    }
  }

  /** Without repeated contours the tour visits every input exactly once. */
  lemma {:induction false} OrderIsComplete(rem: seq<Contour>, dist: Distance, cur: Point)
    requires NonEmptyContours(rem)
    requires DistinctUpToReversal(rem)
    ensures |Order(rem, dist, cur)| == |rem|
    decreases |rem|
  {
    if |rem| > 0 {
      var b := Choice(rem, dist, cur);
      WithoutRemovesOne(rem, b, Nearest(rem, dist, cur, |rem|).index);
      WithoutKeepsDistinct(rem, b);
      OrderIsComplete(Without(rem, b), dist, b[|b| - 1]);
    }
  }

  /** `np.concatenate`: the contours' points, one contour after another. */
  function Concat(cs: seq<Contour>): (ps: seq<Point>)
    ensures |cs| > 0 ==> |cs[0]| <= |ps| && ps[..|cs[0]|] == cs[0]
    decreases |cs|
  {
    if |cs| == 0 then [] else cs[0] + Concat(cs[1..])
  }

  /** A point lies on the concatenation iff it lies on one of the contours. */
  lemma {:induction false} ConcatPoints(cs: seq<Contour>, p: Point)
    ensures p in Concat(cs) <==> exists c :: c in cs && p in c
    decreases |cs|
  {
    if |cs| > 0 {
      ConcatPoints(cs[1..], p);
      if p in Concat(cs[1..]) {
        var c :| c in cs[1..] && p in c;
        assert c in cs;
      }
      if exists c :: c in cs && p in c {
        var c :| c in cs && p in c;
        if c != cs[0] {
          var i :| 0 <= i < |cs| && cs[i] == c;
          assert cs[1..][i - 1] == c;
        }
      }
    }
  }

  /** The path of several contours: the greedy tour from the first point of
      the first contour, flattened. It begins with the whole contour chosen
      first from that point. */
  function ConnectContours(contours: seq<Contour>, dist: Distance): (ps: seq<Point>)
    requires |contours| > 0 && NonEmptyContours(contours)
    ensures |ps| > 0
    ensures var first := Choice(contours, dist, contours[0][0]);
            |first| <= |ps| && ps[..|first|] == first
  {
    var out := Order(contours, dist, contours[0][0]);
    assert out[0] in out;
    Concat(out)
  }

  /** The first choice from the first point of the first contour is that
      contour, forward: its start is at distance zero and nothing is
      strictly nearer. */
  lemma FirstChoiceIsFirstContour(contours: seq<Contour>, dist: Distance)
    requires |contours| > 0 && NonEmptyContours(contours)
    requires IsDistance(dist)
    ensures Choice(contours, dist, contours[0][0]) == contours[0]
  {
    var cur := contours[0][0];
    var r := Nearest(contours, dist, cur, |contours|);
    var first := Candidate(0, false);
    assert CandidateDist(contours, dist, cur, first) == 0.0;
    assert CandidateDist(contours, dist, cur, r) >= 0.0;
    assert !Before(first, r);
    assert r == first;
  }

  /** The tour begins with the first contour, walked forward. */
  lemma TourStartsWithFirstContour(contours: seq<Contour>, dist: Distance)
    requires |contours| > 0 && NonEmptyContours(contours)
    requires IsDistance(dist)
    ensures Order(contours, dist, contours[0][0])[0] == contours[0]
    ensures |contours[0]| <= |ConnectContours(contours, dist)|
    ensures ConnectContours(contours, dist)[..|contours[0]|] == contours[0]
  {
    FirstChoiceIsFirstContour(contours, dist);
  }

  /** The joined path passes through exactly the points of the input
      contours: no point is lost and none is invented. */
  lemma TourVisitsExactlyInputPoints(contours: seq<Contour>, dist: Distance, p: Point)
    requires |contours| > 0 && NonEmptyContours(contours)
    ensures p in ConnectContours(contours, dist) <==> exists c :: c in contours && p in c
  {
    var out := Order(contours, dist, contours[0][0]);
    ConcatPoints(out, p);
    OrderUsesInputs(contours, dist, contours[0][0]);
    OrderCoversInputs(contours, dist, contours[0][0]);
    if p in Concat(out) {
      var c :| c in out && p in c;
      if c !in contours {
        assert Reverse(c) in contours && p in Reverse(c);
      }
    }
    if exists c :: c in contours && p in c {
      var c :| c in contours && p in c;
      if c !in out {
        assert Reverse(c) in out && p in Reverse(c);
      }
    }
  }

  lemma NearestUnfold(cs: seq<Contour>, dist: Distance, cur: Point, k: nat)
    requires NonEmptyContours(cs) && 0 < k <= |cs|
    ensures var start := Candidate(k - 1, false);
            Nearest(cs, dist, cur, k) ==
            Consider(cs, dist, cur,
                     if k == 1 then start else Consider(cs, dist, cur, Nearest(cs, dist, cur, k - 1), start),
                     Candidate(k - 1, true))
  {
  }

  /** One `if dist < best_dist` update of the scan, for the endpoint that
      candidate `c` names. */
  method Update(rem: seq<Contour>, dist: Distance, cur: Point,
                bestDist: real, best: Candidate, c: Candidate)
    returns (newDist: real, newBest: Candidate)
    requires NonEmptyContours(rem) && best.index < |rem| && c.index < |rem|
    requires bestDist == CandidateDist(rem, dist, cur, best)
    ensures newBest == Consider(rem, dist, cur, best, c)
    ensures newDist == CandidateDist(rem, dist, cur, newBest)
  {
    var con := rem[c.index];
    var d := dist(cur, if c.atEnd then con[|con| - 1] else con[0]);
    newDist, newBest := bestDist, best;
    if d < bestDist {
      newDist, newBest := d, c;
    }
  }

  /** The body of the scan's `for` loop for contour `k`: the start, then the
      end, each replacing the best candidate among the contours before `k`
      when strictly nearer. `found` is false exactly when there is no such
      candidate yet, that is, while the best distance is still infinite. */
  method ConsiderContour(rem: seq<Contour>, dist: Distance, cur: Point, k: nat,
                         found: bool, bestDist: real, best: Candidate)
    returns (newDist: real, newBest: Candidate)
    requires NonEmptyContours(rem) && k < |rem|
    requires found <==> k > 0
    requires found ==> best == Nearest(rem, dist, cur, k) && bestDist == CandidateDist(rem, dist, cur, best)
    ensures newBest == Nearest(rem, dist, cur, k + 1)
    ensures newDist == CandidateDist(rem, dist, cur, newBest)
  {
    var start := Candidate(k, false);
    if !found {
      newDist, newBest := dist(cur, rem[k][0]), start;
    } else {
      newDist, newBest := Update(rem, dist, cur, bestDist, best, start);
    }
    newDist, newBest := Update(rem, dist, cur, newDist, newBest, Candidate(k, true));
    NearestUnfold(rem, dist, cur, k + 1);
  }

  /** The `while remaining` loop body up to the reversal: one pass of the
      scan over the remaining contours, and the chosen contour turned the
      right way. */
  method ScanNearest(rem: seq<Contour>, dist: Distance, cur: Point) returns (chosen: Contour)
    requires |rem| > 0 && NonEmptyContours(rem)
    ensures chosen == Choice(rem, dist, cur)
  {
    var found := false;
    var bestDist := 0.0;
    var best := Candidate(0, false);
    var k := 0;
    while k < |rem|
      invariant 0 <= k <= |rem|
      invariant found <==> k > 0
      invariant found ==> best == Nearest(rem, dist, cur, k)
      invariant found ==> bestDist == CandidateDist(rem, dist, cur, best)
    {
      bestDist, best := ConsiderContour(rem, dist, cur, k, found, bestDist, best);
      found := true;
      k := k + 1;
    }
    chosen := rem[best.index];
    if best.atEnd {
      chosen := Reverse(chosen);
    }
  }

  /** One iteration of the outer loop: appending the choice and dropping it
      from the remaining contours leaves the rest of the tour unchanged. */
  lemma TourStep(tour: seq<Contour>, ordered: seq<Contour>, remaining: seq<Contour>,
                 dist: Distance, cur: Point)
    requires |remaining| > 0 && NonEmptyContours(remaining)
    requires ordered + Order(remaining, dist, cur) == tour
    ensures var b := Choice(remaining, dist, cur);
            && |Without(remaining, b)| < |remaining|
            && (ordered + [b]) + Order(Without(remaining, b), dist, b[|b| - 1]) == tour
  {
    var b := Choice(remaining, dist, cur);
    WithoutShrinks(remaining, b, Nearest(remaining, dist, cur, |remaining|).index);
    var rest := Order(Without(remaining, b), dist, b[|b| - 1]);
    assert Order(remaining, dist, cur) == [b] + rest;
    assert (ordered + [b]) + rest == ordered + ([b] + rest);
  }

  /** `connect_contours_tsp`, loop by loop. */
  method ConnectContoursTsp(contours: seq<Contour>, dist: Distance) returns (points: seq<Point>)
    requires |contours| > 0 && NonEmptyContours(contours)
    ensures points == ConnectContours(contours, dist)
  {
    var ordered: seq<Contour> := [];
    var current := contours[0][0];
    var remaining := contours;
    while |remaining| > 0
      invariant NonEmptyContours(remaining)
      invariant ordered + Order(remaining, dist, current) == Order(contours, dist, contours[0][0])
      decreases |remaining|
    {
      var best := ScanNearest(remaining, dist, current);
      var next := best[|best| - 1];
      var rest := Without(remaining, best);
      TourStep(Order(contours, dist, contours[0][0]), ordered, remaining, dist, current);
      ordered := ordered + [best];
      current := next;
      remaining := rest;
    }
    assert Order(remaining, dist, current) == [];
    assert ordered == Order(contours, dist, contours[0][0]);
    points := Concat(ordered);
  }
}
