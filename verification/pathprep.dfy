/** The end of `load_and_process_svg`: the sampled contours become one
    path, which is closed, centred on its mean and scaled so that its largest
    coordinate in absolute value equals the scale factor. */
module PathPrep {
  import opened Geometry
  import opened ContourOrder

  /** The closing tolerance: a path whose ends are farther apart than this
      gets its first point appended. */
  const CloseTolerance: real := 0.000001

  /** The configured scale factor: the largest coordinate of the prepared
      path, in absolute value. */
  const ScaleFactor: real := 8.0

  /** The closing step of `load_and_process_svg`: the first point is
      appended when the ends are apart. The program compares the norm of the
      gap with the tolerance; both are non-negative, so this is the same test on squares. */
  function ClosePath(ps: seq<Point>): (r: seq<Point>)
    requires |ps| > 0
    ensures ps <= r && |r| <= |ps| + 1
    ensures |r| == |ps| + 1 <==> DistSq(ps[0], ps[|ps| - 1]) > CloseTolerance * CloseTolerance
    ensures |r| == |ps| + 1 ==> r[|r| - 1] == ps[0]
    ensures DistSq(r[0], r[|r| - 1]) <= CloseTolerance * CloseTolerance
  {
    if DistSq(ps[0], ps[|ps| - 1]) > CloseTolerance * CloseTolerance then ps + [ps[0]] else ps
  }

  /** A closed path stays as it is. */
  lemma ClosePathIdempotent(ps: seq<Point>)
    requires |ps| > 0
    ensures ClosePath(ClosePath(ps)) == ClosePath(ps)
  {
  }

  /** `ps - c`, point by point. */
  function Translate(ps: seq<Point>, c: Point): (r: seq<Point>)
    ensures |r| == |ps|
    ensures forall i :: 0 <= i < |ps| ==> r[i] == Sub(ps[i], c)
  {
    seq(|ps|, i requires 0 <= i < |ps| => Sub(ps[i], c))
  }

  /** `ps * k`, point by point. */
  function Rescale(ps: seq<Point>, k: real): (r: seq<Point>)
    ensures |r| == |ps|
    ensures forall i :: 0 <= i < |ps| ==> r[i] == Scale(ps[i], k)
  {
    seq(|ps|, i requires 0 <= i < |ps| => Scale(ps[i], k))
  }

  /** Translating every point moves the sum by `n` times the offset. */
  lemma {:induction false} SumTranslate(ps: seq<Point>, c: Point)
    ensures Sum(Translate(ps, c)) == Sub(Sum(ps), Scale(c, |ps| as real))
    decreases |ps|
  {
    if |ps| > 0 {
      var n := |ps|;
      var init := ps[..n - 1];
      assert Translate(ps, c)[..n - 1] == Translate(init, c);
      SumTranslate(init, c);
      assert c.x * (n - 1) as real + c.x == c.x * n as real;
      assert c.y * (n - 1) as real + c.y == c.y * n as real;
    }
  }

  /** Scaling every point scales the sum. */
  lemma {:induction false} SumRescale(ps: seq<Point>, k: real)
    ensures Sum(Rescale(ps, k)) == Scale(Sum(ps), k)
    decreases |ps|
  {
    if |ps| > 0 {
      var n := |ps|;
      var init := ps[..n - 1];
      assert Rescale(ps, k)[..n - 1] == Rescale(init, k);
      SumRescale(init, k);
      var s := Sum(init);
      var p := ps[n - 1];
      assert s.x * k + p.x * k == (s.x + p.x) * k;
      assert s.y * k + p.y * k == (s.y + p.y) * k;
    }
  }

  /** `np.mean(points, axis=0)`: the point that, taken `n` times, gives the
      sum of the path. */
  function Mean(ps: seq<Point>): (m: Point)
    requires |ps| > 0
    ensures Scale(m, |ps| as real) == Sum(ps)
  {
    ScaleInverse(Sum(ps), |ps| as real);
    Scale(Sum(ps), 1.0 / |ps| as real)
  }

  /** `ordered_points - center`: the path moved so that its points sum, and
      so average, to the origin. */
  function Centre(ps: seq<Point>): (r: seq<Point>)
    requires |ps| > 0
    ensures |r| == |ps|
    ensures Sum(r) == Origin
  {
    SumTranslate(ps, Mean(ps));
    Translate(ps, Mean(ps))
  }

  /** The centred path sums, and so averages, to the origin. */
  lemma CentredSumIsOrigin(ps: seq<Point>)
    requires |ps| > 0
    ensures Sum(Centre(ps)) == Origin
    ensures Mean(Centre(ps)) == Origin
  {
    SumTranslate(ps, Mean(ps));
    ScaleInverse(Sum(ps), |ps| as real);
  }

  /** Centring moves every point by the same offset, so the path keeps its
      shape: the offset between any two points is unchanged. */
  lemma CentreKeepsShape(ps: seq<Point>)
    requires |ps| > 0
    ensures forall i, j :: 0 <= i < |ps| && 0 <= j < |ps| ==>
              Sub(Centre(ps)[i], Centre(ps)[j]) == Sub(ps[i], ps[j])
  {
    var r, m := Centre(ps), Mean(ps);
    forall i, j | 0 <= i < |ps| && 0 <= j < |ps|
      ensures Sub(r[i], r[j]) == Sub(ps[i], ps[j])
    {
      assert r[i] == Sub(ps[i], m) && r[j] == Sub(ps[j], m);
    }
  }

  lemma TranslateByOrigin(ps: seq<Point>)
    ensures Translate(ps, Origin) == ps
  {
    var t := Translate(ps, Origin);
    forall i | 0 <= i < |ps|
      ensures t[i] == ps[i]
    {
      assert t[i] == Sub(ps[i], Origin);
    }
  }

  /** Centring a centred path changes nothing. */
  lemma CentreIdempotent(ps: seq<Point>)
    requires |ps| > 0
    ensures Centre(Centre(ps)) == Centre(ps)
  {
    var c := Centre(ps);
    CentredSumIsOrigin(ps);
    TranslateByOrigin(c);
  }

  function Max(a: real, b: real): (m: real)
    ensures m >= a && m >= b
    ensures m == a || m == b
  {
    if a >= b then a else b
  }

  /** `np.max(np.abs(points))`: the largest coordinate in absolute value. */
  function MaxExtent(ps: seq<Point>): (m: real)
    requires |ps| > 0
    ensures forall i :: 0 <= i < |ps| ==> Abs(ps[i].x) <= m && Abs(ps[i].y) <= m
    ensures exists i :: 0 <= i < |ps| && (Abs(ps[i].x) == m || Abs(ps[i].y) == m)
    decreases |ps|
  {
    var n := |ps|;
    var p := ps[n - 1];
    var here := Max(Abs(p.x), Abs(p.y));
    if n == 1 then here
    else
      var init := ps[..n - 1];
      var rest := MaxExtent(init);
      assert forall i :: 0 <= i < n - 1 ==> ps[i] == init[i];
      Max(rest, here)
  }

  /** A bound that every coordinate respects and some coordinate reaches is
      the maximum extent. */
  lemma MaxExtentIs(ps: seq<Point>, v: real)
    requires |ps| > 0
    requires forall i :: 0 <= i < |ps| ==> Abs(ps[i].x) <= v && Abs(ps[i].y) <= v
    requires exists i :: 0 <= i < |ps| && (Abs(ps[i].x) == v || Abs(ps[i].y) == v)
    ensures MaxExtent(ps) == v
  {
    var i :| 0 <= i < |ps| && (Abs(ps[i].x) == v || Abs(ps[i].y) == v);
    var j :| 0 <= j < |ps| && (Abs(ps[j].x) == MaxExtent(ps) || Abs(ps[j].y) == MaxExtent(ps));
  }

  /** Rescaling by `1 / m` and then by `s` rescales by `s / m`. */
  lemma RescaleTwice(ps: seq<Point>, m: real, s: real)
    requires m != 0.0
    ensures forall i :: 0 <= i < |ps| ==> Rescale(Rescale(ps, 1.0 / m), s)[i] == Scale(ps[i], s / m)
  {
    var r := Rescale(Rescale(ps, 1.0 / m), s);
    forall i | 0 <= i < |ps|
      ensures r[i] == Scale(ps[i], s / m)
    {
      ScaleTwice(ps[i], m, s);
    }
  }

  /** `ordered_points / max_extent * scale_factor` when the extent is
      positive: every point scaled by the one factor `scale / extent`. A path
      whose extent is zero is returned as it is. */
  function Normalise(ps: seq<Point>, scale: real): (r: seq<Point>)
    requires |ps| > 0
    ensures |r| == |ps|
    ensures MaxExtent(ps) > 0.0 ==>
              forall i :: 0 <= i < |ps| ==> r[i] == Scale(ps[i], scale / MaxExtent(ps))
    ensures MaxExtent(ps) <= 0.0 ==> r == ps
  {
    var m := MaxExtent(ps);
    if m > 0.0 then
      RescaleTwice(ps, m, scale);
      Rescale(Rescale(ps, 1.0 / m), scale)
    else ps
  }

  lemma AbsProduct(a: real, k: real)
    ensures Abs(a * k) == Abs(a) * Abs(k)
  {
    if a < 0.0 && k < 0.0 {
      assert a * k == (-a) * (-k);
    } else if a < 0.0 {
      assert -(a * k) == (-a) * k;
    } else if k < 0.0 {
      assert -(a * k) == a * (-k);
    }
  }

  lemma MulMonotone(x: real, y: real, c: real)
    requires x <= y && c >= 0.0
    ensures x * c <= y * c
  {
    assert y * c - x * c == (y - x) * c;
  }

  /** A coordinate at most `m` in absolute value lands at most `|s|` away
      from zero after the rescaling, and exactly there when it was `m`. */
  lemma RescaledCoordinate(a: real, m: real, s: real)
    requires m > 0.0 && Abs(a) <= m
    ensures Abs(a * (1.0 / m) * s) <= Abs(s)
    ensures Abs(a) == m ==> Abs(a * (1.0 / m) * s) == Abs(s)
  {
    var inv := 1.0 / m;
    assert inv > 0.0;
    assert m * inv == 1.0;
    AbsProduct(a, inv);
    var q := a * inv;
    assert Abs(q) == Abs(a) * inv;
    MulMonotone(Abs(a), m, inv);
    assert Abs(q) <= 1.0;
    AbsProduct(q, s);
    MulMonotone(Abs(q), 1.0, Abs(s));
  }

  /** The rescaled `x` coordinate stays within `|s|`, and reaches it where
      the original one reached `m`. */
  lemma RescaledX(p: Point, m: real, s: real)
    requires m > 0.0 && Abs(p.x) <= m
    ensures Abs(Scale(Scale(p, 1.0 / m), s).x) <= Abs(s)
    ensures Abs(p.x) == m ==> Abs(Scale(Scale(p, 1.0 / m), s).x) == Abs(s)
  {
    RescaledCoordinate(p.x, m, s);
  }

  /** The same for the `y` coordinate. */
  lemma RescaledY(p: Point, m: real, s: real)
    requires m > 0.0 && Abs(p.y) <= m
    ensures Abs(Scale(Scale(p, 1.0 / m), s).y) <= Abs(s)
    ensures Abs(p.y) == m ==> Abs(Scale(Scale(p, 1.0 / m), s).y) == Abs(s)
  {
    RescaledCoordinate(p.y, m, s);
  }

  /** Unless all points are at the origin, the normalised path reaches
      exactly `|scale|` in some coordinate and no further in any. */
  lemma NormalisedExtent(ps: seq<Point>, scale: real)
    requires |ps| > 0 && MaxExtent(ps) > 0.0
    ensures MaxExtent(Normalise(ps, scale)) == Abs(scale)
  {
    var m := MaxExtent(ps);
    var r := Rescale(Rescale(ps, 1.0 / m), scale);
    assert Normalise(ps, scale) == r;
    forall i | 0 <= i < |ps|
      ensures Abs(r[i].x) <= Abs(scale)
    {
      RescaledX(ps[i], m, scale);
      assert r[i] == Scale(Scale(ps[i], 1.0 / m), scale);
    }
    forall i | 0 <= i < |ps|
      ensures Abs(r[i].y) <= Abs(scale)
    {
      RescaledY(ps[i], m, scale);
      assert r[i] == Scale(Scale(ps[i], 1.0 / m), scale);
    }
    var j :| 0 <= j < |ps| && (Abs(ps[j].x) == m || Abs(ps[j].y) == m);
    assert r[j] == Scale(Scale(ps[j], 1.0 / m), scale);
    if Abs(ps[j].x) == m {
      RescaledX(ps[j], m, scale);
    } else {
      RescaledY(ps[j], m, scale);
    }
    MaxExtentIs(r, Abs(scale));
  }

  /** With a maximum extent of zero every point is the origin, and the
      path is left as it is. */
  lemma NormaliseDegenerate(ps: seq<Point>, scale: real)
    requires |ps| > 0 && MaxExtent(ps) <= 0.0
    ensures forall i :: 0 <= i < |ps| ==> ps[i] == Origin
    ensures Normalise(ps, scale) == ps
  {
  }

  /** Rescaling keeps a centred path centred. */
  lemma NormaliseKeepsCentre(ps: seq<Point>, scale: real)
    requires |ps| > 0 && Sum(ps) == Origin
    ensures Sum(Normalise(ps, scale)) == Origin
  {
    var m := MaxExtent(ps);
    if m > 0.0 {
      var once := Rescale(ps, 1.0 / m);
      SumRescale(ps, 1.0 / m);
      assert Sum(once) == Origin;
      SumRescale(once, scale);
      assert Sum(Rescale(once, scale)) == Origin;
    }
  }

  /** The path of the sampled contours: a single contour as it is, several
      joined by the greedy tour. Either way it visits exactly the sampled
      points and, for a distance that behaves like the norm, begins with the
      whole first contour in its own direction. */
  function JoinContours(contours: seq<Contour>, dist: Distance): (ps: seq<Point>)
    requires |contours| > 0 && NonEmptyContours(contours)
    ensures |ps| > 0
    ensures forall p :: p in ps ==> exists c :: c in contours && p in c
    ensures forall c, p :: c in contours && p in c ==> p in ps
    ensures IsDistance(dist) ==> |contours[0]| <= |ps| && ps[..|contours[0]|] == contours[0]
  {
    assert contours[0] in contours;
    var ps := if |contours| == 1 then contours[0] else ConnectContours(contours, dist);
    assert forall p :: p in ps <==> exists c :: c in contours && p in c by {
      forall p
        ensures p in ps <==> exists c :: c in contours && p in c
      {
        if |contours| == 1 {
          if exists c :: c in contours && p in c {
            var c :| c in contours && p in c;
            assert c == contours[0];
          }
        } else {
          TourVisitsExactlyInputPoints(contours, dist, p);
        }
      }
    }
    assert IsDistance(dist) ==> ps[..|contours[0]|] == contours[0] by {
      if |contours| > 1 && IsDistance(dist) {
        TourStartsWithFirstContour(contours, dist);
      }
    }
    ps
  }

  /** The path the transform is taken of: joined, closed, centred and
      normalised. It is centred on the origin. */
  function PreparePath(contours: seq<Contour>, dist: Distance, scale: real): (r: seq<Point>)
    requires |contours| > 0 && NonEmptyContours(contours)
    ensures |r| > 0
    ensures Sum(r) == Origin
  {
    var closed := ClosePath(JoinContours(contours, dist));
    CentredSumIsOrigin(closed);
    NormaliseKeepsCentre(Centre(closed), scale);
    Normalise(Centre(ClosePath(JoinContours(contours, dist))), scale)
  }

  /** Centring and normalising keep the length of the closed path. */
  lemma PreparedLength(contours: seq<Contour>, dist: Distance, scale: real)
    requires |contours| > 0 && NonEmptyContours(contours)
    ensures |PreparePath(contours, dist, scale)| == |ClosePath(JoinContours(contours, dist))|
  {
  }

  /** The prepared path: one point more than the joined contours exactly
      when their ends were apart, centred on the origin, and reaching
      `|scale|` in its largest coordinate unless every point coincides. */
  lemma PreparedPath(contours: seq<Contour>, dist: Distance, scale: real)
    requires |contours| > 0 && NonEmptyContours(contours)
    ensures var joined := JoinContours(contours, dist);
            var r := PreparePath(contours, dist, scale);
            && (|r| == |joined| + 1 <==>
                  DistSq(joined[0], joined[|joined| - 1]) > CloseTolerance * CloseTolerance)
            && (|r| == |joined| || |r| == |joined| + 1)
            && Sum(r) == Origin
            && (MaxExtent(r) == Abs(scale) || forall i :: 0 <= i < |r| ==> r[i] == Origin)
  {
    var joined := JoinContours(contours, dist);
    var closed := ClosePath(joined);
    var centred := Centre(closed);
    var r := PreparePath(contours, dist, scale);
    assert r == Normalise(centred, scale);
    PreparedLength(contours, dist, scale);
    if MaxExtent(centred) > 0.0 {
      NormalisedExtent(centred, scale);
      assert MaxExtent(r) == Abs(scale);
    } else {
      NormaliseDegenerate(centred, scale);
      assert r == centred;
      assert forall i :: 0 <= i < |r| ==> r[i] == Origin;
    }
  }
}
