/** `precompute_animation`: for each of `numSteps` time steps, the pen point
    (the sum of all rotating terms) and the chain of circles and vectors the
    renderer draws. The rotation `c * exp(2*pi*i*f*t)` is a parameter: the
    laws proved here hold for every rotation, and so for the exponential. The
    circle radius `abs(c)` is a parameter for the same reason. Points are
    planar; the renderer's third coordinate is always zero and is dropped. */
module Animation {
  import opened Geometry
  import opened Spectrum

  /** `rotate(c, f, t)` stands for the term `c * exp(2*pi*i*f*t)`. */
  type Rotation = (Point, int, real) -> Point

  /** `magnitude(c)` stands for `abs(c)`. */
  type Magnitude = Point -> real

  datatype Circle = Circle(center: Point, radius: real)

  datatype Arrow = Arrow(start: Point, end: Point)

  /** One animation state: a circle and a vector per term. */
  datatype Frame = Frame(circles: seq<Circle>, vectors: seq<Arrow>)

  /** The time of animation step `step`, `step / num_steps`: a point of the
      unit period, starting at 0 and never reaching 1. */
  function StepTime(step: nat, numSteps: nat): (t: real)
    requires step < numSteps
    ensures 0.0 <= t < 1.0
    ensures step == 0 ==> t == 0.0
  {
    step as real / numSteps as real
  }

  function Phasor(rotate: Rotation, term: Term, t: real): Point {
    rotate(term.coeff, term.freq, t)
  }

  /** The rotated terms at time `t`, in order. */
  function Phasors(rotate: Rotation, terms: seq<Term>, t: real): (ps: seq<Point>)
    ensures |ps| == |terms|
    ensures forall i :: 0 <= i < |terms| ==> ps[i] == Phasor(rotate, terms[i], t)
  {
    seq(|terms|, i requires 0 <= i < |terms| => Phasor(rotate, terms[i], t))
  }

  /** The running value of `current_z` after `k` terms: the sum of the first
      `k` rotated terms. */
  function PartialSum(rotate: Rotation, terms: seq<Term>, t: real, k: nat): (z: Point)
    requires k <= |terms|
    ensures z == Sum(Phasors(rotate, terms, t)[..k])
    decreases k
  {
    if k == 0 then Origin
    else
      var ps := Phasors(rotate, terms, t);
      assert ps[..k][..k - 1] == ps[..k - 1];
      Add(PartialSum(rotate, terms, t, k - 1), Phasor(rotate, terms[k - 1], t))
  }

  /** The reconstructed pen position: the sum of all rotated terms. */
  function PenPosition(rotate: Rotation, terms: seq<Term>, t: real): (z: Point)
    ensures z == Sum(Phasors(rotate, terms, t))
  {
    var ps := Phasors(rotate, terms, t);
    assert ps[..|terms|] == ps;
    PartialSum(rotate, terms, t, |terms|)
  }

  /** The shape of a frame at time `t`: one circle and one vector per term,
      the first vector leaving the origin, each vector starting where the
      previous one ends and spanning exactly its own rotated term, and each
      circle centred on its vector's start with its term's radius. */
  predicate IsChain(rotate: Rotation, magnitude: Magnitude, terms: seq<Term>, t: real, f: Frame) {
    && |f.circles| == |terms|
    && |f.vectors| == |terms|
    && (|terms| > 0 ==> f.vectors[0].start == Origin)
    && (forall k :: 0 < k < |terms| ==> f.vectors[k].start == f.vectors[k - 1].end)
    && (forall k :: 0 <= k < |terms| ==>
          Sub(f.vectors[k].end, f.vectors[k].start) == Phasor(rotate, terms[k], t))
    && (forall k :: 0 <= k < |terms| ==>
          f.circles[k] == Circle(f.vectors[k].start, magnitude(terms[k].coeff)))
  }

  /** In a chain, vector `k` runs from the `k`-th to the `k+1`-st partial sum. */
  lemma {:induction false} ChainFollowsPartialSums(rotate: Rotation, magnitude: Magnitude,
                                                   terms: seq<Term>, t: real, f: Frame, k: nat)
    requires IsChain(rotate, magnitude, terms, t, f)
    requires k < |terms|
    ensures f.vectors[k].start == PartialSum(rotate, terms, t, k)
    ensures f.vectors[k].end == PartialSum(rotate, terms, t, k + 1)
    decreases k
  {
    if k > 0 {
      ChainFollowsPartialSums(rotate, magnitude, terms, t, f, k - 1);
    }
    var v := f.vectors[k];
    var p := Phasor(rotate, terms[k], t);
    assert Sub(v.end, v.start) == p;
    assert v.end == Add(v.start, p);
  }

  /** The last vector of a chain ends at the pen position. */
  lemma ChainEndsAtPen(rotate: Rotation, magnitude: Magnitude, terms: seq<Term>, t: real, f: Frame)
    requires IsChain(rotate, magnitude, terms, t, f)
    requires |terms| > 0
    ensures f.vectors[|terms| - 1].end == PenPosition(rotate, terms, t)
  {
    ChainFollowsPartialSums(rotate, magnitude, terms, t, f, |terms| - 1);
  }

  /** The chain at a given time is unique: the frame depends on nothing but
      the terms, the time and the two abstract functions. */
  lemma ChainIsUnique(rotate: Rotation, magnitude: Magnitude, terms: seq<Term>, t: real, f: Frame, g: Frame)
    requires IsChain(rotate, magnitude, terms, t, f)
    requires IsChain(rotate, magnitude, terms, t, g)
    ensures f == g
  {
    forall k | 0 <= k < |terms|
      ensures f.vectors[k] == g.vectors[k] && f.circles[k] == g.circles[k]
    {
      ChainFollowsPartialSums(rotate, magnitude, terms, t, f, k);
      ChainFollowsPartialSums(rotate, magnitude, terms, t, g, k);
    }
    assert f.vectors == g.vectors;
    assert f.circles == g.circles;
  }

  /** The `z += coeff * exp(...)` loop: the pen point, summed term by term. */
  method PenPoint(rotate: Rotation, terms: seq<Term>, t: real) returns (z: Point)
    ensures z == PenPosition(rotate, terms, t)
  {
    z := Origin;
    var k := 0;
    while k < |terms|
      invariant 0 <= k <= |terms|
      invariant z == PartialSum(rotate, terms, t, k)
    {
      z := Add(z, Phasor(rotate, terms[k], t));
      k := k + 1;
    }
  }

  /** The inner `for` loop of `precompute_animation`: the circles and vectors
      of one step, each term drawn from where the previous one ended. */
  method BuildFrame(rotate: Rotation, magnitude: Magnitude, terms: seq<Term>, t: real)
    returns (f: Frame)
    ensures IsChain(rotate, magnitude, terms, t, f)
  {
    var circles: seq<Circle> := [];
    var vectors: seq<Arrow> := [];
    var current := Origin;
    var prev := Origin;
    var k := 0;
    while k < |terms|
      invariant 0 <= k <= |terms|
      invariant |circles| == k && |vectors| == k
      invariant prev == current
      invariant k == 0 ==> current == Origin
      invariant k > 0 ==> current == vectors[k - 1].end
      invariant k > 0 ==> vectors[0].start == Origin
      invariant forall j :: 0 < j < k ==> vectors[j].start == vectors[j - 1].end
      invariant forall j :: 0 <= j < k ==>
                  Sub(vectors[j].end, vectors[j].start) == Phasor(rotate, terms[j], t)
      invariant forall j :: 0 <= j < k ==>
                  circles[j] == Circle(vectors[j].start, magnitude(terms[j].coeff))
    {
      var radius := magnitude(terms[k].coeff);
      circles := circles + [Circle(prev, radius)];
      var next := Add(current, Phasor(rotate, terms[k], t));
      vectors := vectors + [Arrow(prev, next)];
      current := next;
      prev := next;
      k := k + 1;
    }
    f := Frame(circles, vectors);
  }

  /** `precompute_animation`: per step, the pen point and the frame; the pen
      point is where the frame's last vector ends. */
  method PrecomputeAnimation(rotate: Rotation, magnitude: Magnitude, terms: seq<Term>, numSteps: nat)
    returns (pathPoints: seq<Point>, states: seq<Frame>)
    ensures |pathPoints| == numSteps && |states| == numSteps
    ensures forall s :: 0 <= s < numSteps ==>
              IsChain(rotate, magnitude, terms, StepTime(s, numSteps), states[s])
    ensures forall s :: 0 <= s < numSteps ==>
              pathPoints[s] == PenPosition(rotate, terms, StepTime(s, numSteps))
    ensures forall s :: 0 <= s < numSteps && |terms| > 0 ==>
              |states[s].vectors| == |terms| && states[s].vectors[|terms| - 1].end == pathPoints[s]
  {
    pathPoints := [];
    states := [];
    var step := 0;
    while step < numSteps
      invariant 0 <= step <= numSteps
      invariant |pathPoints| == step && |states| == step
      invariant forall s :: 0 <= s < step ==>
                  IsChain(rotate, magnitude, terms, StepTime(s, numSteps), states[s])
      invariant forall s :: 0 <= s < step ==>
                  pathPoints[s] == PenPosition(rotate, terms, StepTime(s, numSteps))
    {
      var t := StepTime(step, numSteps);
      var z := PenPoint(rotate, terms, t);
      pathPoints := pathPoints + [z];
      var frame := BuildFrame(rotate, magnitude, terms, t);
      states := states + [frame];
      step := step + 1;
    }
    if |terms| > 0 {
      forall s | 0 <= s < numSteps
        ensures states[s].vectors[|terms| - 1].end == pathPoints[s]
      {
        ChainEndsAtPen(rotate, magnitude, terms, StepTime(s, numSteps), states[s]);
      }
    }
  }
}
