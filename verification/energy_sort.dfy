/** The ordering step of `find_optimal_epicycles`: a stable sort of the
    coefficient items by descending magnitude. Magnitude order is energy
    order, and terms of equal energy keep their dictionary (bin) order. */
module EnergySort {
  import opened Geometry
  import opened Spectrum

  function TermEnergy(t: Term): (e: real)
    ensures e >= 0.0
  {
    Energy(t.coeff)
  }

  predicate NonIncreasing(s: seq<Term>) {
    forall i, j :: 0 <= i < j < |s| ==> TermEnergy(s[i]) >= TermEnergy(s[j])
  }

  /** Places `t` after every term whose energy is at least its own. */
  function Insert(s: seq<Term>, t: Term): (r: seq<Term>)
    requires NonIncreasing(s)
    ensures NonIncreasing(r)
    ensures multiset(r) == multiset(s) + multiset{t}
    ensures |r| == |s| + 1
    ensures r[0] == t || (|s| > 0 && r[0] == s[0])
    decreases |s|
  {
    if |s| == 0 then [t]
    else if TermEnergy(s[0]) >= TermEnergy(t) then
      NonIncreasingTail(s);
      var rest := Insert(s[1..], t);
      assert s == [s[0]] + s[1..];
      ConsNonIncreasing(s[0], rest);
      [s[0]] + rest
    else
      ConsNonIncreasing(t, s);
      [t] + s
  }

  /** A term at least as heavy as the head of a non-increasing sequence can
      be put in front of it. */
  lemma ConsNonIncreasing(x: Term, s: seq<Term>)
    requires NonIncreasing(s)
    requires |s| > 0 ==> TermEnergy(x) >= TermEnergy(s[0])
    ensures NonIncreasing([x] + s)
  {
    var r := [x] + s;
    forall i, j | 0 <= i < j < |r|
      ensures TermEnergy(r[i]) >= TermEnergy(r[j])
    {
      if i == 0 {
        assert r[j] == s[j - 1];
        assert TermEnergy(s[0]) >= TermEnergy(s[j - 1]);
      } else {
        assert r[i] == s[i - 1] && r[j] == s[j - 1];
      }
    }
  }

  /** Stable insertion sort by non-increasing energy. */
  function SortByEnergy(s: seq<Term>): (r: seq<Term>)
    ensures NonIncreasing(r)
    ensures multiset(r) == multiset(s)
    ensures |r| == |s|
    decreases |s|
  {
    if |s| == 0 then []
    else
      assert s == s[..|s| - 1] + [s[|s| - 1]];
      Insert(SortByEnergy(s[..|s| - 1]), s[|s| - 1])
  }

  /** The terms of `s` whose energy is `e`, in their order in `s`. A sort is
      stable exactly when it leaves every such subsequence unchanged. */
  function AtLevel(s: seq<Term>, e: real): seq<Term>
    decreases |s|
  {
    if |s| == 0 then []
    else AtLevel(s[..|s| - 1], e) + (if TermEnergy(s[|s| - 1]) == e then [s[|s| - 1]] else [])
  }

  function Only(t: Term, e: real): seq<Term> {
    if TermEnergy(t) == e then [t] else []
  }

  lemma {:induction false} AtLevelConcat(a: seq<Term>, b: seq<Term>, e: real)
    ensures AtLevel(a + b, e) == AtLevel(a, e) + AtLevel(b, e)
    decreases |b|
  {
    if |b| == 0 {
      assert a + b == a;
    } else {
      var n := |b|;
      assert (a + b)[..|a + b| - 1] == a + b[..n - 1];
      AtLevelConcat(a, b[..n - 1], e);
    }
  }

  lemma AtLevelCons(t: Term, s: seq<Term>, e: real)
    ensures AtLevel([t] + s, e) == Only(t, e) + AtLevel(s, e)
  {
    AtLevelConcat([t], s, e);
    assert [t][..0] == [];
  }

  /** A level above every energy of `s` is empty in `s`. */
  lemma {:induction false} AtLevelAbove(s: seq<Term>, e: real)
    requires forall k :: 0 <= k < |s| ==> TermEnergy(s[k]) < e
    ensures AtLevel(s, e) == []
    decreases |s|
  {
    if |s| > 0 {
      AtLevelAbove(s[..|s| - 1], e);
    }
  }

  /** Every term of a level occurs in the sequence and has that energy. */
  lemma {:induction false} AtLevelMembers(s: seq<Term>, e: real)
    ensures forall x :: x in AtLevel(s, e) ==> x in s && TermEnergy(x) == e
    decreases |s|
  {
    if |s| > 0 {
      var n := |s|;
      AtLevelMembers(s[..n - 1], e);
      forall x | x in AtLevel(s, e)
        ensures x in s && TermEnergy(x) == e
      {
        if x in AtLevel(s[..n - 1], e) {
          assert x in s[..n - 1];
        }
      }
    }
  }

  lemma NonIncreasingTail(s: seq<Term>)
    requires |s| > 0 && NonIncreasing(s)
    ensures NonIncreasing(s[1..])
  {
    forall i, j | 0 <= i < j < |s| - 1
      ensures TermEnergy(s[1..][i]) >= TermEnergy(s[1..][j])
    {
      assert s[1..][i] == s[i + 1] && s[1..][j] == s[j + 1];
    }
  }

  /** No term of a non-increasing sequence has more energy than its head. */
  lemma HeadIsMaximal(s: seq<Term>, x: Term)
    requires NonIncreasing(s) && x in s
    ensures TermEnergy(x) <= TermEnergy(s[0])
  {
    var i :| 0 <= i < |s| && s[i] == x;
    if i > 0 {
      assert TermEnergy(s[0]) >= TermEnergy(s[i]);
    }
  }

  lemma {:induction false} InsertAtLevel(s: seq<Term>, t: Term, e: real)
    requires NonIncreasing(s)
    ensures AtLevel(Insert(s, t), e) == AtLevel(s, e) + Only(t, e)
    decreases |s|
  {
    if |s| == 0 {
      assert Insert(s, t) == [t];
      assert [t][..0] == [];
    } else if TermEnergy(s[0]) >= TermEnergy(t) {
      NonIncreasingTail(s);
      InsertAtLevel(s[1..], t, e);
      InsertBehindHead(s, t, e);
    } else {
      InsertInFront(s, t, e);
    }
  }

  /** Regrouping a concatenation of three levels. Stated apart so that the
      proof of `InsertBehindHead` does not unfold the levels while regrouping. */
  lemma ConcatAssoc(x: seq<Term>, y: seq<Term>, z: seq<Term>)
    ensures x + (y + z) == (x + y) + z
  {
  }

  /** The step of `InsertAtLevel` where `t` goes behind the head of `s`. */
  lemma InsertBehindHead(s: seq<Term>, t: Term, e: real)
    requires |s| > 0 && NonIncreasing(s) && TermEnergy(s[0]) >= TermEnergy(t)
    requires NonIncreasing(s[1..])
    requires AtLevel(Insert(s[1..], t), e) == AtLevel(s[1..], e) + Only(t, e)
    ensures AtLevel(Insert(s, t), e) == AtLevel(s, e) + Only(t, e)
  {
    var s0, tail := s[0], s[1..];
    var rest := Insert(tail, t);
    assert s == [s0] + tail;
    assert Insert(s, t) == [s0] + rest;
    AtLevelCons(s0, tail, e);
    AtLevelCons(s0, rest, e);
    ConcatAssoc(Only(s0, e), AtLevel(tail, e), Only(t, e));
  }

  /** The step of `InsertAtLevel` where `t` outweighs the head of `s`. */
  lemma InsertInFront(s: seq<Term>, t: Term, e: real)
    requires |s| > 0 && NonIncreasing(s) && TermEnergy(s[0]) < TermEnergy(t)
    ensures AtLevel(Insert(s, t), e) == AtLevel(s, e) + Only(t, e)
  {
    assert Insert(s, t) == [t] + s;
    AtLevelCons(t, s, e);
    if TermEnergy(t) == e {
      forall k | 0 <= k < |s|
        ensures TermEnergy(s[k]) < e
      {
        HeadIsMaximal(s, s[k]);
      }
      AtLevelAbove(s, e);
    }
  }

  /** The sort is stable: each energy level keeps its original order. */
  lemma {:induction false} SortIsStable(s: seq<Term>, e: real)
    ensures AtLevel(SortByEnergy(s), e) == AtLevel(s, e)
    decreases |s|
  {
    if |s| > 0 {
      var n := |s|;
      SortIsStable(s[..n - 1], e);
      InsertAtLevel(SortByEnergy(s[..n - 1]), s[n - 1], e);
    }
  }

  /** Every term belongs to the level of its own energy. */
  lemma {:induction false} OwnLevelNonEmpty(s: seq<Term>, i: nat)
    requires i < |s|
    ensures s[i] in AtLevel(s, TermEnergy(s[i]))
    decreases |s|
  {
    var n := |s|;
    if i < n - 1 {
      var init := s[..n - 1];
      assert init[i] == s[i];
      OwnLevelNonEmpty(init, i);
    }
  }

  /** The head of a non-increasing sequence heads its own level. */
  lemma HeadLevel(s: seq<Term>)
    requires |s| > 0
    ensures AtLevel(s, TermEnergy(s[0])) == [s[0]] + AtLevel(s[1..], TermEnergy(s[0]))
  {
    assert s == [s[0]] + s[1..];
    AtLevelCons(s[0], s[1..], TermEnergy(s[0]));
  }

  /** Sequences that agree on every level and on their heads agree on every
      level of their tails. */
  lemma TailLevels(a: seq<Term>, b: seq<Term>, e: real)
    requires |a| > 0 && |b| > 0 && a[0] == b[0]
    requires AtLevel(a, e) == AtLevel(b, e)
    ensures AtLevel(a[1..], e) == AtLevel(b[1..], e)
  {
    assert a == [a[0]] + a[1..] && b == [b[0]] + b[1..];
    AtLevelCons(a[0], a[1..], e);
    AtLevelCons(b[0], b[1..], e);
    var p := Only(a[0], e);
    assert AtLevel(a[1..], e) == (p + AtLevel(a[1..], e))[|p|..];
    assert AtLevel(b[1..], e) == (p + AtLevel(b[1..], e))[|p|..];
  }

  /** If every level of `a` equals that of `b`, the head of `b` carries no
      more energy than the head of `a`. */
  lemma HeadBound(a: seq<Term>, b: seq<Term>)
    requires |a| > 0 && |b| > 0 && NonIncreasing(a)
    requires AtLevel(a, TermEnergy(b[0])) == AtLevel(b, TermEnergy(b[0]))
    ensures TermEnergy(b[0]) <= TermEnergy(a[0])
  {
    OwnLevelNonEmpty(b, 0);
    AtLevelMembers(a, TermEnergy(b[0]));
    HeadIsMaximal(a, b[0]);
  }

  /** Non-increasing sequences with equal levels have the same head. */
  lemma SameHead(a: seq<Term>, b: seq<Term>)
    requires |a| > 0 && |b| > 0
    requires NonIncreasing(a) && NonIncreasing(b)
    requires forall e :: AtLevel(a, e) == AtLevel(b, e)
    ensures a[0] == b[0]
  {
    var ea, eb := TermEnergy(a[0]), TermEnergy(b[0]);
    assert AtLevel(a, eb) == AtLevel(b, eb);
    assert AtLevel(b, ea) == AtLevel(a, ea);
    HeadBound(a, b);
    HeadBound(b, a);
    HeadLevel(a);
    HeadLevel(b);
    var la, lb := AtLevel(a, ea), AtLevel(b, ea);
    assert la[0] == a[0];
    assert lb[0] == b[0];
  }

  /** Two non-increasing sequences with the same terms at every energy level,
      in the same order, are equal. */
  lemma {:induction false} SameLevelsSameSequence(a: seq<Term>, b: seq<Term>)
    requires NonIncreasing(a) && NonIncreasing(b)
    requires forall e :: AtLevel(a, e) == AtLevel(b, e)
    ensures a == b
    decreases |a|
  {
    if |a| == 0 && |b| > 0 {
      OwnLevelNonEmpty(b, 0);
      assert false;
    } else if |a| > 0 && |b| == 0 {
      OwnLevelNonEmpty(a, 0);
      assert false;
    } else if |a| > 0 {
      SameHead(a, b);
      forall e
        ensures AtLevel(a[1..], e) == AtLevel(b[1..], e)
      {
        TailLevels(a, b, e);
      }
      NonIncreasingTail(a);
      NonIncreasingTail(b);
      SameLevelsSameSequence(a[1..], b[1..]);
      assert a == [a[0]] + a[1..] && b == [b[0]] + b[1..];
    }
  }

  /** Any stable descending sort of `s` returns exactly `SortByEnergy(s)`:
      the order the program obtains from its library sort is determined. */
  lemma StableSortIsUnique(s: seq<Term>, q: seq<Term>)
    requires NonIncreasing(q)
    requires forall e :: AtLevel(q, e) == AtLevel(s, e)
    ensures q == SortByEnergy(s)
  {
    forall e
      ensures AtLevel(q, e) == AtLevel(SortByEnergy(s), e)
    {
      SortIsStable(s, e);
    }
    SameLevelsSameSequence(q, SortByEnergy(s));
  }
}
