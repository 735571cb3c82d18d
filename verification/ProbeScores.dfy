/** The probabilities of offset vectors, and when no step down the probe tree raises them. */
module ProbeScores {
  import opened ProbeTree

  /** prs[i][o] is the probability of choice o in component i. */
  ghost predicate Model(prs: seq<seq<real>>, range: seq<nat>)
  {
    |prs| == |range| && forall i :: 0 <= i < |prs| ==> |prs[i]| == range[i]
  }

  /** Product of the chosen probabilities over the first n components. */
  function Pr(prs: seq<seq<real>>, off: Offsets, n: nat): real
    requires n <= |off| == |prs| && forall i :: 0 <= i < |off| ==> off[i] < |prs[i]|
  {
    if n == 0 then 1.0 else Pr(prs, off, n - 1) * prs[n - 1][off[n - 1]]
  }

  method SetPr(prs: seq<seq<real>>, off: Offsets) returns (pr: real)
    requires |off| == |prs| && forall i :: 0 <= i < |off| ==> off[i] < |prs[i]|
    ensures pr == Pr(prs, off, |off|)
  {
    pr := 1.0;
    for i := 0 to |off|
      invariant pr == Pr(prs, off, i)
    {
      pr := pr * prs[i][off[i]];
    }
  }

  ghost predicate Fits(prs: seq<seq<real>>, off: Offsets)
  {
    |off| == |prs| && forall i :: 0 <= i < |off| ==> off[i] < |prs[i]|
  }

  ghost function Score(prs: seq<seq<real>>, off: Offsets): real
    requires Fits(prs, off)
  {
    Pr(prs, off, |off|)
  }

  // ---- steps down the tree ----

  /** The choices of every component are listed by falling probability, the first of them not impossible. */
  ghost predicate Falling(prs: seq<seq<real>>)
  {
    && (forall i, o :: 0 <= i < |prs| && 0 <= o < |prs[i]| ==> prs[i][o] >= 0.0)
    && (forall i, o :: 0 <= i < |prs| && 0 < o < |prs[i]| ==> prs[i][o] <= prs[i][o - 1])
    && (forall i :: 0 <= i < |prs| && |prs[i]| > 0 ==> prs[i][0] > 0.0)
  }

  /** Second choices lose by more and more against the first ones: p1/p0 falls from component to component. */
  ghost predicate RatiosFall(prs: seq<seq<real>>)
  {
    forall l :: 0 <= l < |prs| - 1 && |prs[l + 1]| > 1 ==> RatioFalls(prs, l)
  }

  ghost predicate RatioFalls(prs: seq<seq<real>>, l: nat)
    requires l + 1 < |prs|
  {
    |prs[l]| > 1 && |prs[l + 1]| > 1 && prs[l][0] * prs[l + 1][1] <= prs[l][1] * prs[l + 1][0]
  }

  function Times(a: real, b: real): real
  {
    a * b
  }

  /** The product over the first n components without i and j. */
  ghost function Others(prs: seq<seq<real>>, off: Offsets, n: nat, i: nat, j: nat): real
    requires n <= |off| && Fits(prs, off)
  {
    if n == 0 then 1.0
    else Times(Others(prs, off, n - 1, i, j), if n - 1 == i || n - 1 == j then 1.0 else prs[n - 1][off[n - 1]])
  }

  lemma {:induction false} OthersSign(prs: seq<seq<real>>, off: Offsets, n: nat, i: nat, j: nat)
    requires n <= |off| && Fits(prs, off) && Falling(prs)
    ensures Others(prs, off, n, i, j) >= 0.0
    ensures (forall k :: 0 <= k < n && k != i && k != j ==> off[k] == 0) ==> Others(prs, off, n, i, j) > 0.0
  {
    if n > 0 {
      hide Times;
      OthersSign(prs, off, n - 1, i, j);
      var a, b := Others(prs, off, n - 1, i, j), if n - 1 == i || n - 1 == j then 1.0 else prs[n - 1][off[n - 1]];
      ProductSign(a, b);
    }
  }

  lemma ProductSign(a: real, b: real)
    requires a >= 0.0 && b >= 0.0
    ensures Times(a, b) >= 0.0 && (a > 0.0 && b > 0.0 ==> Times(a, b) > 0.0)
  {
  }

  lemma {:induction false} OthersSame(prs: seq<seq<real>>, off: Offsets, off': Offsets, n: nat, i: nat, j: nat)
    requires n <= |off| && Fits(prs, off) && Fits(prs, off')
    requires forall k :: 0 <= k < n && k != i && k != j ==> off[k] == off'[k]
    ensures Others(prs, off, n, i, j) == Others(prs, off', n, i, j)
  {
    if n > 0 {
      OthersSame(prs, off, off', n - 1, i, j);
    }
  }

  /** The probability is what two components contribute times the others. */
  lemma {:induction false} Factored(prs: seq<seq<real>>, off: Offsets, n: nat, i: nat, j: nat)
    requires n <= |off| && Fits(prs, off) && i < j
    ensures Pr(prs, off, n) == Others(prs, off, n, i, j)
            * ((if i < n then prs[i][off[i]] else 1.0) * (if j < n then prs[j][off[j]] else 1.0))
  {
    if n > 0 {
      Factored(prs, off, n - 1, i, j);
      var m := n - 1;
      FactorNext(Others(prs, off, m, i, j), if i < m then prs[i][off[i]] else 1.0,
                 if j < m then prs[j][off[j]] else 1.0, prs[m][off[m]]);
    }
  }

  lemma FactorNext(a: real, x: real, y: real, z: real)
    ensures a * (x * y) * z == a * z * (x * y)
    ensures a * (x * 1.0) * z == a * 1.0 * (x * z) && a * (1.0 * 1.0) * z == a * 1.0 * (z * 1.0)
  {
  }

  /** What components i and j contribute; j may lie beyond the last one. */
  ghost function Share(prs: seq<seq<real>>, off: Offsets, i: nat, j: nat): real
    requires Fits(prs, off) && i < |off|
  {
    prs[i][off[i]] * if j < |off| then prs[j][off[j]] else 1.0
  }

  /** Vectors that differ in two components compare like the shares of these components. */
  lemma TwoChange(prs: seq<seq<real>>, off: Offsets, off': Offsets, i: nat, j: nat)
    requires Fits(prs, off) && Fits(prs, off') && Falling(prs) && i < j && i < |off|
    requires forall k :: 0 <= k < |off| && k != i && k != j ==> off[k] == off'[k]
    ensures Share(prs, off', i, j) <= Share(prs, off, i, j) ==> Score(prs, off') <= Score(prs, off)
    ensures (forall k :: 0 <= k < |off| && k != i && k != j ==> off[k] == 0) && Score(prs, off') <= Score(prs, off)
            ==> Share(prs, off', i, j) <= Share(prs, off, i, j)
  {
    hide *;
    FitsSize(prs, off);
    FitsSize(prs, off');
    var n := |off|;
    OthersSign(prs, off, n, i, j);
    OthersSame(prs, off, off', n, i, j);
    ScoreFactored(prs, off, i, j);
    ScoreFactored(prs, off', i, j);
    ScaledOrder(Others(prs, off, n, i, j), Share(prs, off', i, j), Share(prs, off, i, j));
  }

  lemma FitsSize(prs: seq<seq<real>>, off: Offsets)
    requires Fits(prs, off)
    ensures |off| == |prs| && forall i :: 0 <= i < |off| ==> off[i] < |prs[i]|
  {
  }

  lemma ScoreFactored(prs: seq<seq<real>>, off: Offsets, i: nat, j: nat)
    requires Fits(prs, off) && i < j && i < |off|
    ensures Score(prs, off) == Times(Others(prs, off, |off|, i, j), Share(prs, off, i, j))
  {
    Factored(prs, off, |off|, i, j);
  }

  lemma ProbesFit(prs: seq<seq<real>>, range: seq<nat>, p: Probe)
    requires Model(prs, range) && p.Valid(range)
    ensures Fits(prs, p.off)
  {
  }

  lemma ScaledOrder(r: real, a: real, b: real)
    requires r >= 0.0
    ensures a <= b ==> Times(r, a) <= Times(r, b)
    ensures r > 0.0 && Times(r, a) <= Times(r, b) ==> a <= b
  {
  }

  /** What a probe is produced from is at least as probable. */
  lemma ChildIsNoBetter(prs: seq<seq<real>>, range: seq<nat>, p: Probe, c: Probe)
    requires Box(range) && Model(prs, range) && Falling(prs) && RatiosFall(prs) && Child(range, p, c)
    ensures p.Valid(range) && c.Valid(range) && Fits(prs, p.off) && Fits(prs, c.off)
    ensures Score(prs, c.off) <= Score(prs, p.off)
  {
    ChildHasParent(range, p, c);
    ProbesFit(prs, range, p);
    ProbesFit(prs, range, c);
    hide Score, Parent;
    var l := p.last;
    if c.last == l {
      TwoChange(prs, p.off, c.off, l, |p.off|);
    } else if c.off[l] > 0 {
      TwoChange(prs, p.off, c.off, l + 1, |p.off|);
    } else {
      assert RatioFalls(prs, l);
      TwoChange(prs, p.off, c.off, l, l + 1);
    }
  }

  /** No probe is less probable than one it produces. */
  ghost predicate NeverRises(prs: seq<seq<real>>, range: seq<nat>)
    requires Model(prs, range)
  {
    forall p, c :: Child(range, p, c) && c.Valid(range) ==>
      Fits(prs, c.off) && Fits(prs, p.off) && Score(prs, c.off) <= Score(prs, p.off)
  }

  /** The vector with a single second choice, at l. */
  function Unit(n: nat, l: nat): Probe
    requires l < n
  {
    Probe(seq(n, k => if k == l then 1 else 0), l)
  }

  /** Probability falls down the whole tree exactly when the second choices are sorted by what they lose
      against the first ones. */
  lemma RatiosExactly(prs: seq<seq<real>>, range: seq<nat>)
    requires Box(range) && Model(prs, range) && Falling(prs)
    ensures NeverRises(prs, range) <==> RatiosFall(prs)
  {
    if RatiosFall(prs) {
      forall p, c | Child(range, p, c)
        ensures Fits(prs, c.off) && Fits(prs, p.off) && Score(prs, c.off) <= Score(prs, p.off)
      {
        ChildIsNoBetter(prs, range, p, c);
      }
    }
    if NeverRises(prs, range) {
      forall l: nat | l < |prs| - 1 && |prs[l + 1]| > 1
        ensures RatioFalls(prs, l)
      {
        UnitShift(prs, range, l);
      }
    }
  }

  lemma UnitProbe(prs: seq<seq<real>>, range: seq<nat>, l: nat)
    requires Box(range) && Model(prs, range) && l + 1 < |prs| && |prs[l + 1]| > 1
    ensures Child(range, Unit(|range|, l), Unit(|range|, l + 1)) && Unit(|range|, l + 1).Valid(range)
  {
    assert range[l] > 1;
    var p := Unit(|range|, l);
    assert p.Shift().off == Unit(|range|, l + 1).off;
  }

  lemma UnitShares(prs: seq<seq<real>>, n: nat, l: nat)
    requires l + 1 < n == |prs| && Fits(prs, Unit(n, l).off) && Fits(prs, Unit(n, l + 1).off)
    ensures |prs[l]| > 1 && |prs[l + 1]| > 1
    ensures Share(prs, Unit(n, l + 1).off, l, l + 1) == prs[l][0] * prs[l + 1][1]
    ensures Share(prs, Unit(n, l).off, l, l + 1) == prs[l][1] * prs[l + 1][0]
  {
  }

  lemma UnitShift(prs: seq<seq<real>>, range: seq<nat>, l: nat)
    requires Box(range) && Model(prs, range) && Falling(prs) && NeverRises(prs, range)
    requires l + 1 < |prs| && |prs[l + 1]| > 1
    ensures RatioFalls(prs, l)
  {
    UnitProbe(prs, range, l);
    var p, c := Unit(|range|, l), Unit(|range|, l + 1);
    hide Score, Falling, Share, Child, Probe.Valid, Box, Fits;
    assert Fits(prs, c.off) && Fits(prs, p.off) && Score(prs, c.off) <= Score(prs, p.off);
    TwoChange(prs, p.off, c.off, l, l + 1);
    UnitShares(prs, |range|, l);
  }
}
