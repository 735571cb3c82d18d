/** Why the stopping rule of the solver is enough: on a convex problem an eps-optimal point is
    within eps·½Σ|β-α| of every feasible β with the same conserved sums. */
module SvmOptimality {
  import opened Vectors
  import opened SvmProblem

  ghost predicate PositiveSemidefinite(K: seq<seq<real>>)
    requires Square(K)
  {
    forall v: seq<real> :: |v| == |K| ==> Quad(K, v) >= 0.0
  }

  function Minus(b: seq<real>, a: seq<real>): seq<real>
    requires |a| == |b|
  {
    seq(|a|, k requires 0 <= k < |a| => b[k] - a[k])
  }

  /** Σ|v_k| over the first n coordinates. */
  function NormTo(v: seq<real>, n: nat): real
    requires n <= |v|
  {
    if n == 0 then 0.0 else NormTo(v, n - 1) + Abs(v[n - 1])
  }

  function Norm(v: seq<real>): real
  {
    NormTo(v, |v|)
  }

  /** The first n coordinates of a, the others 0. */
  function Head(a: seq<real>, n: nat): seq<real>
    requires n <= |a|
  {
    seq(|a|, k requires 0 <= k < |a| => if k < n then a[k] else 0.0)
  }

  /** aᵀ(Kb) = bᵀ(Ka) for symmetric K, one coordinate of a at a time. */
  lemma {:induction false} BilinearHead(K: seq<seq<real>>, a: seq<real>, b: seq<real>, n: nat)
    requires Square(K) && Symmetric(K) && |a| == |b| == |K| && n <= |a|
    ensures Dot(MatVec(K, b), Head(a, n)) == Dot(b, MatVec(K, Head(a, n)))
  {
    if n == 0 {
      DotToZero(MatVec(K, b), Head(a, 0), |a|);
      forall k | 0 <= k < |a|
        ensures MatVec(K, Head(a, 0))[k] == 0.0
      {
        DotToZero(K[k], Head(a, 0), |a|);
      }
      DotToZero(b, MatVec(K, Head(a, 0)), |a|);
    } else {
      BilinearHead(K, a, b, n - 1);
      var h, i := Head(a, n - 1), n - 1;
      assert Head(a, n) == h[i := h[i] + a[i]];
      DotShift(MatVec(K, b), h, i, a[i]);
      forall k | 0 <= k < |a| { MatVecShift(K, h, i, a[i], k); }
      DotLinear(b, MatVec(K, h), K[i], MatVec(K, Head(a, n)), a[i]);
      DotComm(b, K[i]);
    }
  }

  lemma MatVecMinus(K: seq<seq<real>>, a: seq<real>, b: seq<real>)
    requires Square(K) && |a| == |b| == |K|
    ensures forall k :: 0 <= k < |K| ==> MatVec(K, b)[k] == MatVec(K, a)[k] + 1.0 * MatVec(K, Minus(b, a))[k]
  {
    forall k | 0 <= k < |K|
      ensures MatVec(K, b)[k] == MatVec(K, a)[k] + 1.0 * MatVec(K, Minus(b, a))[k]
    {
      DotLinear(K[k], a, Minus(b, a), b, 1.0);
    }
  }

  /** Second-order expansion of the quadratic form around a. */
  lemma QuadExpansion(K: seq<seq<real>>, a: seq<real>, b: seq<real>)
    requires Square(K) && Symmetric(K) && |a| == |b| == |K|
    ensures Quad(K, b) == Quad(K, a) + 2.0 * Dot(MatVec(K, a), Minus(b, a)) + Quad(K, Minus(b, a))
  {
    var d := Minus(b, a);
    var Ka, Kd := MatVec(K, a), MatVec(K, d);
    MatVecMinus(K, a, b);
    DotLinear(b, Ka, Kd, MatVec(K, b), 1.0);
    DotComm(b, Ka);
    DotLinear(Ka, a, d, b, 1.0);
    DotComm(a, Ka);
    DotComm(b, Kd);
    DotLinear(Kd, a, d, b, 1.0);
    DotComm(d, Kd);
    BilinearHead(K, d, a, |d|);
    assert Head(d, |d|) == d;
    DotComm(a, Kd);
  }

  ghost function Gradient(pr: Problem, A: seq<real>): seq<real>
    requires pr.Valid() && |A| == |pr.p|
  {
    seq(|A|, o requires 0 <= o < |A| => pr.Grad(A, o))
  }

  lemma ObjectiveExpansion(pr: Problem, A: seq<real>, B: seq<real>)
    requires pr.Valid() && |A| == |B| == |pr.p|
    ensures pr.Objective(B) == pr.Objective(A) + Dot(Minus(B, A), Gradient(pr, A)) + 0.5 * Quad(pr.K, Minus(B, A))
  {
    var d := Minus(B, A);
    QuadExpansion(pr.K, A, B);
    DotLinear(pr.p, A, d, B, 1.0);
    DotLinear(d, pr.p, MatVec(pr.K, A), Gradient(pr, A), 1.0);
    DotComm(d, pr.p);
    DotComm(d, MatVec(pr.K, A));
  }

  /** The signed multipliers as a vector. */
  ghost function Signed(pr: Problem, pos: real, neg: real): seq<real>
  {
    seq(|pr.y|, o requires 0 <= o < |pr.y| => if pr.y[o] == 1 then pos else -neg)
  }

  /** ½eps(s - a): what the multipliers may be off by when the steps add up to s and their sizes to a. */
  function Slack(eps: real, a: real, s: real): real
  {
    0.5 * eps * (s - a)
  }

  lemma SlackAdds(eps: real, a: real, b: real, s: real, t: real)
    ensures Slack(eps, a + b, s + t) == Slack(eps, a, s) + Slack(eps, b, t)
  {
  }

  function TotalTo(c: seq<real>, n: nat): real
    requires n <= |c|
  {
    if n == 0 then 0.0 else TotalTo(c, n - 1) + c[n - 1]
  }

  /** d·g against d·m for a variable with label l, when the multiplier m bounds its gradient g. */
  lemma DirectionTerm(l: real, g: real, m: real, eps: real, d: real)
    requires l == 1.0 || l == -1.0
    requires d > 0.0 ==> m - (if l == 1.0 then 0.0 else eps) <= g
    requires d < 0.0 ==> g <= m + if l == 1.0 then eps else 0.0
    ensures Bounded(d, g, m, Slack(eps, Abs(d), l * d))
  {
    hide Slack;
    if l == 1.0 {
      assert l * d == d;
      SignedTerm(g, m, eps, d);
    } else {
      assert l * d == -d;
      SignedTerm(-g, -m, eps, -d);
      assert (-d) * (-g) == d * g && (-m) * (-d) == m * d;
    }
  }

  lemma SignedTerm(h: real, m: real, eps: real, s: real)
    requires s > 0.0 ==> m <= h
    requires s < 0.0 ==> h <= m + eps
    ensures s * h >= m * s + Slack(eps, Abs(s), s)
  {
    if s >= 0.0 {
      ProductOrder(s, m, h);
    } else {
      ProductOrder(-s, h, m + eps);
    }
  }

  lemma ProductOrder(s: real, a: real, b: real)
    requires 0.0 <= s && (s == 0.0 || a <= b)
    ensures s * a <= s * b
  {
  }

  predicate Bounded(d: real, g: real, m: real, c: real)
  {
    d * g >= m * d + c
  }

  /** A bound at every place adds up to the same bound on the sums. */
  lemma {:induction false} SumBound(d: seq<real>, g: seq<real>, m: seq<real>, c: seq<real>, n: nat)
    requires |d| == |g| == |m| == |c| && n <= |d|
    requires forall o :: 0 <= o < n ==> Bounded(d[o], g[o], m[o], c[o])
    ensures DotTo(d, g, n) >= DotTo(m, d, n) + TotalTo(c, n)
  {
    if n > 0 {
      SumBound(d, g, m, c, n - 1);
    }
  }

  lemma {:induction false} SlackTotal(d: seq<real>, lab: seq<real>, eps: real, c: seq<real>, n: nat)
    requires |d| == |lab| == |c| && n <= |d|
    requires forall o :: 0 <= o < n ==> c[o] == Slack(eps, Abs(d[o]), lab[o] * d[o])
    ensures TotalTo(c, n) == Slack(eps, NormTo(d, n), DotTo(lab, d, n))
  {
    if n > 0 {
      hide Slack, Abs;
      var o := n - 1;
      var a, s := Abs(d[o]), lab[o] * d[o];
      SlackTotal(d, lab, eps, c, o);
      SlackAdds(eps, NormTo(d, o), a, DotTo(lab, d, o), s);
      assert NormTo(d, n) == NormTo(d, o) + a;
      assert DotTo(lab, d, n) == DotTo(lab, d, o) + s;
    }
  }

  /** Along a feasible direction the first-order change is bounded below. */
  lemma FirstOrder(pr: Problem, A: seq<real>, B: seq<real>, eps: real, pos: real, neg: real)
    requires pr.Valid() && pr.Feasible(A) && pr.Feasible(B) && 0.0 <= eps
    requires Multipliers(pr, A, eps, pos, neg)
    ensures Dot(Minus(B, A), Gradient(pr, A)) >= Dot(Signed(pr, pos, neg), Minus(B, A))
      + Slack(eps, Norm(Minus(B, A)), Dot(pr.Labels(), Minus(B, A)))
  {
    hide Bounded, Multipliers, Problem.Grad, Slack, Abs, NormTo, DotTo, Problem.Feasible, Problem.Valid, Minus, Signed,
      Gradient,
      Problem.Labels, SlackTerms, TotalTo;
    FirstOrderSizes(pr, A, B, pos, neg);
    var d, lab, n := Minus(B, A), pr.Labels(), |A|;
    var c := SlackTerms(eps, d, lab);
    forall o | 0 <= o < n
      ensures Bounded(d[o], Gradient(pr, A)[o], Signed(pr, pos, neg)[o], c[o])
      ensures c[o] == Slack(eps, Abs(d[o]), lab[o] * d[o])
    {
      FirstOrderAt(pr, A, B, eps, pos, neg, o);
      SlackTermIs(eps, d, lab, o);
    }
    SumBound(d, Gradient(pr, A), Signed(pr, pos, neg), c, n);
    SlackTotal(d, lab, eps, c, n);
  }

  lemma FirstOrderSizes(pr: Problem, A: seq<real>, B: seq<real>, pos: real, neg: real)
    requires pr.Valid() && pr.Feasible(A) && pr.Feasible(B)
    ensures |A| == |B| == |pr.p| == |pr.y| == |pr.Labels()| == |Signed(pr, pos, neg)| == |Gradient(pr, A)|
            == |Minus(B, A)|
  {
  }

  ghost function SlackTerms(eps: real, d: seq<real>, lab: seq<real>): (c: seq<real>)
    requires |d| == |lab|
    ensures |c| == |d|
  {
    seq(|d|, o requires 0 <= o < |d| => SlackTerm(eps, d, lab, o))
  }

  ghost function SlackTerm(eps: real, d: seq<real>, lab: seq<real>, o: nat): real
    requires |d| == |lab| && o < |d|
  {
    Slack(eps, Abs(d[o]), lab[o] * d[o])
  }

  lemma SlackTermIs(eps: real, d: seq<real>, lab: seq<real>, o: nat)
    requires |d| == |lab| && o < |d|
    ensures SlackTerms(eps, d, lab)[o] == SlackTerm(eps, d, lab, o) == Slack(eps, Abs(d[o]), lab[o] * d[o])
  {
  }

  /** What the multiplier of a variable bounds when the variable moves inside its box. */
  lemma MultiplierAt(pr: Problem, A: seq<real>, B: seq<real>, eps: real, pos: real, neg: real, o: nat)
    requires pr.Valid() && pr.Feasible(A) && pr.Feasible(B) && o < |A| && Multipliers(pr, A, eps, pos, neg)
    ensures var m := if pr.y[o] == 1 then pos else -neg;
      && (B[o] > A[o] ==> m - (if pr.y[o] == 1 then 0.0 else eps) <= pr.Grad(A, o))
      && (B[o] < A[o] ==> pr.Grad(A, o) <= m + if pr.y[o] == 1 then eps else 0.0)
  {
    hide Problem.Grad;
    var m := if pr.y[o] == 1 then pos else neg;
    assert pr.Up(A, o) ==> m <= pr.Height(A, o);
    assert pr.Low(A, o) ==> pr.Height(A, o) <= m + eps;
    if pr.y[o] == 1 {
      assert pr.Height(A, o) == pr.Grad(A, o);
    } else {
      assert pr.Height(A, o) == -pr.Grad(A, o);
    }
  }

  lemma FirstOrderAt(pr: Problem, A: seq<real>, B: seq<real>, eps: real, pos: real, neg: real, o: nat)
    requires pr.Valid() && pr.Feasible(A) && pr.Feasible(B) && 0.0 <= eps && o < |A|
    requires Multipliers(pr, A, eps, pos, neg)
    ensures |Minus(B, A)| == |Gradient(pr, A)| == |Signed(pr, pos, neg)| == |pr.Labels()| == |A|
    ensures Bounded(Minus(B, A)[o], Gradient(pr, A)[o], Signed(pr, pos, neg)[o],
                    Slack(eps, Abs(Minus(B, A)[o]), pr.Labels()[o] * Minus(B, A)[o]))
  {
    hide Bounded, Slack, Abs, Problem.Grad, Problem.Feasible, Multipliers;
    FirstOrderSizes(pr, A, B, pos, neg);
    MultiplierAt(pr, A, B, eps, pos, neg, o);
    DirectionTerm(pr.Labels()[o], Gradient(pr, A)[o], Signed(pr, pos, neg)[o], eps, Minus(B, A)[o]);
  }

  lemma LabelsCancel(pr: Problem, A: seq<real>, B: seq<real>, nu: bool, pos: real, neg: real)
    requires pr.Valid() && |A| == |B| == |pr.p| && SameSums(pr, A, B, nu)
    requires nu || pos == neg
    ensures Dot(pr.Labels(), Minus(B, A)) == 0.0
    ensures Dot(Signed(pr, pos, neg), Minus(B, A)) == 0.0
  {
    hide Dot;
    MinusCancels(pr.Labels(), A, B);
    if nu {
      MinusCancels(pr.Ones(1), A, B);
      MinusCancels(pr.Ones(-1), A, B);
      CombinationCancels(Signed(pr, pos, neg), pr.Ones(1), pr.Ones(-1), pos, -neg, Minus(B, A));
    } else {
      CombinationCancels(Signed(pr, pos, neg), pr.Labels(), pr.Labels(), pos, 0.0, Minus(B, A));
    }
  }

  lemma MinusCancels(w: seq<real>, A: seq<real>, B: seq<real>)
    requires |w| == |A| == |B| && Dot(w, A) == Dot(w, B)
    ensures Dot(w, Minus(B, A)) == 0.0
  {
    DotLinear(w, A, Minus(B, A), B, 1.0);
  }

  lemma CombinationCancels(m: seq<real>, u: seq<real>, v: seq<real>, s: real, t: real, d: seq<real>)
    requires |m| == |u| == |v| == |d| && Dot(u, d) == 0.0 && Dot(v, d) == 0.0
    requires forall k :: 0 <= k < |m| ==> m[k] == s * u[k] + t * v[k]
    ensures Dot(m, d) == 0.0
  {
    hide Dot;
    var zero := seq(|d|, k => 0.0);
    var half := seq(|d|, k requires 0 <= k < |d| => s * u[k]);
    DotWithZero(d, zero);
    DotComm(u, d);
    DotComm(v, d);
    DotLinear(d, zero, u, half, s);
    DotLinear(d, half, v, m, t);
    DotComm(d, m);
  }

  lemma DotWithZero(a: seq<real>, b: seq<real>)
    requires |a| == |b| && forall k :: 0 <= k < |b| ==> b[k] == 0.0
    ensures Dot(a, b) == 0.0
  {
    DotToZero(a, b, |a|);
  }

  /** Near-optimality from multipliers. */
  lemma MultipliersBoundGap(pr: Problem, A: seq<real>, B: seq<real>, eps: real, nu: bool, pos: real, neg: real)
    requires pr.Valid() && pr.Feasible(A) && pr.Feasible(B) && 0.0 <= eps
    requires PositiveSemidefinite(pr.K) && SameSums(pr, A, B, nu)
    requires Multipliers(pr, A, eps, pos, neg) && (nu || pos == neg)
    ensures pr.Objective(A) <= pr.Objective(B) + eps * (0.5 * Norm(Minus(B, A)))
  {
    hide Problem.Objective, Problem.Feasible, Problem.Labels, Multipliers, SameSums, Gradient, Signed, Quad, Dot,
      Norm, Slack;
    FirstOrderSizes(pr, A, B, pos, neg);
    var d := Minus(B, A);
    ObjectiveExpansion(pr, A, B);
    FirstOrder(pr, A, B, eps, pos, neg);
    LabelsCancel(pr, A, B, nu, pos, neg);
    SlackHalf(eps, Norm(d));
    assert Quad(pr.K, d) >= 0.0;
  }

  lemma SlackHalf(eps: real, a: real)
    ensures Slack(eps, a, 0.0) == -(eps * (0.5 * a))
  {
  }

  /** The lowest movable-up variable among the first n of the class `side` (0: of both). */
  lemma LowestUp(pr: Problem, A: seq<real>, side: int, n: nat) returns (best: int)
    requires pr.Valid() && |A| == |pr.p| && n <= |A|
    ensures -1 <= best < n
    ensures best >= 0 ==> pr.Up(A, best) && (side == 0 || pr.y[best] == side)
    ensures forall o :: 0 <= o < n && pr.Up(A, o) && (side == 0 || pr.y[o] == side) ==>
      best >= 0 && pr.Height(A, best) <= pr.Height(A, o)
  {
    best := -1;
    for k := 0 to n
      invariant -1 <= best < k
      invariant best >= 0 ==> pr.Up(A, best) && (side == 0 || pr.y[best] == side)
      invariant forall o :: 0 <= o < k && pr.Up(A, o) && (side == 0 || pr.y[o] == side) ==>
        best >= 0 && pr.Height(A, best) <= pr.Height(A, o)
    {
      if pr.Up(A, k) && (side == 0 || pr.y[k] == side) && (best < 0 || pr.Height(A, k) < pr.Height(A, best)) {
        best := k;
      }
    }
  }

  lemma HighestLow(pr: Problem, A: seq<real>, n: nat) returns (m: real)
    requires pr.Valid() && |A| == |pr.p| && n <= |A|
    ensures forall o :: 0 <= o < n ==> pr.Height(A, o) <= m
  {
    m := 0.0;
    for k := 0 to n
      invariant forall o :: 0 <= o < k ==> pr.Height(A, o) <= m
    {
      if pr.Height(A, k) > m {
        m := pr.Height(A, k);
      }
    }
  }

  lemma ClassMultiplier(pr: Problem, A: seq<real>, eps: real, nu: bool, side: int) returns (m: real)
    requires pr.Valid() && |A| == |pr.p| && 0.0 <= eps && pr.EpsOptimal(A, eps, nu)
    requires if nu then side == 1 || side == -1 else side == 0
    ensures forall o :: 0 <= o < |A| && (side == 0 || pr.y[o] == side) ==>
      (pr.Up(A, o) ==> m <= pr.Height(A, o)) && (pr.Low(A, o) ==> pr.Height(A, o) <= m + eps)
  {
    var best := LowestUp(pr, A, side, |A|);
    if best >= 0 {
      m := pr.Height(A, best);
      forall o | 0 <= o < |A| && (side == 0 || pr.y[o] == side) && pr.Low(A, o)
        ensures pr.Height(A, o) <= m + eps
      {
        assert pr.Violation(A, best, o) < eps;
      }
    } else {
      m := HighestLow(pr, A, |A|);
    }
  }

  /** A point at which no admissible pair violates optimality by eps has multipliers. */
  lemma OptimalHasMultipliers(pr: Problem, A: seq<real>, eps: real, nu: bool) returns (pos: real, neg: real)
    requires pr.Valid() && |A| == |pr.p| && 0.0 <= eps && pr.EpsOptimal(A, eps, nu)
    ensures Multipliers(pr, A, eps, pos, neg) && (nu || pos == neg)
  {
    if nu {
      pos := ClassMultiplier(pr, A, eps, nu, 1);
      neg := ClassMultiplier(pr, A, eps, nu, -1);
    } else {
      pos := ClassMultiplier(pr, A, eps, nu, 0);
      neg := pos;
    }
  }

  /** The meaning of the stopping rule: an eps-optimal point of a convex problem is within
      eps·½Σ|β-α| of every feasible competitor β with the same conserved sums. */
  lemma StoppingRuleBoundsGap(pr: Problem, A: seq<real>, B: seq<real>, eps: real, nu: bool)
    requires pr.Valid() && pr.Feasible(A) && pr.Feasible(B) && 0.0 <= eps
    requires PositiveSemidefinite(pr.K) && SameSums(pr, A, B, nu)
    requires pr.EpsOptimal(A, eps, nu)
    ensures pr.Objective(A) <= pr.Objective(B) + eps * (0.5 * Norm(Minus(B, A)))
  {
    var pos, neg := OptimalHasMultipliers(pr, A, eps, nu);
    MultipliersBoundGap(pr, A, B, eps, nu, pos, neg);
  }
}
