/** The quadratic program of the solver in the caller's order:
    minimise ½αᵀQα + pᵀα over 0 <= α_o <= C_o with yᵀα fixed. */
module SvmProblem {
  import opened Vectors

  const TAU: real := 0.000000000001

  datatype Problem = Problem(K: seq<seq<real>>, p: seq<real>, y: seq<int>, Cp: real, Cn: real) {
    ghost predicate Valid()
    {
      && |K| == |p| == |y|
      && Square(K) && Symmetric(K)
      && (forall o :: 0 <= o < |y| ==> y[o] == 1 || y[o] == -1)
      && 0.0 < Cp && 0.0 < Cn
    }

    function C(o: nat): real
      requires o < |y|
    {
      if y[o] > 0 then Cp else Cn
    }

    ghost predicate Feasible(A: seq<real>)
    {
      |A| == |y| && forall o :: 0 <= o < |A| ==> 0.0 <= A[o] <= C(o)
    }

    ghost function Grad(A: seq<real>, o: nat): real
      requires Valid() && |A| == |p| && o < |A|
    {
      p[o] + Dot(K[o], A)
    }

    ghost function Objective(A: seq<real>): real
      requires Valid() && |A| == |p|
    {
      0.5 * Quad(K, A) + Dot(p, A)
    }

    /** The labels as a real vector; restricted to one class when side is 1 or -1. */
    ghost function Labels(): seq<real>
    {
      seq(|y|, o requires 0 <= o < |y| => y[o] as real)
    }

    ghost function Ones(side: int): seq<real>
    {
      seq(|y|, o requires 0 <= o < |y| => if y[o] == side then 1.0 else 0.0)
    }

    /** yᵀα, the conserved quantity of every solver. */
    ghost function Balance(A: seq<real>): real
      requires |A| == |y|
    {
      Dot(Labels(), A)
    }

    /** The total alpha of one class, which the nu-solver conserves as well. */
    ghost function ClassSum(A: seq<real>, side: int): real
      requires |A| == |y|
    {
      Dot(Ones(side), A)
    }

    /** α_o may still move in the direction that raises y_o α_o. */
    ghost predicate Up(A: seq<real>, o: nat)
      requires |A| == |y| && o < |A|
    {
      if y[o] > 0 then A[o] < C(o) else A[o] > 0.0
    }

    ghost predicate Low(A: seq<real>, o: nat)
      requires |A| == |y| && o < |A|
    {
      if y[o] > 0 then A[o] > 0.0 else A[o] < C(o)
    }

    /** y_o∇_o: the quantity whose spread between movable variables the solver drives to zero. */
    ghost function Height(A: seq<real>, o: nat): real
      requires Valid() && |A| == |p| && o < |A|
    {
      (y[o] as real) * Grad(A, o)
    }

    /** How much the pair (i, j) violates optimality: -y_i ∇_i + y_j ∇_j. */
    ghost function Violation(A: seq<real>, i: nat, j: nat): real
      requires Valid() && |A| == |p| && i < |A| && j < |A|
    {
      Height(A, j) - Height(A, i)
    }

    /** No admissible pair violates optimality by eps or more; in the nu-problem only pairs of
        one class are admissible. */
    ghost predicate EpsOptimal(A: seq<real>, eps: real, nu: bool)
      requires Valid() && |A| == |p|
    {
      forall i, j :: 0 <= i < |A| && 0 <= j < |A| && Up(A, i) && Low(A, j) && (nu ==> y[i] == y[j])
        ==> Violation(A, i, j) < eps
    }

    /** The vector after a step of length t along the pair (i, j). */
    ghost function Stepped(A: seq<real>, i: nat, j: nat, t: real): seq<real>
      requires |A| == |y| && i < |A| && j < |A|
    {
      A[i := A[i] + (y[i] as real) * t][j := A[j] - (y[j] as real) * t]
    }

    /** Curvature of the objective along the pair. */
    ghost function Curvature(i: nat, j: nat): real
      requires Valid() && i < |y| && j < |y|
    {
      K[i][i] + K[j][j] - 2.0 * (y[i] * y[j]) as real * K[i][j]
    }

    /** U_o = C_o for the variables at their upper bound, 0 for the others. */
    ghost function UpperPart(A: seq<real>): seq<real>
      requires |A| == |y|
    {
      seq(|y|, o requires 0 <= o < |y| => if A[o] >= C(o) then C(o) else 0.0)
    }
  }

  /** The sums a feasible competitor shares with A. */
  ghost predicate SameSums(pr: Problem, A: seq<real>, B: seq<real>, nu: bool)
    requires pr.Valid() && |A| == |B| == |pr.p|
  {
    && pr.Balance(A) == pr.Balance(B)
    && (nu ==> pr.ClassSum(A, 1) == pr.ClassSum(B, 1) && pr.ClassSum(A, -1) == pr.ClassSum(B, -1))
  }

  /** A multiplier for each class: every movable variable respects it up to eps. */
  ghost predicate Multipliers(pr: Problem, A: seq<real>, eps: real, pos: real, neg: real)
    requires pr.Valid() && |A| == |pr.p|
  {
    forall o :: 0 <= o < |A| ==>
      var m := if pr.y[o] == 1 then pos else neg;
      (pr.Up(A, o) ==> m <= pr.Height(A, o)) && (pr.Low(A, o) ==> pr.Height(A, o) <= m + eps)
  }

  /** The offsets pos and neg separate what can move up from what can move down, up to eps. */
  ghost predicate Separated(pr: Problem, A: seq<real>, eps: real, pos: real, neg: real)
    requires pr.Valid() && |A| == |pr.p|
  {
    forall o :: 0 <= o < |A| ==>
      var m := if pr.y[o] == 1 then pos else neg;
      (pr.Up(A, o) ==> m - eps <= pr.Height(A, o)) && (pr.Low(A, o) ==> pr.Height(A, o) <= m + eps)
  }

  /** f + gd + ½kd². */
  function Parabola(f: real, g: real, k: real, d: real): real
  {
    f + d * g + 0.5 * d * d * k
  }

  /** Moving one coordinate changes the objective by d∇_i + ½d²Q_ii. */
  lemma ObjectiveShift(pr: Problem, A: seq<real>, i: nat, d: real)
    requires pr.Valid() && |A| == |pr.p| && i < |A|
    ensures pr.Objective(A[i := A[i] + d]) == Parabola(pr.Objective(A), pr.Grad(A, i), pr.K[i][i], d)
  {
    QuadUpdate(pr.K, A, i, d);
    DotShift(pr.p, A, i, d);
    ObjectiveTerms(Quad(pr.K, A), Dot(pr.K[i], A), pr.K[i][i], pr.p[i], Dot(pr.p, A), d);
  }

  lemma ObjectiveTerms(q: real, g: real, k: real, p: real, pa: real, d: real)
    ensures 0.5 * (q + 2.0 * d * g + d * d * k) + (pa + p * d) == Parabola(0.5 * q + pa, p + g, k, d)
  {
  }

  /** Moving two coordinates, one after the other. */
  lemma ObjectiveTwoShifts(pr: Problem, A: seq<real>, i: nat, j: nat, di: real, dj: real) returns (mid: real, gj: real)
    requires pr.Valid() && |A| == |pr.p| && i < |A| && j < |A| && i != j
    ensures mid == Parabola(pr.Objective(A), pr.Grad(A, i), pr.K[i][i], di)
    ensures gj == pr.Grad(A, j) + pr.K[i][j] * di
    ensures pr.Objective(A[i := A[i] + di][j := A[j] + dj]) == Parabola(mid, gj, pr.K[j][j], dj)
  {
    var B := A[i := A[i] + di];
    mid, gj := pr.Objective(B), pr.Grad(B, j);
    ObjectiveShift(pr, A, i, di);
    ObjectiveShift(pr, B, j, dj);
    DotShift(pr.K[j], A, i, di);
    assert pr.K[j][i] == pr.K[i][j];
  }

  /** Along the pair (i, j) the objective is the parabola -viol·t + ½curv·t². */
  lemma ObjectiveStepped(pr: Problem, A: seq<real>, i: nat, j: nat, t: real)
    requires pr.Valid() && |A| == |pr.p| && i < |A| && j < |A| && i != j
    ensures pr.Objective(pr.Stepped(A, i, j, t))
         == Parabola(pr.Objective(A), -pr.Violation(A, i, j), pr.Curvature(i, j), t)
  {
    hide Problem.Objective, Problem.Grad, Parabola;
    var di, dj := (pr.y[i] as real) * t, -((pr.y[j] as real) * t);
    var mid, gj := ObjectiveTwoShifts(pr, A, i, j, di, dj);
    var B, S := A[i := A[i] + di][j := A[j] + dj], pr.Stepped(A, i, j, t);
    assert S[i] == B[i];
    assert S[j] == B[j];
    assert S == B;
    SteppedTerms(pr.y[i], pr.y[j], t, di, dj, pr.Objective(A), pr.Grad(A, i), pr.Grad(A, j),
                 pr.K[i][i], pr.K[j][j], pr.K[i][j], mid, gj, pr.Violation(A, i, j), pr.Curvature(i, j));
  }

  lemma SteppedTerms(yi: int, yj: int, t: real, di: real, dj: real, f: real, gi: real, gj: real,
                     kii: real, kjj: real, kij: real, mid: real, gj': real, v: real, c: real)
    requires (yi == 1 || yi == -1) && (yj == 1 || yj == -1)
    requires di == (yi as real) * t && dj == -((yj as real) * t)
    requires v == (yj as real) * gj - (yi as real) * gi && c == kii + kjj - 2.0 * (yi * yj) as real * kij
    requires mid == Parabola(f, gi, kii, di) && gj' == gj + kij * di
    ensures Parabola(mid, gj', kjj, dj) == Parabola(f, -v, c, t)
  {
    if yi == 1 {
      assert di == t;
    } else {
      assert di == -t;
    }
    if yj == 1 {
      assert dj == -t;
    } else {
      assert dj == t;
    }
  }

  /** A step along a pair keeps yᵀα, and for a pair of one class the sum of each class. */
  lemma BalanceStepped(pr: Problem, A: seq<real>, i: nat, j: nat, t: real)
    requires pr.Valid() && |A| == |pr.p| && i < |A| && j < |A| && i != j
    ensures pr.Balance(pr.Stepped(A, i, j, t)) == pr.Balance(A)
    ensures pr.y[i] == pr.y[j] ==>
      forall side :: pr.ClassSum(pr.Stepped(A, i, j, t), side) == pr.ClassSum(A, side)
  {
    var di, dj := (pr.y[i] as real) * t, -((pr.y[j] as real) * t);
    var B := A[i := A[i] + di];
    assert pr.Stepped(A, i, j, t) == B[j := B[j] + dj];
    DotShift(pr.Labels(), A, i, di);
    DotShift(pr.Labels(), B, j, dj);
    if pr.y[i] == pr.y[j] {
      forall side
        ensures pr.ClassSum(pr.Stepped(A, i, j, t), side) == pr.ClassSum(A, side)
      {
        DotShift(pr.Ones(side), A, i, di);
        DotShift(pr.Ones(side), B, j, dj);
      }
    }
  }

  /** A clipped Newton step strictly lowers the objective, also when a non-positive curvature
      has been replaced by TAU. */
  lemma StepDescends(pr: Problem, A: seq<real>, i: nat, j: nat, quad: real, t: real)
    requires pr.Valid() && |A| == |pr.p| && i < |A| && j < |A| && i != j
    requires quad == if pr.Curvature(i, j) <= 0.0 then TAU else pr.Curvature(i, j)
    requires 0.0 < t <= pr.Violation(A, i, j) / quad
    ensures pr.Objective(pr.Stepped(A, i, j, t)) <= pr.Objective(A) - 0.5 * pr.Violation(A, i, j) * t
    ensures pr.Objective(pr.Stepped(A, i, j, t)) < pr.Objective(A)
  {
    ObjectiveStepped(pr, A, i, j, t);
    DescentTerms(pr.Objective(A), pr.Violation(A, i, j), pr.Curvature(i, j), quad, t);
  }

  /** The vertex of a parabola that opens upward is its lowest point. */
  lemma VertexIsLowest(f: real, v: real, k: real, t: real)
    requires k > 0.0
    ensures Parabola(f, -v, k, v / k) <= Parabola(f, -v, k, t)
    ensures Parabola(f, -v, k, v / k) == f - 0.5 * (v * v / k)
  {
    var u := v / k;
    assert v == u * k;
    assert v * v / k == u * v;
    VertexTerms(f, u, k, t);
  }

  lemma VertexTerms(f: real, u: real, k: real, t: real)
    requires k > 0.0
    ensures Parabola(f, -(u * k), k, u) == f - 0.5 * (u * (u * k))
    ensures Parabola(f, -(u * k), k, u) <= Parabola(f, -(u * k), k, t)
  {
    var s := (t - u) * (t - u);
    assert s >= 0.0;
    assert s * k >= 0.0;
    assert Parabola(f, -(u * k), k, t) - Parabola(f, -(u * k), k, u) == 0.5 * (s * k);
  }

  lemma DescentTerms(f: real, viol: real, curv: real, quad: real, t: real)
    requires quad == if curv <= 0.0 then TAU else curv
    requires 0.0 < t <= viol / quad
    ensures 0.0 < viol
    ensures Parabola(f, -viol, curv, t) <= f - 0.5 * viol * t < f
  {
    assert t * quad <= viol / quad * quad == viol;
    assert 0.0 < t * quad;
    if curv <= 0.0 {
      assert curv * (t * t) <= 0.0;
    } else {
      assert t * (t * quad) <= t * viol;
    }
    assert 0.0 < viol * t;
  }

  /** w_o = ∇_o + p_o, so that the objective is ½wᵀα. */
  ghost function ObjectiveWeights(pr: Problem, A: seq<real>): (w: seq<real>)
    requires pr.Valid() && |A| == |pr.p|
    ensures |w| == |A|
  {
    seq(|A|, o requires 0 <= o < |A| => pr.Grad(A, o) + pr.p[o])
  }

  lemma ObjectiveFromWeights(pr: Problem, A: seq<real>)
    requires pr.Valid() && |A| == |pr.p|
    ensures pr.Objective(A) == 0.5 * Dot(ObjectiveWeights(pr, A), A)
  {
    var w, Ka := ObjectiveWeights(pr, A), MatVec(pr.K, A);
    DotLinear(A, Ka, pr.p, w, 2.0);
    DotComm(A, w);
    DotComm(A, pr.p);
  }
}
