/** multiclass_probability: coupling pairwise probabilities by coordinate steps that keep a probability
    vector and its incrementally updated quadratic form. */
module ProbabilityCoupling {
  import opened Vectors

  /** Pairwise probabilities strictly between 0 and 1; r[i][j] and r[j][i] add up to 1. */
  ghost predicate Pairwise(r: seq<seq<real>>)
  {
    && (forall i :: 0 <= i < |r| ==> |r[i]| == |r|)
    && forall i, j :: 0 <= i < |r| && 0 <= j < |r| && i != j ==> Complementary(r, i, j)
  }

  ghost predicate Complementary(r: seq<seq<real>>, i: nat, j: nat)
    requires i < |r| && j < |r| && |r[i]| == |r| == |r[j]|
  {
    0.0 < r[i][j] < 1.0 && r[j][i] == 1.0 - r[i][j]
  }

  /** Σ_{j<n, j≠t} r_jt². */
  function Diagonal(r: seq<seq<real>>, t: nat, n: nat): real
    requires (forall i :: 0 <= i < |r| ==> |r[i]| == |r|) && t < |r| && n <= |r|
  {
    if n == 0 then 0.0 else Diagonal(r, t, n - 1) + if n - 1 == t then 0.0 else r[n - 1][t] * r[n - 1][t]
  }

  /** The matrix of the coupling objective. */
  ghost predicate Couples(r: seq<seq<real>>, Q: seq<seq<real>>)
    requires forall i :: 0 <= i < |r| ==> |r[i]| == |r|
  {
    && |Q| == |r| && Square(Q)
    && forall t, j :: 0 <= t < |r| && 0 <= j < |r| ==> Entry(r, Q, t, j)
  }

  /** Entry (t, j) of the matrix. */
  ghost predicate Entry(r: seq<seq<real>>, Q: seq<seq<real>>, t: nat, j: nat)
    requires (forall i :: 0 <= i < |r| ==> |r[i]| == |r|) && t < |r| && j < |r| && t < |Q| && |Q[t]| == |r|
  {
    Q[t][j] == if j == t then Diagonal(r, t, |r|) else -r[j][t] * r[t][j]
  }

  // ---- the quadratic form is a sum of squares ----

  /** One ordered pair's share of pᵀQp. */
  function Share(r: seq<seq<real>>, p: seq<real>, t: nat, j: nat): real
    requires (forall i :: 0 <= i < |r| ==> |r[i]| == |r|) && |p| == |r| && t < |r| && j < |r|
  {
    if j == t then 0.0 else p[t] * GapOf(p[t], p[j], r[j][t], r[t][j])
  }

  function RowShares(r: seq<seq<real>>, p: seq<real>, t: nat, n: nat): real
    requires (forall i :: 0 <= i < |r| ==> |r[i]| == |r|) && |p| == |r| && t < |r| && n <= |r|
  {
    if n == 0 then 0.0 else RowShares(r, p, t, n - 1) + Share(r, p, t, n - 1)
  }

  function AllShares(r: seq<seq<real>>, p: seq<real>, m: nat, n: nat): real
    requires (forall i :: 0 <= i < |r| ==> |r[i]| == |r|) && |p| == |r| && m <= |r| && n <= |r|
  {
    if m == 0 then 0.0 else AllShares(r, p, m - 1, n) + RowShares(r, p, m - 1, n)
  }

  lemma PairIsSquare(r: seq<seq<real>>, p: seq<real>, t: nat, j: nat)
    requires (forall i :: 0 <= i < |r| ==> |r[i]| == |r|) && |p| == |r| && t < |r| && j < |r|
    ensures Share(r, p, t, j) + Share(r, p, j, t) >= 0.0
  {
    if t != j {
      SquareOfDifference(p[t], p[j], r[j][t], r[t][j]);
    }
  }

  lemma SquareOfDifference(a: real, b: real, x: real, y: real)
    ensures a * (x * (x * a - y * b)) + b * (y * (y * b - x * a)) >= 0.0
  {
    var d := x * a - y * b;
    assert a * (x * d) == (x * a) * d && b * (y * -d) == -(y * b) * d;
    assert d * d >= 0.0;
  }

  /** One more column adds the shares toward it; one more row those from it. */
  lemma {:induction false} NextColumn(r: seq<seq<real>>, p: seq<real>, m: nat, n: nat)
    requires (forall i :: 0 <= i < |r| ==> |r[i]| == |r|) && |p| == |r| && m <= n < |r|
    ensures AllShares(r, p, m, n + 1) + RowShares(r, p, n, m) >= AllShares(r, p, m, n)
  {
    if m > 0 {
      NextColumn(r, p, m - 1, n);
      PairIsSquare(r, p, m - 1, n);
    }
  }

  lemma {:induction false} SharesNonNegative(r: seq<seq<real>>, p: seq<real>, n: nat)
    requires (forall i :: 0 <= i < |r| ==> |r[i]| == |r|) && |p| == |r| && n <= |r|
    ensures AllShares(r, p, n, n) >= 0.0
  {
    if n > 0 {
      SharesNonNegative(r, p, n - 1);
      NextColumn(r, p, n - 1, n - 1);
      assert RowShares(r, p, n - 1, n) == RowShares(r, p, n - 1, n - 1);
    }
  }

  /** (Qp)_t over the first n columns, with the diagonal summed just as far. */
  ghost function Partial(r: seq<seq<real>>, Q: seq<seq<real>>, p: seq<real>, t: nat, n: nat): real
    requires Pairwise(r) && Couples(r, Q) && |p| == |r| && t < |r| && n <= |r|
  {
    Combined(DotTo(Q[t], p, n), Diagonal(r, t, n), if t < n then Q[t][t] else 0.0, p[t])
  }

  function Combined(d: real, g: real, q: real, a: real): real
  {
    d + (g - q) * a
  }

  function GapOf(a: real, b: real, x: real, y: real): real
  {
    x * (x * a - y * b)
  }

  ghost function Gap(r: seq<seq<real>>, p: seq<real>, t: nat, j: nat): real
    requires (forall i :: 0 <= i < |r| ==> |r[i]| == |r|) && |p| == |r| && t < |r| && j < |r|
  {
    if j == t then 0.0 else GapOf(p[t], p[j], r[j][t], r[t][j])
  }

  lemma PartialNext(r: seq<seq<real>>, Q: seq<seq<real>>, p: seq<real>, t: nat, n: nat)
    requires Pairwise(r) && Couples(r, Q) && |p| == |r| && t < |r| && n < |r|
    ensures Partial(r, Q, p, t, n + 1) == Partial(r, Q, p, t, n) + Gap(r, p, t, n)
  {
    var d, g, q := DotTo(Q[t], p, n), Diagonal(r, t, n), if t < n then Q[t][t] else 0.0;
    assert DotTo(Q[t], p, n + 1) == d + Q[t][n] * p[n];
    assert Diagonal(r, t, n + 1) == g + if n == t then 0.0 else r[n][t] * r[n][t];
    assert Entry(r, Q, t, n);
    hide Pairwise, Combined, GapOf, Couples, DotTo, Diagonal;
    if n == t {
      DiagonalColumn(d, g, Q[t][t], p[t]);
    } else {
      OtherColumn(d, g, q, p[t], p[n], r[n][t], r[t][n], Q[t][n]);
    }
  }

  lemma DiagonalColumn(d: real, g: real, q: real, a: real)
    ensures Combined(d + q * a, g + 0.0, q, a) == Combined(d, g, 0.0, a)
  {
  }

  lemma OtherColumn(d: real, g: real, q: real, a: real, b: real, x: real, y: real, c: real)
    requires c == -x * y
    ensures Combined(d + c * b, g + x * x, q, a) == Combined(d, g, q, a) + GapOf(a, b, x, y)
  {
  }

  lemma Distribute(a: real, b: real, c: real)
    ensures a * (b + c) == a * b + a * c
  {
  }

  /** A matrix and a vector for pairwise probabilities. */
  ghost predicate Coupling(r: seq<seq<real>>, Q: seq<seq<real>>, p: seq<real>)
  {
    Pairwise(r) && Couples(r, Q) && |p| == |r|
  }

  lemma CouplingFacts(r: seq<seq<real>>, Q: seq<seq<real>>, p: seq<real>)
    requires Coupling(r, Q, p)
    ensures Pairwise(r) && (forall i :: 0 <= i < |r| ==> |r[i]| == |r|) && Couples(r, Q)
    ensures |p| == |r| == |Q| && Square(Q) && forall t :: 0 <= t < |Q| ==> |Q[t]| == |Q|
  {
  }

  lemma ShareIsGap(r: seq<seq<real>>, p: seq<real>, t: nat, n: nat)
    requires (forall i :: 0 <= i < |r| ==> |r[i]| == |r|) && |p| == |r| && t < |r| && n < |r|
    ensures RowShares(r, p, t, n + 1) == RowShares(r, p, t, n) + p[t] * Gap(r, p, t, n)
  {
  }

  lemma {:induction false} RowIsShares(r: seq<seq<real>>, Q: seq<seq<real>>, p: seq<real>, t: nat, n: nat)
    requires Coupling(r, Q, p) && t < |r| && n <= |r|
    ensures Pairwise(r) && Couples(r, Q) && |p| == |r| && p[t] * Partial(r, Q, p, t, n) == RowShares(r, p, t, n)
    decreases n
  {
    hide *;
    CouplingFacts(r, Q, p);
    if n == 0 {
      NothingYet(r, Q, p, t);
    } else {
      RowIsShares(r, Q, p, t, n - 1);
      PartialNext(r, Q, p, t, n - 1);
      ShareIsGap(r, p, t, n - 1);
      Distribute(p[t], Partial(r, Q, p, t, n - 1), Gap(r, p, t, n - 1));
    }
  }

  lemma NothingYet(r: seq<seq<real>>, Q: seq<seq<real>>, p: seq<real>, t: nat)
    requires Pairwise(r) && Couples(r, Q) && |p| == |r| && t < |r|
    ensures Partial(r, Q, p, t, 0) == 0.0 && RowShares(r, p, t, 0) == 0.0
  {
    hide Pairwise, Couples;
  }

  lemma PartialWhole(r: seq<seq<real>>, Q: seq<seq<real>>, p: seq<real>, t: nat)
    requires Pairwise(r) && Couples(r, Q) && |p| == |r| && t < |r|
    ensures |Q| == |r| == |Q[t]| && Partial(r, Q, p, t, |r|) == Dot(Q[t], p)
  {
    assert Entry(r, Q, t, t);
    hide Pairwise, DotTo, Diagonal, Couples;
  }

  lemma {:induction false} RowsAreShares(r: seq<seq<real>>, Q: seq<seq<real>>, p: seq<real>, m: nat)
    requires Coupling(r, Q, p) && m <= |r|
    ensures (forall i :: 0 <= i < |r| ==> |r[i]| == |r|) && |p| == |r| && Square(Q) && |Q| == |r|
    ensures DotTo(p, MatVec(Q, p), m) == AllShares(r, p, m, |r|)
  {
    hide *;
    CouplingFacts(r, Q, p);
    if m == 0 {
      NoRows(r, Q, p);
    } else {
      RowsAreShares(r, Q, p, m - 1);
      WholeRowIsShares(r, Q, p, m - 1);
    }
  }

  lemma NoRows(r: seq<seq<real>>, Q: seq<seq<real>>, p: seq<real>)
    requires Coupling(r, Q, p)
    ensures (forall i :: 0 <= i < |r| ==> |r[i]| == |r|) && |p| == |r| && Square(Q) && |Q| == |r|
    ensures DotTo(p, MatVec(Q, p), 0) == 0.0 == AllShares(r, p, 0, |r|)
  {
    CouplingFacts(r, Q, p);
  }

  /** What row t adds on both sides. */
  lemma WholeRowIsShares(r: seq<seq<real>>, Q: seq<seq<real>>, p: seq<real>, t: nat)
    requires Coupling(r, Q, p) && t < |r|
    ensures (forall i :: 0 <= i < |r| ==> |r[i]| == |r|) && |p| == |r| && Square(Q) && |Q| == |r|
    ensures DotTo(p, MatVec(Q, p), t + 1) - DotTo(p, MatVec(Q, p), t)
            == AllShares(r, p, t + 1, |r|) - AllShares(r, p, t, |r|)
  {
    CouplingFacts(r, Q, p);
    hide Pairwise, Couples, Coupling, Partial, RowShares, Dot;
    RowIsShares(r, Q, p, t, |r|);
    PartialWhole(r, Q, p, t);
    assert MatVec(Q, p)[t] == Dot(Q[t], p);
  }

  /** The coupling form is never negative. */
  lemma FormNonNegative(r: seq<seq<real>>, Q: seq<seq<real>>, p: seq<real>)
    requires Coupling(r, Q, p)
    ensures |Q| == |p| && Square(Q) && Quad(Q, p) >= 0.0
  {
    hide Coupling;
    RowsAreShares(r, Q, p, |r|);
    SharesNonNegative(r, p, |r|);
  }

  // ---- one coordinate step ----

  function Total(p: seq<real>, n: nat): real
    requires n <= |p|
  {
    if n == 0 then 0.0 else Total(p, n - 1) + p[n - 1]
  }

  ghost predicate Probability(p: seq<real>)
  {
    (forall i :: 0 <= i < |p| ==> p[i] >= 0.0) && Total(p, |p|) == 1.0
  }

  lemma {:induction false} TotalUpdate(p: seq<real>, t: nat, d: real, n: nat)
    requires t < |p| && n <= |p|
    ensures Total(p[t := p[t] + d], n) == Total(p, n) + if t < n then d else 0.0
  {
    if n > 0 {
      TotalUpdate(p, t, d, n - 1);
    }
  }

  function Scaled(p: seq<real>, s: real): (q: seq<real>)
    requires s != 0.0
    ensures |q| == |p|
  {
    seq(|p|, i requires 0 <= i < |p| => p[i] / s)
  }

  lemma {:induction false} TotalScaled(p: seq<real>, s: real, n: nat)
    requires s != 0.0 && n <= |p|
    ensures Total(Scaled(p, s), n) == Total(p, n) / s
  {
    if n > 0 {
      TotalScaled(p, s, n - 1);
    }
  }

  lemma {:induction false} DotScaled(a: seq<real>, p: seq<real>, s: real, n: nat)
    requires s != 0.0 && n <= |a| && n <= |p|
    ensures DotTo(a, Scaled(p, s), n) == DotTo(a, p, n) / s
  {
    if n > 0 {
      DotScaled(a, p, s, n - 1);
      Quotients(DotTo(a, p, n - 1), a[n - 1], p[n - 1], s);
    }
  }

  lemma Quotients(d: real, a: real, b: real, s: real)
    requires s != 0.0
    ensures d / s + a * (b / s) == (d + a * b) / s
  {
  }

  lemma FormScaled(Q: seq<seq<real>>, p: seq<real>, s: real)
    requires Square(Q) && |p| == |Q| && s != 0.0
    ensures MatVec(Q, Scaled(p, s)) == Scaled(MatVec(Q, p), s) && Quad(Q, Scaled(p, s)) == Quad(Q, p) / s / s
  {
    forall i | 0 <= i < |Q|
      ensures MatVec(Q, Scaled(p, s))[i] == Scaled(MatVec(Q, p), s)[i]
    {
      DotScaled(Q[i], p, s, |p|);
    }
    var v := MatVec(Q, p);
    assert MatVec(Q, Scaled(p, s)) == Scaled(v, s);
    DotScaled(Scaled(p, s), v, s, |p|);
    DotComm(Scaled(p, s), v);
    DotScaled(v, p, s, |p|);
    DotComm(p, v);
    hide DotTo, MatVec, Scaled;
  }

  /** With off-diagonal entries at most 0, row t of Qp is at most its diagonal term. */
  lemma {:induction false} RowBound(a: seq<real>, p: seq<real>, t: nat, n: nat)
    requires |a| == |p| && t < |p| && n <= |p| && forall i :: 0 <= i < |p| ==> p[i] >= 0.0
    requires forall j :: 0 <= j < |a| && j != t ==> a[j] <= 0.0
    ensures DotTo(a, p, n) <= if t < n then a[t] * p[t] else 0.0
  {
    if n > 0 {
      RowBound(a, p, t, n - 1);
      if n - 1 != t {
        assert a[n - 1] * p[n - 1] <= 0.0;
      }
    }
  }

  lemma {:induction false} OnlyOne(a: seq<real>, p: seq<real>, t: nat, n: nat)
    requires |a| == |p| && t < |p| && n <= |p| && forall i :: 0 <= i < |p| && i != t ==> p[i] == 0.0
    ensures DotTo(a, p, n) == if t < n then a[t] * p[t] else 0.0
  {
    if n > 0 {
      OnlyOne(a, p, t, n - 1);
    }
  }

  lemma {:induction false} PartsOfTotal(p: seq<real>, t: nat, i: nat, n: nat)
    requires t < |p| && i < |p| && i != t && n <= |p| && forall i :: 0 <= i < |p| ==> p[i] >= 0.0
    ensures Total(p, n) >= (if t < n then p[t] else 0.0) + (if i < n then p[i] else 0.0)
  {
    if n > 0 {
      PartsOfTotal(p, t, i, n - 1);
    }
  }

  /** A probability vector with all its weight on t. */
  lemma AllOnOne(p: seq<real>, t: nat)
    requires Probability(p) && t < |p| && p[t] >= 1.0
    ensures p[t] == 1.0 && forall i :: 0 <= i < |p| && i != t ==> p[i] == 0.0
  {
    forall i | 0 <= i < |p| && i != t
      ensures p[i] == 0.0
    {
      PartsOfTotal(p, t, i, |p|);
    }
    OnlyOneTotal(p, t, |p|);
  }

  lemma {:induction false} OnlyOneTotal(p: seq<real>, t: nat, n: nat)
    requires t < |p| && n <= |p| && forall i :: 0 <= i < |p| && i != t ==> p[i] == 0.0
    ensures Total(p, n) == if t < n then p[t] else 0.0
  {
    if n > 0 {
      OnlyOneTotal(p, t, n - 1);
    }
  }

  lemma {:induction false} AtMostTotal(p: seq<real>, t: nat, n: nat)
    requires t < |p| && n <= |p| && forall i :: 0 <= i < |p| ==> p[i] >= 0.0
    ensures (if t < n then p[t] else 0.0) <= Total(p, n)
  {
    if n > 0 {
      AtMostTotal(p, t, n - 1);
    }
  }

  /** The coordinate step of t. */
  function Diff(Q: seq<seq<real>>, Qp: seq<real>, pQp: real, t: nat): real
    requires t < |Q| == |Qp| && Square(Q) && Q[t][t] != 0.0
  {
    (-Qp[t] + pQp) / Q[t][t]
  }

  lemma PositiveProduct(x: real, y: real)
    requires x > 0.0 && y > 0.0
    ensures x * y > 0.0
  {
  }

  lemma {:induction false} DiagonalPositive(r: seq<seq<real>>, t: nat, n: nat)
    requires Pairwise(r) && t < |r| && n <= |r|
    ensures Diagonal(r, t, n) >= 0.0 && (n >= 2 || (n == 1 && t != 0) ==> Diagonal(r, t, n) > 0.0)
  {
    if n > 0 {
      DiagonalPositive(r, t, n - 1);
      if n - 1 != t {
        assert Complementary(r, n - 1, t);
        AddProduct(Diagonal(r, t, n - 1), r[n - 1][t], r[n - 1][t]);
        hide Pairwise, Complementary;
      }
    }
  }

  lemma AddProduct(d: real, x: real, y: real)
    requires d >= 0.0 && x > 0.0 && y > 0.0
    ensures d + x * y > 0.0
  {
    assert x * y > 0.0;
  }

  /** Signs of the matrix entries. */
  lemma Signs(r: seq<seq<real>>, Q: seq<seq<real>>, t: nat)
    requires Pairwise(r) && Couples(r, Q) && t < |r| && |r| >= 2
    ensures Q[t][t] > 0.0 && forall j :: 0 <= j < |r| && j != t ==> Q[t][j] <= 0.0
  {
    DiagonalPositive(r, t, |r|);
    assert Entry(r, Q, t, t);
    forall j | 0 <= j < |r| && j != t
      ensures Q[t][j] <= 0.0
    {
      assert Complementary(r, j, t);
      PositiveProduct(r[j][t], r[t][j]);
      assert Entry(r, Q, t, j);
    }
  }

  lemma SymmetricMatrix(r: seq<seq<real>>, Q: seq<seq<real>>)
    requires Pairwise(r) && Couples(r, Q)
    ensures Square(Q) && Symmetric(Q)
  {
    forall i, j | 0 <= i < |Q| && 0 <= j < |Q|
      ensures Q[i][j] == Q[j][i]
    {
      assert Entry(r, Q, i, j) && Entry(r, Q, j, i);
    }
    hide Diagonal, Pairwise;
  }

  // ---- the step keeps the invariants ----

  /** p after the step of t and the division by 1 + diff. */
  function Stepped(p: seq<real>, t: nat, diff: real): seq<real>
    requires t < |p| && 1.0 + diff != 0.0
  {
    Scaled(p[t := p[t] + diff], 1.0 + diff)
  }

  /** The form after the step d, from the form, the row product and the diagonal entry before. */
  function StepForm(form: real, row: real, q: real, d: real): real
    requires 1.0 + d != 0.0
  {
    RaisedForm(form, row, q, d) / (1.0 + d) / (1.0 + d)
  }

  /** The form after the coordinate is raised by d. */
  function RaisedForm(form: real, row: real, q: real, d: real): real
  {
    form + d * (d * q + 2.0 * row)
  }

  /** The incrementally kept products are exact. */
  ghost predicate Current(Q: seq<seq<real>>, p: seq<real>, Qp: seq<real>, pQp: real)
  {
    Square(Q) && |p| == |Q| && Qp == MatVec(Q, p) && pQp == Quad(Q, p)
  }

  /** The raised coordinate stays non-negative. */
  lemma StepNonNegative(q: real, a: real, row: real, form: real, diff: real)
    requires q > 0.0 && row <= q * a && form >= 0.0 && diff == (-row + form) / q
    ensures a + diff >= 0.0
  {
    assert diff * q == -row + form;
    assert (a + diff) * q >= 0.0;
  }

  lemma UnitVector(Q: seq<seq<real>>, p: seq<real>, t: nat)
    requires Square(Q) && |p| == |Q| && t < |p| && p[t] == 1.0 && forall i :: 0 <= i < |p| && i != t ==> p[i] == 0.0
    ensures Dot(Q[t], p) == Q[t][t] && Quad(Q, p) == Q[t][t]
  {
    OnlyOne(Q[t], p, t, |p|);
    var v := MatVec(Q, p);
    DotComm(p, v);
    OnlyOne(v, p, t, |p|);
    assert v[t] == Dot(Q[t], p);
  }

  /** 1 + diff is positive, and so is every step of the division. */
  lemma StepPositive(r: seq<seq<real>>, Q: seq<seq<real>>, p: seq<real>, t: nat, diff: real)
    requires Coupling(r, Q, p) && Probability(p) && t < |p| && |p| >= 2 && Square(Q) && |Q| == |p|
    requires Q[t][t] > 0.0 && diff == (-Dot(Q[t], p) + Quad(Q, p)) / Q[t][t]
    ensures p[t] + diff >= 0.0 && 1.0 + diff > 0.0
  {
    CouplingFacts(r, Q, p);
    Signs(r, Q, t);
    FormNonNegative(r, Q, p);
    RowBound(Q[t], p, t, |p|);
    StepNonNegative(Q[t][t], p[t], Dot(Q[t], p), Quad(Q, p), diff);
    AtMostTotal(p, t, |p|);
    if p[t] >= 1.0 {
      AllOnOne(p, t);
      UnitVector(Q, p, t);
    }
    hide Coupling, Pairwise, Couples, Dot, Quad, Total;
  }

  /** The matrix and the vector of a probability problem with at least two classes. */
  ghost predicate Problem(r: seq<seq<real>>, Q: seq<seq<real>>, p: seq<real>)
  {
    Coupling(r, Q, p) && Probability(p) && |p| >= 2
  }

  lemma ProblemFacts(r: seq<seq<real>>, Q: seq<seq<real>>, p: seq<real>, t: nat)
    requires Problem(r, Q, p) && t < |p|
    ensures Coupling(r, Q, p) && Probability(p) && |p| == |Q| == |r| >= 2 && Square(Q) && Symmetric(Q) && Q[t][t] > 0.0
  {
    CouplingFacts(r, Q, p);
    SymmetricMatrix(r, Q);
    Signs(r, Q, t);
    hide Coupling, Probability, Pairwise, Couples;
  }

  /** The updates of the code are the recomputation for the stepped vector, which is again a probability
      vector; the form does not rise. */
  lemma StepKeeps(r: seq<seq<real>>, Q: seq<seq<real>>, p: seq<real>, t: nat, diff: real)
    requires Problem(r, Q, p) && t < |p| && Square(Q) && |Q| == |p| && Q[t][t] != 0.0
    requires diff == Diff(Q, MatVec(Q, p), Quad(Q, p), t)
    ensures 1.0 + diff > 0.0 && Problem(r, Q, Stepped(p, t, diff))
    ensures forall j :: 0 <= j < |p| ==>
              MatVec(Q, Stepped(p, t, diff))[j] == (MatVec(Q, p)[j] + diff * Q[t][j]) / (1.0 + diff)
    ensures Quad(Q, Stepped(p, t, diff))
            == StepForm(Quad(Q, p), MatVec(Q, p)[t], Q[t][t], diff)
  {
    hide *;
    ProblemFacts(r, Q, p, t);
    DiffIs(Q, p, t);
    StepPositive(r, Q, p, t, diff);
    var raised := p[t := p[t] + diff];
    RaisedProducts(Q, p, t, diff);
    FormScaled(Q, raised, 1.0 + diff);
    SteppedIs(p, t, diff);
    SteppedProbability(r, Q, p, t, diff);
    ScaledAt(MatVec(Q, raised), 1.0 + diff);
    QuadIs(Q, p, t, diff);
    var s := 1.0 + diff;
    assert Quad(Q, raised) == RaisedForm(Quad(Q, p), MatVec(Q, p)[t], Q[t][t], diff);
    StepFormIs(Quad(Q, p), MatVec(Q, p)[t], Q[t][t], diff);
    forall j | 0 <= j < |p|
      ensures MatVec(Q, Stepped(p, t, diff))[j] == (MatVec(Q, p)[j] + diff * Q[t][j]) / (1.0 + diff)
    {
      assert MatVec(Q, Stepped(p, t, diff))[j] == MatVec(Q, raised)[j] / s;
      assert MatVec(Q, raised)[j] == MatVec(Q, p)[j] + diff * Q[t][j];
    }
  }

  lemma DiffIs(Q: seq<seq<real>>, p: seq<real>, t: nat)
    requires Square(Q) && |p| == |Q| && t < |p| && Q[t][t] != 0.0
    ensures |MatVec(Q, p)| == |p| && |Q[t]| == |p| && MatVec(Q, p)[t] == Dot(Q[t], p)
    ensures Diff(Q, MatVec(Q, p), Quad(Q, p), t) == (-Dot(Q[t], p) + Quad(Q, p)) / Q[t][t]
    ensures forall i :: 0 <= i < |Q| ==> |Q[i]| == |Q|
  {
    hide Dot, Quad;
  }

  lemma RaisedProducts(Q: seq<seq<real>>, p: seq<real>, t: nat, d: real)
    requires Square(Q) && Symmetric(Q) && |p| == |Q| && t < |p|
    ensures forall j :: 0 <= j < |p| ==> MatVec(Q, p[t := p[t] + d])[j] == MatVec(Q, p)[j] + d * Q[t][j]
    ensures Quad(Q, p[t := p[t] + d]) == Quad(Q, p) + 2.0 * d * Dot(Q[t], p) + d * d * Q[t][t]
  {
    forall j | 0 <= j < |p|
      ensures MatVec(Q, p[t := p[t] + d])[j] == MatVec(Q, p)[j] + d * Q[t][j]
    {
      MatVecShift(Q, p, t, d, j);
    }
    QuadUpdate(Q, p, t, d);
    hide Dot, Quad, MatVec;
  }

  lemma SteppedIs(p: seq<real>, t: nat, diff: real)
    requires t < |p| && 1.0 + diff != 0.0
    ensures Stepped(p, t, diff) == Scaled(p[t := p[t] + diff], 1.0 + diff)
  {
  }

  lemma ScaledAt(v: seq<real>, s: real)
    requires s != 0.0
    ensures forall j :: 0 <= j < |v| ==> Scaled(v, s)[j] == v[j] / s
  {
  }

  lemma QuadIs(Q: seq<seq<real>>, p: seq<real>, t: nat, d: real)
    requires Square(Q) && |p| == |Q| && t < |p|
    ensures |MatVec(Q, p)| == |p| && Quad(Q, p) + 2.0 * d * Dot(Q[t], p) + d * d * Q[t][t]
            == RaisedForm(Quad(Q, p), MatVec(Q, p)[t], Q[t][t], d)
  {
    assert MatVec(Q, p)[t] == Dot(Q[t], p);
    QuadTermsTwo(Quad(Q, p), d, Q[t][t], Dot(Q[t], p));
    hide Dot, Quad, MatVec, RaisedForm;
  }

  lemma QuadTermsTwo(a: real, d: real, q: real, m: real)
    ensures a + 2.0 * d * m + d * d * q == RaisedForm(a, m, q, d)
  {
  }

  lemma NonNegativeQuotient(a: real, s: real)
    requires a >= 0.0 && s > 0.0
    ensures a / s >= 0.0
  {
  }

  lemma RaisedProbability(p: seq<real>, t: nat, diff: real)
    requires Probability(p) && t < |p| && p[t] + diff >= 0.0
    ensures var v := p[t := p[t] + diff]; (forall i :: 0 <= i < |v| ==> v[i] >= 0.0) && Total(v, |v|) == 1.0 + diff
  {
    TotalUpdate(p, t, diff, |p|);
    hide Total;
  }

  lemma ScaledProbability(v: seq<real>, s: real)
    requires s > 0.0 && (forall i :: 0 <= i < |v| ==> v[i] >= 0.0) && Total(v, |v|) == s
    ensures Probability(Scaled(v, s))
  {
    TotalScaled(v, s, |v|);
    forall i | 0 <= i < |v|
      ensures Scaled(v, s)[i] >= 0.0
    {
      NonNegativeQuotient(v[i], s);
    }
    assert s / s == 1.0;
    hide Total;
  }

  lemma SteppedProbability(r: seq<seq<real>>, Q: seq<seq<real>>, p: seq<real>, t: nat, diff: real)
    requires Problem(r, Q, p) && t < |p| && 1.0 + diff > 0.0 && p[t] + diff >= 0.0
    ensures Problem(r, Q, Stepped(p, t, diff))
  {
    hide Probability, Total, Scaled, Pairwise, Couples;
    RaisedProbability(p, t, diff);
    ScaledProbability(p[t := p[t] + diff], 1.0 + diff);
  }

  /** Every coordinate step lowers the form or leaves it. */
  lemma StepDescends(a: real, b: real, q: real, d: real)
    requires q > 0.0 && a >= 0.0 && d == (-b + a) / q && 1.0 + d > 0.0
    ensures StepForm(a, b, q, d) <= a
  {
    assert d * q == a - b;
    StepIdentity(a, b, q, d);
    NonNegativeTerm(d, q + a);
    hide *;
    QuotientBound(RaisedForm(a, b, q, d), a, 1.0 + d);
    StepFormIs(a, b, q, d);
  }

  lemma StepFormIs(form: real, row: real, q: real, d: real)
    requires 1.0 + d != 0.0
    ensures StepForm(form, row, q, d) == RaisedForm(form, row, q, d) / (1.0 + d) / (1.0 + d)
  {
  }

  lemma StepIdentity(a: real, b: real, q: real, d: real)
    requires b == a - d * q
    ensures a * ((1.0 + d) * (1.0 + d)) == RaisedForm(a, b, q, d) + d * d * (q + a)
  {
  }

  lemma NonNegativeTerm(d: real, c: real)
    requires c >= 0.0
    ensures d * d * c >= 0.0
  {
    assert d * d >= 0.0;
  }

  lemma QuotientBound(num: real, a: real, s: real)
    requires s > 0.0 && num <= a * (s * s)
    ensures num / s / s <= a
  {
    var w := num / s / s;
    assert w * s == num / s;
    assert w * s * s == num;
    assert (w - a) * s * s == w * s * s - a * (s * s);
    if w - a > 0.0 {
      PositiveProduct(w - a, s);
      PositiveProduct((w - a) * s, s);
    }
  }

  // ---- the procedure ----

  method DiagonalSum(r: seq<seq<real>>, t: nat) returns (d: real)
    requires (forall i :: 0 <= i < |r| ==> |r[i]| == |r|) && t < |r|
    ensures d == Diagonal(r, t, |r|)
  {
    d := 0.0;
    for j := 0 to t
      invariant d == Diagonal(r, t, j)
    {
      d := d + r[j][t] * r[j][t];
    }
    for j := t + 1 to |r|
      invariant d == Diagonal(r, t, j)
    {
      d := d + r[j][t] * r[j][t];
    }
  }

  /** The rows built so far. */
  ghost predicate RowsBuilt(r: seq<seq<real>>, Q: seq<seq<real>>, n: nat)
    requires (forall i :: 0 <= i < |r| ==> |r[i]| == |r|) && n <= |r|
  {
    && |Q| == n && (forall t :: 0 <= t < n ==> |Q[t]| == |r|)
    && forall t, j :: 0 <= t < n && 0 <= j < |r| ==> Entry(r, Q, t, j)
  }

  /** The matrix: entries left of the diagonal are copied from above it. */
  method BuildMatrix(r: seq<seq<real>>) returns (Q: seq<seq<real>>)
    requires Pairwise(r)
    ensures Couples(r, Q)
  {
    Q := [];
    for t := 0 to |r|
      invariant RowsBuilt(r, Q, t)
    {
      var row := [];
      for j := 0 to t
        invariant |row| == j && forall m :: 0 <= m < j ==> row[m] == -r[m][t] * r[t][m]
      {
        assert Entry(r, Q, j, t);
        row := row + [Q[j][t]];
      }
      var d := DiagonalSum(r, t);
      row := row + [d];
      for j := t + 1 to |r|
        invariant |row| == j && forall m :: 0 <= m < j ==> row[m] == if m == t then d else -r[m][t] * r[t][m]
      {
        row := row + [-r[j][t] * r[t][j]];
      }
      RowsNext(r, Q, row);
      Q := Q + [row];
    }
  }

  lemma RowsNext(r: seq<seq<real>>, Q: seq<seq<real>>, row: seq<real>)
    requires (forall i :: 0 <= i < |r| ==> |r[i]| == |r|) && |Q| < |r| && RowsBuilt(r, Q, |Q|) && |row| == |r|
    requires forall j :: 0 <= j < |r| ==> row[j] == if j == |Q| then Diagonal(r, |Q|, |r|) else -r[j][|Q|] * r[|Q|][j]
    ensures RowsBuilt(r, Q + [row], |Q| + 1)
  {
    var next := Q + [row];
    forall t, j | 0 <= t < |next| && 0 <= j < |r|
      ensures |next[t]| == |r| && Entry(r, next, t, j)
    {
      if t < |Q| {
        assert Entry(r, Q, t, j);
      }
    }
  }

  /** Qp and pQp from scratch. */
  method Recompute(Q: seq<seq<real>>, p: seq<real>) returns (Qp: seq<real>, pQp: real)
    requires Square(Q) && |p| == |Q|
    ensures Current(Q, p, Qp, pQp)
  {
    Qp, pQp := [], 0.0;
    for t := 0 to |Q|
      invariant |Qp| == t && (forall k :: 0 <= k < t ==> Qp[k] == Dot(Q[k], p)) && pQp == DotTo(p, MatVec(Q, p), t)
    {
      var sum := 0.0;
      for j := 0 to |Q|
        invariant sum == DotTo(Q[t], p, j)
      {
        sum := sum + Q[t][j] * p[j];
      }
      Qp := Qp + [sum];
      assert MatVec(Q, p)[t] == sum;
      pQp := pQp + p[t] * Qp[t];
    }
    assert Qp == MatVec(Q, p);
  }

  method LargestDeviation(Qp: seq<real>, pQp: real) returns (maxError: real)
    ensures maxError >= 0.0 && forall t :: 0 <= t < |Qp| ==> Abs(Qp[t] - pQp) <= maxError
    ensures maxError == 0.0 || exists t :: 0 <= t < |Qp| && Abs(Qp[t] - pQp) == maxError
  {
    maxError := 0.0;
    for t := 0 to |Qp|
      invariant maxError >= 0.0 && forall k :: 0 <= k < t ==> Abs(Qp[k] - pQp) <= maxError
      invariant maxError == 0.0 || exists k :: 0 <= k < t && Abs(Qp[k] - pQp) == maxError
    {
      if Abs(Qp[t] - pQp) > maxError {
        maxError := Abs(Qp[t] - pQp);
      }
    }
  }

  /** p' is p after the exact step of coordinate t, computed from scratch. */
  ghost predicate StepTo(Q: seq<seq<real>>, p: seq<real>, t: nat, p': seq<real>)
  {
    && Square(Q) && |p| == |Q| && t < |p| && Q[t][t] != 0.0
    && var diff := Diff(Q, MatVec(Q, p), Quad(Q, p), t);
       1.0 + diff != 0.0 && p' == Stepped(p, t, diff)
  }

  /** One step per coordinate, in order. */
  ghost predicate SweepRun(Q: seq<seq<real>>, ps: seq<seq<real>>, n: nat)
  {
    |ps| == n + 1 && forall t :: 0 <= t < n ==> StepTo(Q, ps[t], t, ps[t + 1])
  }

  ghost predicate SweepTo(Q: seq<seq<real>>, p: seq<real>, p': seq<real>)
  {
    exists ps: seq<seq<real>> :: SweepRun(Q, ps, |p|) && ps[0] == p && ps[|p|] == p'
  }

  lemma SweepNext(Q: seq<seq<real>>, ps: seq<seq<real>>, t: nat, p': seq<real>)
    requires SweepRun(Q, ps, t) && StepTo(Q, ps[t], t, p')
    ensures SweepRun(Q, ps + [p'], t + 1)
  {
    hide StepTo;
  }

  /** One coordinate step with its incremental updates. */
  method Step(Q: seq<seq<real>>, p: seq<real>, Qp: seq<real>, pQp: real, t: nat, ghost r: seq<seq<real>>)
    returns (p': seq<real>, Qp': seq<real>, pQp': real)
    requires Problem(r, Q, p) && Current(Q, p, Qp, pQp) && t < |p|
    ensures Problem(r, Q, p') && |p'| == |p| && Current(Q, p', Qp', pQp') && pQp' <= pQp && StepTo(Q, p, t, p')
  {
    ProblemFacts(r, Q, p, t);
    DiffIs(Q, p, t);
    var diff := (-Qp[t] + pQp) / Q[t][t];
    assert diff == Diff(Q, Qp, pQp, t);
    StepKeeps(r, Q, p, t, diff);
    FormNonNegative(r, Q, p);
    StepDescends(pQp, Qp[t], Q[t][t], diff);
    ghost var next := Stepped(p, t, diff);
    pQp' := StepForm(pQp, Qp[t], Q[t][t], diff);
    hide StepForm;
    assert Qp == MatVec(Q, p) && pQp == Quad(Q, p);
    assert pQp' == Quad(Q, next) && pQp' <= pQp;
    assert StepTo(Q, p, t, next);
    hide StepTo, Problem, Coupling, Probability, Dot, Quad, MatVec, Symmetric;
    p' := p[t := p[t] + diff];
    Qp' := Qp;
    ghost var raised := p';
    for j := 0 to |p|
      invariant |Qp'| == |Qp| && |p'| == |p|
      invariant forall k :: 0 <= k < |p| ==> Qp'[k] == if k < j then (Qp[k] + diff * Q[t][k]) / (1.0 + diff) else Qp[k]
      invariant forall k :: 0 <= k < |p| ==> p'[k] == if k < j then raised[k] / (1.0 + diff) else raised[k]
    {
      Qp' := Qp'[j := (Qp'[j] + diff * Q[t][j]) / (1.0 + diff)];
      p' := p'[j := p'[j] / (1.0 + diff)];
    }
    assert p' == Stepped(p, t, diff);
    assert Qp' == MatVec(Q, p');
    assert pQp' == Quad(Q, p');
    assert pQp' <= pQp;
    assert Problem(r, Q, p');
  }

  /** What a step solves for: raised by d, coordinate t meets its optimality condition against the form as it
      was, and dividing by 1 + d makes the vector a probability again. */
  lemma StepSolves(r: seq<seq<real>>, Q: seq<seq<real>>, p: seq<real>, t: nat, p': seq<real>) returns (d: real)
    requires Problem(r, Q, p) && t < |p| && StepTo(Q, p, t, p')
    ensures |p| == |Q| && Square(Q) && 1.0 + d > 0.0 && p' == Scaled(p[t := p[t] + d], 1.0 + d)
    ensures Dot(Q[t], p[t := p[t] + d]) == Quad(Q, p)
  {
    hide *;
    ProblemFacts(r, Q, p, t);
    DiffIs(Q, p, t);
    StepToIs(Q, p, t, p');
    d := Diff(Q, MatVec(Q, p), Quad(Q, p), t);
    StepKeeps(r, Q, p, t, d);
    SteppedIs(p, t, d);
    DotShift(Q[t], p, t, d);
    DiffSolves(Dot(Q[t], p), Quad(Q, p), Q[t][t], d);
  }

  lemma StepToIs(Q: seq<seq<real>>, p: seq<real>, t: nat, p': seq<real>)
    requires StepTo(Q, p, t, p')
    ensures Square(Q) && |MatVec(Q, p)| == |p| == |Q| && t < |p| && |Q[t]| == |Q| && Q[t][t] != 0.0
    ensures var d := Diff(Q, MatVec(Q, p), Quad(Q, p), t); 1.0 + d != 0.0 && p' == Stepped(p, t, d)
  {
    hide Diff, Stepped, Quad;
  }

  lemma DiffSolves(row: real, form: real, q: real, d: real)
    requires q != 0.0 && d == (-row + form) / q
    ensures row + q * d == form
  {
    assert d * q == -row + form;
  }

  lemma {:induction false} UniformTotal(p: seq<real>, c: real, n: nat)
    requires n <= |p| && forall i :: 0 <= i < |p| ==> p[i] == c
    ensures Total(p, n) == n as real * c
  {
    if n > 0 {
      UniformTotal(p, c, n - 1);
      OneMore((n - 1) as real, n as real, c);
    }
  }

  lemma OneMore(m: real, n: real, c: real)
    requires n == m + 1.0
    ensures n * c == m * c + c
  {
  }

  lemma UniformIsProbability(p: seq<real>)
    requires |p| >= 1 && forall i :: 0 <= i < |p| ==> p[i] == 1.0 / |p| as real
    ensures Probability(p)
  {
    UniformTotal(p, 1.0 / |p| as real, |p|);
    hide Total;
  }

  lemma DiagonalEntry(r: seq<seq<real>>, Q: seq<seq<real>>, t: nat)
    requires Pairwise(r) && Couples(r, Q) && t < |r|
    ensures Q[t][t] == Diagonal(r, t, |r|)
  {
    assert Entry(r, Q, t, t);
    hide Pairwise, Diagonal;
  }

  /** With one class the form vanishes. */
  lemma SingleClass(r: seq<seq<real>>, Q: seq<seq<real>>, p: seq<real>, Qp: seq<real>, pQp: real)
    requires Coupling(r, Q, p) && |p| == 1 && Current(Q, p, Qp, pQp)
    ensures |Qp| == 1 && Qp[0] == 0.0 && pQp == 0.0
  {
    CouplingFacts(r, Q, p);
    DiagonalEntry(r, Q, 0);
    assert Diagonal(r, 0, 1) == 0.0;
    assert DotTo(Q[0], p, 1) == 0.0;
    assert MatVec(Q, p)[0] == Dot(Q[0], p) == 0.0;
    assert DotTo(p, MatVec(Q, p), 1) == 0.0;
    hide Pairwise;
  }

  /** One pass over all coordinates. */
  method Sweep(Q: seq<seq<real>>, p: seq<real>, Qp: seq<real>, pQp: real, ghost r: seq<seq<real>>)
    returns (p': seq<real>, ghost pQp': real)
    requires Problem(r, Q, p) && Current(Q, p, Qp, pQp)
    ensures Problem(r, Q, p') && |p'| == |p| && Square(Q) && |Q| == |p'| && pQp' == Quad(Q, p') && pQp' <= pQp
    ensures SweepTo(Q, p, p')
  {
    p' := p;
    var v, form := Qp, pQp;
    ghost var ps := [p];
    hide StepTo, Problem;
    for t := 0 to |p|
      invariant Problem(r, Q, p') && |p'| == |p| && Current(Q, p', v, form) && form <= pQp
      invariant SweepRun(Q, ps, t) && ps[0] == p && ps[t] == p'
    {
      ghost var was := p';
      p', v, form := Step(Q, p', v, form, t, r);
      SweepNext(Q, ps, t, p');
      ps := ps + [p'];
    }
    pQp' := form;
  }

  /** Deviations from the optimality condition (Qp)_t = pᵀQp are all below eps. */
  ghost predicate Converged(Q: seq<seq<real>>, p: seq<real>, eps: real)
    requires Square(Q) && |p| == |Q|
  {
    forall t :: 0 <= t < |Q| ==> Abs(MatVec(Q, p)[t] - Quad(Q, p)) < eps
  }

  /** Round after round of sweeps, none of which started from a converged vector. */
  ghost predicate Rounds(Q: seq<seq<real>>, ps: seq<seq<real>>, eps: real)
  {
    && Square(Q) && |ps| >= 1 && (forall k :: 0 <= k < |ps| ==> |ps[k]| == |Q|)
    && forall k :: 0 <= k < |ps| - 1 ==> SweepTo(Q, ps[k], ps[k + 1]) && !Converged(Q, ps[k], eps)
  }

  lemma RoundsNext(Q: seq<seq<real>>, ps: seq<seq<real>>, eps: real, p': seq<real>)
    requires Rounds(Q, ps, eps) && |p'| == |Q| && SweepTo(Q, ps[|ps| - 1], p') && !Converged(Q, ps[|ps| - 1], eps)
    ensures Rounds(Q, ps + [p'], eps)
  {
    hide SweepTo, Converged;
  }

  lemma AllClose(Q: seq<seq<real>>, p: seq<real>, Qp: seq<real>, pQp: real, bound: real, eps: real)
    requires Current(Q, p, Qp, pQp) && bound < eps && forall t :: 0 <= t < |Qp| ==> Abs(Qp[t] - pQp) <= bound
    ensures Converged(Q, p, eps)
  {
    hide Quad, MatVec;
  }

  lemma NotConverged(Q: seq<seq<real>>, p: seq<real>, Qp: seq<real>, pQp: real, t: nat, eps: real)
    requires Current(Q, p, Qp, pQp) && t < |Q| && Abs(Qp[t] - pQp) >= eps
    ensures !Converged(Q, p, eps)
  {
    hide Quad, MatVec;
  }

  lemma IsCoupling(r: seq<seq<real>>, Q: seq<seq<real>>, p: seq<real>)
    requires Pairwise(r) && Couples(r, Q) && |p| == |r|
    ensures Coupling(r, Q, p) && |Q| == |r| && Square(Q)
  {
  }

  lemma IsProblem(r: seq<seq<real>>, Q: seq<seq<real>>, p: seq<real>)
    requires Coupling(r, Q, p) && Probability(p) && |p| >= 2
    ensures Problem(r, Q, p)
  {
  }

  lemma FirstRound(Q: seq<seq<real>>, p: seq<real>, eps: real)
    requires Square(Q) && |p| == |Q|
    ensures Rounds(Q, [p], eps)
  {
  }

  lemma CurrentFacts(Q: seq<seq<real>>, p: seq<real>, Qp: seq<real>, pQp: real)
    requires Current(Q, p, Qp, pQp)
    ensures Square(Q) && |p| == |Q| == |Qp| && pQp == Quad(Q, p)
  {
    hide Quad, Square;
  }

  lemma NoDeviation(Qp: seq<real>, pQp: real, maxError: real)
    requires |Qp| == 1 && Qp[0] == 0.0 == pQp
    requires maxError == 0.0 || exists t :: 0 <= t < |Qp| && Abs(Qp[t] - pQp) == maxError
    ensures maxError == 0.0
  {
  }

  /** One iteration: Qp and pQp from scratch, then the test, then a sweep over all coordinates. */
  method Round(Q: seq<seq<real>>, p: seq<real>, eps: real, ghost r: seq<seq<real>>)
    returns (p': seq<real>, converged: bool)
    requires Coupling(r, Q, p) && Probability(p) && |p| == |Q| >= 1 && Square(Q) && eps > 0.0
    ensures Coupling(r, Q, p') && Probability(p') && |p'| == |p| && Quad(Q, p') <= Quad(Q, p)
    ensures converged <==> Converged(Q, p, eps)
    ensures if converged then p' == p else SweepTo(Q, p, p')
  {
    hide *;
    p' := p;
    var Qp, pQp := Recompute(Q, p);
    CurrentFacts(Q, p, Qp, pQp);
    var maxError := LargestDeviation(Qp, pQp);
    if |p| == 1 {
      SingleClass(r, Q, p, Qp, pQp);
      NoDeviation(Qp, pQp, maxError);
    }
    converged := maxError < eps;
    if converged {
      AllClose(Q, p, Qp, pQp, maxError, eps);
      return;
    }
    ghost var t :| 0 <= t < |Qp| && Abs(Qp[t] - pQp) == maxError;
    NotConverged(Q, p, Qp, pQp, t, eps);
    IsProblem(r, Q, p);
    ghost var form;
    p', form := Sweep(Q, p, Qp, pQp, r);
    ProblemFacts(r, Q, p', 0);
  }

  /** The coupled probabilities: non-negative with sum 1, the form no larger than for the uniform vector,
      and, unless the iterations ran out, the optimality condition holds within 0.005 / k. */
  method MulticlassProbability(r: seq<seq<real>>)
    returns (p: seq<real>, iter: nat, ghost Q: seq<seq<real>>, ghost ps: seq<seq<real>>)
    requires |r| >= 1 && Pairwise(r)
    ensures Couples(r, Q) && Square(Q) && |p| == |r| == |Q| && Probability(p)
    ensures Quad(Q, p) <= Quad(Q, seq(|r|, _ => 1.0 / |r| as real))
    ensures iter < (if |r| < 100 then 100 else |r|) ==> Converged(Q, p, 0.005 / |r| as real)
    ensures Rounds(Q, ps, 0.005 / |r| as real) && |ps| == iter + 1 <= (if |r| < 100 then 100 else |r|) + 1
    ensures ps[0] == seq(|r|, _ => 1.0 / |r| as real) && ps[iter] == p
  {
    var k := |r|;
    var maxIter := if k < 100 then 100 else k;
    var eps := 0.005 / k as real;
    hide *;
    var M := BuildMatrix(r);
    Q := M;
    p := seq(k, _ => 1.0 / k as real);
    ghost var uniform := p;
    UniformIsProbability(p);
    IsCoupling(r, M, p);
    iter := 0;
    ps := [p];
    FirstRound(M, p, eps);
    while iter < maxIter
      invariant Rounds(M, ps, eps) && |ps| == iter + 1 <= maxIter + 1 && ps[0] == uniform && ps[iter] == p
      invariant Coupling(r, M, p) && Probability(p) && |p| == k && Square(M) && |M| == k
      invariant Quad(M, p) <= Quad(M, uniform)
    {
      var converged;
      p, converged := Round(M, p, eps, r);
      if converged {
        break;
      }
      RoundsNext(M, ps, eps, p);
      ps := ps + [p];
      iter := iter + 1;
    }
  }
}
