/** The factorization machine: the linear-time prediction against the sum over all feature pairs, and
    how a prediction depends on a single parameter. */
module FactorizationMachine {

  /** A feature (or, in a column, a row) number with a value. */
  datatype Entry = Entry(index: nat, value: real)

  type Row = seq<Entry>

  ghost predicate Within(row: Row, size: nat)
  {
    forall j :: 0 <= j < |row| ==> row[j].index < size
  }

  /** Each feature occurs at most once. */
  ghost predicate NoRepeats(row: Row)
  {
    forall i, j :: 0 <= i < j < |row| ==> row[i].index != row[j].index
  }

  /** Σ c_j x_j over the first n entries. */
  function Weighted(c: seq<real>, row: Row, n: nat): real
    requires n <= |row| && Within(row, |c|)
  {
    if n == 0 then 0.0 else Weighted(c, row, n - 1) + c[row[n - 1].index] * row[n - 1].value
  }

  function Term(c: seq<real>, row: Row, j: nat): real
    requires j < |row| && Within(row, |c|)
  {
    c[row[j].index] * row[j].value
  }

  function Squares(c: seq<real>, row: Row, n: nat): real
    requires n <= |row| && Within(row, |c|)
  {
    if n == 0 then 0.0 else Squares(c, row, n - 1) + Term(c, row, n - 1) * Term(c, row, n - 1)
  }

  /** ½(s² - q), for a sum s and a sum of squares q. */
  function HalfGap(s: real, q: real): real
  {
    0.5 * (s * s - q)
  }

  /** The linear-time form of one factor's interactions. */
  function Interaction(c: seq<real>, row: Row): real
    requires Within(row, |c|)
  {
    HalfGap(Weighted(c, row, |row|), Squares(c, row, |row|))
  }

  function Times(a: real, b: real): real
  {
    a * b
  }

  /** What a pair of features with inner product l and values x, y adds. */
  function PairTerm(l: real, x: real, y: real): real
  {
    l * x * y
  }

  datatype Machine = Machine(w0: real, w: seq<real>, v: seq<seq<real>>) {
    ghost predicate Shaped()
    {
      forall k :: 0 <= k < |v| ==> |v[k]| == |w|
    }

    function Factors(row: Row, m: nat): real
      requires Shaped() && m <= |v| && Within(row, |w|)
    {
      if m == 0 then 0.0 else Factors(row, m - 1) + Interaction(v[m - 1], row)
    }

    function Prediction(row: Row): real
      requires Shaped() && Within(row, |w|)
    {
      w0 + Weighted(w, row, |row|) + Factors(row, |v|)
    }

    // ---- the defining double sum ----

    /** Inner product of the first m factors of two features. */
    function Latent(i: nat, j: nat, m: nat): real
      requires Shaped() && m <= |v| && i < |w| && j < |w|
    {
      if m == 0 then 0.0 else Latent(i, j, m - 1) + v[m - 1][i] * v[m - 1][j]
    }

    /** Entry j against the first n entries. */
    function PairsWith(row: Row, j: nat, n: nat, m: nat): real
      requires Shaped() && m <= |v| && Within(row, |w|) && j < |row| && n <= |row|
    {
      if n == 0 then 0.0
      else PairsWith(row, j, n - 1, m)
           + PairTerm(Latent(row[n - 1].index, row[j].index, m), row[n - 1].value, row[j].value)
    }

    /** Σ_{i<j<n} of the products of all pairs of entries. */
    function AllPairs(row: Row, n: nat, m: nat): real
      requires Shaped() && m <= |v| && Within(row, |w|) && n <= |row|
    {
      if n == 0 then 0.0 else AllPairs(row, n - 1, m) + PairsWith(row, n - 1, n - 1, m)
    }
  }

  // ---- linear time against all pairs ----

  lemma {:induction false} PairsOfFactor(t: Machine, row: Row, j: nat, n: nat, m: nat)
    requires t.Shaped() && 0 < m <= |t.v| && Within(row, |t.w|) && j < |row| && n <= |row|
    ensures t.PairsWith(row, j, n, m)
            == t.PairsWith(row, j, n, m - 1) + Times(Weighted(t.v[m - 1], row, n), Term(t.v[m - 1], row, j))
    decreases n
  {
    if n == 0 {
      NoPairs(t, row, j, m);
    } else {
      hide Times, PairTerm, Machine.PairsWith, Machine.Latent, Weighted, Term;
      PairsOfFactor(t, row, j, n - 1, m);
      var a, b, c := row[n - 1], row[j], t.v[m - 1];
      NextPair(t, row, j, n, m - 1);
      NextPair(t, row, j, n, m);
      LatentUnfolds(t, a.index, b.index, m);
      WeightedUnfolds(c, row, n);
      TermIs(c, row, j);
      TermIs(c, row, n - 1);
      PairStep(t.Latent(a.index, b.index, m - 1), c[a.index], c[b.index], a.value, b.value,
               t.Latent(a.index, b.index, m), Weighted(c, row, n - 1), Term(c, row, j), Term(c, row, n - 1),
               Weighted(c, row, n));
    }
  }

  lemma NoPairs(t: Machine, row: Row, j: nat, m: nat)
    requires t.Shaped() && 0 < m <= |t.v| && Within(row, |t.w|) && j < |row|
    ensures t.PairsWith(row, j, 0, m)
            == t.PairsWith(row, j, 0, m - 1) + Times(Weighted(t.v[m - 1], row, 0), Term(t.v[m - 1], row, j))
  {
    var z := Term(t.v[m - 1], row, j);
    assert 0.0 * z == 0.0;
  }

  lemma NextPair(t: Machine, row: Row, j: nat, n: nat, m: nat)
    requires t.Shaped() && m <= |t.v| && Within(row, |t.w|) && j < |row| && 0 < n <= |row|
    ensures t.PairsWith(row, j, n, m) == t.PairsWith(row, j, n - 1, m)
            + PairTerm(t.Latent(row[n - 1].index, row[j].index, m), row[n - 1].value, row[j].value)
  {
    hide PairTerm, Machine.Latent;
  }

  lemma LatentUnfolds(t: Machine, i: nat, j: nat, m: nat)
    requires t.Shaped() && 0 < m <= |t.v| && i < |t.w| && j < |t.w|
    ensures t.Latent(i, j, m) == t.Latent(i, j, m - 1) + Times(t.v[m - 1][i], t.v[m - 1][j])
  {
  }

  lemma TermIs(c: seq<real>, row: Row, j: nat)
    requires j < |row| && Within(row, |c|)
    ensures Term(c, row, j) == Times(c[row[j].index], row[j].value)
  {
  }

  lemma PairStep(l: real, va: real, vb: real, x: real, y: real, l': real, s: real, z: real, d: real, s': real)
    requires l' == l + Times(va, vb) && z == Times(vb, y) && d == Times(va, x) && s' == s + d
    ensures PairTerm(l', x, y) + Times(s, z) == PairTerm(l, x, y) + Times(s', z)
  {
    assert (l + va * vb) * x * y == l * x * y + (va * x) * (vb * y);
    assert (s + d) * z == s * z + d * z;
  }

  /** One more factor adds half the squared sum minus the sum of squares to the double sum. */
  lemma {:induction false} AllPairsOfFactor(t: Machine, row: Row, n: nat, m: nat)
    requires t.Shaped() && 0 < m <= |t.v| && Within(row, |t.w|) && n <= |row|
    ensures t.AllPairs(row, n, m) == t.AllPairs(row, n, m - 1)
            + HalfGap(Weighted(t.v[m - 1], row, n), Squares(t.v[m - 1], row, n))
    decreases n
  {
    if n > 0 {
      hide Times, HalfGap, Machine.PairsWith, Term, Weighted, Squares;
      AllPairsOfFactor(t, row, n - 1, m);
      PairsOfFactor(t, row, n - 1, n - 1, m);
      WeightedUnfolds(t.v[m - 1], row, n);
      SquaresUnfolds(t.v[m - 1], row, n);
      SquareOfSum(Weighted(t.v[m - 1], row, n - 1), Term(t.v[m - 1], row, n - 1), Squares(t.v[m - 1], row, n - 1));
    }
  }

  lemma WeightedUnfolds(c: seq<real>, row: Row, n: nat)
    requires 0 < n <= |row| && Within(row, |c|)
    ensures Weighted(c, row, n) == Weighted(c, row, n - 1) + Term(c, row, n - 1)
  {
  }

  lemma SquaresUnfolds(c: seq<real>, row: Row, n: nat)
    requires 0 < n <= |row| && Within(row, |c|)
    ensures Squares(c, row, n) == Squares(c, row, n - 1) + Times(Term(c, row, n - 1), Term(c, row, n - 1))
  {
  }

  lemma SquareOfSum(s: real, d: real, q: real)
    ensures HalfGap(s + d, q + Times(d, d)) == HalfGap(s, q) + Times(s, d)
  {
  }

  lemma {:induction false} NoFactorsNoPairs(t: Machine, row: Row, j: nat, n: nat)
    requires t.Shaped() && Within(row, |t.w|) && n <= |row|
    ensures t.AllPairs(row, n, 0) == 0.0
    ensures j < |row| ==> t.PairsWith(row, j, n, 0) == 0.0
    decreases n
  {
    if n > 0 {
      NoFactorsNoPairs(t, row, j, n - 1);
      NoFactorsNoPairs(t, row, n - 1, n - 1);
    }
  }

  lemma {:induction false} FactorsAreAllPairs(t: Machine, row: Row, m: nat)
    requires t.Shaped() && m <= |t.v| && Within(row, |t.w|)
    ensures t.Factors(row, m) == t.AllPairs(row, |row|, m)
    decreases m
  {
    if m == 0 {
      NoFactorsNoPairs(t, row, 0, |row|);
    } else {
      FactorsAreAllPairs(t, row, m - 1);
      AllPairsOfFactor(t, row, |row|, m);
    }
  }

  /** predict computes the factorization machine's double sum over feature pairs. */
  lemma PredictionIsPairSum(t: Machine, row: Row)
    requires t.Shaped() && Within(row, |t.w|)
    ensures t.Prediction(row) == t.w0 + Weighted(t.w, row, |row|) + t.AllPairs(row, |row|, |t.v|)
  {
    FactorsAreAllPairs(t, row, |t.v|);
  }

  // ---- dependence on one parameter ----

  /** The row's value at a feature, 0 when it does not occur. */
  function Coef(row: Row, p: nat, n: nat): real
    requires n <= |row|
  {
    if n == 0 then 0.0 else Coef(row, p, n - 1) + if row[n - 1].index == p then row[n - 1].value else 0.0
  }

  lemma {:induction false} WeightedShift(c: seq<real>, row: Row, p: nat, t: real, n: nat)
    requires n <= |row| && Within(row, |c|) && p < |c|
    ensures Weighted(c[p := t], row, n) == Weighted(c, row, n) + (t - c[p]) * Coef(row, p, n)
    decreases n
  {
    if n > 0 {
      WeightedShift(c, row, p, t, n - 1);
    }
  }

  lemma {:induction false} AbsentCoef(row: Row, p: nat, n: nat)
    requires n <= |row| && forall j :: 0 <= j < n ==> row[j].index != p
    ensures Coef(row, p, n) == 0.0
  {
    if n > 0 {
      AbsentCoef(row, p, n - 1);
    }
  }

  /** The sum of the squares of the row's values at a feature. */
  function CoefSquares(row: Row, p: nat, n: nat): real
    requires n <= |row|
  {
    if n == 0 then 0.0
    else CoefSquares(row, p, n - 1) + if row[n - 1].index == p then Times(row[n - 1].value, row[n - 1].value) else 0.0
  }

  /** Where a feature occurs at most once, the square of its value is the sum of the squares. */
  lemma {:induction false} OnceSquares(row: Row, p: nat, n: nat)
    requires n <= |row| && NoRepeats(row)
    ensures CoefSquares(row, p, n) == Coef(row, p, n) * Coef(row, p, n)
  {
    if n > 0 {
      OnceSquares(row, p, n - 1);
      if row[n - 1].index == p {
        AbsentCoef(row, p, n - 1);
      }
    }
  }

  /** t² - c². */
  function Spread(t: real, c: real): real
  {
    t * t - c * c
  }

  lemma {:induction false} SquaresShift(c: seq<real>, row: Row, p: nat, t: real, n: nat)
    requires n <= |row| && Within(row, |c|) && p < |c|
    ensures Squares(c[p := t], row, n) == Squares(c, row, n) + Times(Spread(t, c[p]), CoefSquares(row, p, n))
    decreases n
  {
    if n == 0 {
      assert Times(Spread(t, c[p]), 0.0) == 0.0;
    } else {
      hide Squares, Times, Term, Spread;
      SquaresShift(c, row, p, t, n - 1);
      SquaresUnfolds(c, row, n);
      SquaresUnfolds(c[p := t], row, n);
      TermIs(c, row, n - 1);
      TermIs(c[p := t], row, n - 1);
      if row[n - 1].index == p {
        SquareTerms(t, c[p], row[n - 1].value, CoefSquares(row, p, n - 1), CoefSquares(row, p, n));
      }
    }
  }

  lemma SquareTerms(t: real, c: real, x: real, s: real, s': real)
    requires s' == s + Times(x, x)
    ensures Times(Times(t, x), Times(t, x)) + Times(Spread(t, c), s)
            == Times(Times(c, x), Times(c, x)) + Times(Spread(t, c), s')
  {
    assert (t * x) * (t * x) == t * t * x * x && (c * x) * (c * x) == c * c * x * x;
    assert (t * t - c * c) * (s + x * x) == (t * t - c * c) * s + (t * t - c * c) * (x * x);
  }

  /** How fast a factor's interactions grow with its value at feature p. */
  function Slope(c: seq<real>, row: Row, p: nat): real
    requires Within(row, |c|) && p < |c|
  {
    Tangent(Coef(row, p, |row|), Weighted(c, row, |row|), c[p])
  }

  /** x(s - cx): the slope for the feature's value x, the factor sum s and the parameter c. */
  function Tangent(x: real, s: real, c: real): real
  {
    x * (s - c * x)
  }

  /** How interactions depend on one factor value: along the slope, and beside it as far as the square of
      the feature's value is not the sum of the squares. */
  lemma InteractionShiftAny(c: seq<real>, row: Row, p: nat, t: real)
    requires Within(row, |c|) && p < |c|
    ensures Interaction(c[p := t], row) == Interaction(c, row) + Times(t - c[p], Slope(c, row, p))
            + Times(Spread(t, c[p]), Excess(row, p))
  {
    hide HalfGap, Tangent, Weighted, Squares, Coef, CoefSquares, Times, Spread, Excess;
    WeightedShift(c, row, p, t, |row|);
    SquaresShift(c, row, p, t, |row|);
    ExcessIs(row, p);
    InteractionTerms(Weighted(c, row, |row|), Squares(c, row, |row|), c[p], t, Coef(row, p, |row|),
                     CoefSquares(row, p, |row|), Weighted(c[p := t], row, |row|), Squares(c[p := t], row, |row|),
                     Excess(row, p));
  }

  /** Half of what the square of a feature's value exceeds the sum of the squares by. */
  function Excess(row: Row, p: nat): real
  {
    0.5 * (Coef(row, p, |row|) * Coef(row, p, |row|) - CoefSquares(row, p, |row|))
  }

  lemma ExcessIs(row: Row, p: nat)
    ensures Excess(row, p) == 0.5 * (Times(Coef(row, p, |row|), Coef(row, p, |row|)) - CoefSquares(row, p, |row|))
  {
  }

  lemma InteractionTerms(s: real, q: real, c: real, t: real, x: real, xx: real, s': real, q': real, excess: real)
    requires s' == s + (t - c) * x && q' == q + Times(Spread(t, c), xx) && excess == 0.5 * (Times(x, x) - xx)
    ensures HalfGap(s', q') == HalfGap(s, q) + Times(t - c, Tangent(x, s, c)) + Times(Spread(t, c), excess)
  {
    var d := (t - c) * x;
    assert s' * s' == s * s + 2.0 * s * d + d * d;
    assert d * d - (t * t - c * c) * x * x == -2.0 * c * x * d;
    assert (t * t - c * c) * (x * x - xx) == (t * t - c * c) * x * x - (t * t - c * c) * xx;
  }

  /** With t for the factor value, the interactions are what the slope says. */
  predicate FollowsSlope(c: seq<real>, row: Row, p: nat, t: real)
    requires Within(row, |c|) && p < |c|
  {
    Interaction(c[p := t], row) == Interaction(c, row) + (t - c[p]) * Slope(c, row, p)
  }

  lemma FollowsExactly(c: seq<real>, row: Row, p: nat, t: real)
    requires Within(row, |c|) && p < |c|
    ensures FollowsSlope(c, row, p, t) <==> Spread(t, c[p]) == 0.0 || Excess(row, p) == 0.0
  {
    hide Interaction, Slope, Excess, Spread;
    InteractionShiftAny(c, row, p, t);
    ProductZero(Spread(t, c[p]), Excess(row, p));
  }

  lemma ProductZero(a: real, b: real)
    ensures Times(a, b) == 0.0 <==> a == 0.0 || b == 0.0
  {
  }

  lemma LargerSquare(c: real)
    ensures Spread(if c >= 0.0 then c + 1.0 else c - 1.0, c) != 0.0
  {
    assert (c + 1.0) * (c + 1.0) == c * c + 2.0 * c + 1.0 && (c - 1.0) * (c - 1.0) == c * c - 2.0 * c + 1.0;
  }

  /** Interactions are linear in a single factor value, for all its values, exactly when the square of the
      feature's value is the sum of the squares. */
  lemma LinearExactly(c: seq<real>, row: Row, p: nat)
    requires Within(row, |c|) && p < |c|
    ensures (forall t: real :: FollowsSlope(c, row, p, t))
            <==> Coef(row, p, |row|) * Coef(row, p, |row|) == CoefSquares(row, p, |row|)
  {
    hide FollowsSlope, Coef, CoefSquares, Spread;
    forall t: real
      ensures FollowsSlope(c, row, p, t) <==> Spread(t, c[p]) == 0.0 || Excess(row, p) == 0.0
    {
      FollowsExactly(c, row, p, t);
    }
    LargerSquare(c[p]);
    var far := if c[p] >= 0.0 then c[p] + 1.0 else c[p] - 1.0;
    assert FollowsSlope(c, row, p, far) <==> Excess(row, p) == 0.0;
  }

  /** Without repeated features, interactions are linear in each single factor value. */
  lemma InteractionShift(c: seq<real>, row: Row, p: nat, t: real)
    requires Within(row, |c|) && p < |c| && NoRepeats(row)
    ensures Interaction(c[p := t], row) == Interaction(c, row) + (t - c[p]) * Slope(c, row, p)
  {
    hide Interaction, Slope, Coef, CoefSquares;
    InteractionShiftAny(c, row, p, t);
    OnceSquares(row, p, |row|);
  }

  lemma {:induction false} FactorsShift(a: Machine, b: Machine, row: Row, k: nat, p: nat, t: real, m: nat)
    requires a.Shaped() && k < |a.v| && p < |a.w| && Within(row, |a.w|) && NoRepeats(row) && m <= |a.v|
    requires b == a.(v := a.v[k := a.v[k][p := t]])
    ensures b.Shaped() && b.Factors(row, m)
            == a.Factors(row, m) + if k < m then (t - a.v[k][p]) * Slope(a.v[k], row, p) else 0.0
    decreases m
  {
    assert b.Shaped();
    if m > 0 {
      hide Slope, Interaction;
      FactorsShift(a, b, row, k, p, t, m - 1);
      if m - 1 == k {
        assert b.v[k] == a.v[k][p := t];
        InteractionShift(a.v[k], row, p, t);
      } else {
        assert b.v[m - 1] == a.v[m - 1];
      }
    }
  }
}
