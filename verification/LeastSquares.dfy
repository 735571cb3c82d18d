/** Regularised least squares in one coordinate: the closed form the ALS updates use is the minimiser. */
module LeastSquares {
  import opened Vectors

  /** a + t·h. */
  function Along(a: seq<real>, h: seq<real>, t: real): (c: seq<real>)
    requires |a| == |h|
    ensures |c| == |a|
  {
    seq(|a|, i requires 0 <= i < |a| => a[i] + t * h[i])
  }

  /** reg·t². */
  function Ridge(reg: real, t: real): real
  {
    reg * t * t
  }

  /** |a + t·h|² + reg·t². */
  function Fit(a: seq<real>, h: seq<real>, reg: real, t: real): real
    requires |a| == |h|
  {
    Dot(Along(a, h, t), Along(a, h, t)) + Ridge(reg, t)
  }

  /** The value -(a·h) / (h·h + reg). */
  function Best(a: seq<real>, h: seq<real>, reg: real): real
    requires |a| == |h| && Dot(h, h) + reg > 0.0
  {
    -Dot(a, h) / (Dot(h, h) + reg)
  }

  lemma {:induction false} SquaresNonNegative(h: seq<real>, n: nat)
    requires n <= |h|
    ensures DotTo(h, h, n) >= 0.0
  {
    if n > 0 {
      SquaresNonNegative(h, n - 1);
      assert h[n - 1] * h[n - 1] >= 0.0;
    }
  }

  function Quadratic(c: real, b: real, a: real, t: real): real
  {
    c + 2.0 * t * b + t * t * a
  }

  lemma {:induction false} SquaredAlong(a: seq<real>, h: seq<real>, t: real, n: nat)
    requires |a| == |h| && n <= |a|
    ensures DotTo(Along(a, h, t), Along(a, h, t), n)
            == Quadratic(DotTo(a, a, n), DotTo(a, h, n), DotTo(h, h, n), t)
  {
    hide *;
    DotUnfolds(a, a, n);
    DotUnfolds(a, h, n);
    DotUnfolds(h, h, n);
    DotUnfolds(Along(a, h, t), Along(a, h, t), n);
    if n == 0 {
      QuadraticOfNothing(t);
    } else {
      SquaredAlong(a, h, t, n - 1);
      AlongAt(a, h, t, n - 1);
      QuadraticStep(DotTo(a, a, n - 1), DotTo(a, h, n - 1), DotTo(h, h, n - 1), t, a[n - 1], h[n - 1],
                    Along(a, h, t)[n - 1], DotTo(a, a, n), DotTo(a, h, n), DotTo(h, h, n));
    }
  }

  lemma DotUnfolds(a: seq<real>, b: seq<real>, n: nat)
    requires n <= |a| && n <= |b|
    ensures DotTo(a, b, n) == if n == 0 then 0.0 else DotTo(a, b, n - 1) + a[n - 1] * b[n - 1]
  {
  }

  lemma AlongAt(a: seq<real>, h: seq<real>, t: real, i: nat)
    requires |a| == |h| && i < |a|
    ensures Along(a, h, t)[i] == a[i] + t * h[i]
  {
  }

  lemma QuadraticOfNothing(t: real)
    ensures Quadratic(0.0, 0.0, 0.0, t) == 0.0
  {
  }

  lemma QuadraticStep(c: real, b: real, a: real, t: real, x: real, y: real, z: real, c': real, b': real, a': real)
    requires z == x + t * y && c' == c + x * x && b' == b + x * y && a' == a + y * y
    ensures Quadratic(c, b, a, t) + z * z == Quadratic(c', b', a', t)
  {
    assert z * z == x * x + 2.0 * t * (x * y) + t * t * (y * y);
  }

  lemma QuadraticMinimum(c: real, b: real, a: real, best: real, t: real)
    requires a > 0.0 && best == -b / a
    ensures Quadratic(c, b, a, best) <= Quadratic(c, b, a, t)
  {
    assert b == -best * a;
    var d := t - best;
    CompletedSquare(c, b, a, best, d);
    assert d * d >= 0.0;
    assert d * d * a >= 0.0;
  }

  lemma CompletedSquare(c: real, b: real, a: real, best: real, d: real)
    requires b == -best * a
    ensures Quadratic(c, b, a, best + d) == Quadratic(c, b, a, best) + d * d * a
  {
    assert (best + d) * (best + d) * a == best * best * a + 2.0 * d * (best * a) + d * d * a;
  }

  /** The closed form minimises the fit over all values of the coordinate. */
  lemma BestFit(a: seq<real>, h: seq<real>, reg: real, t: real)
    requires |a| == |h| && Dot(h, h) + reg > 0.0
    ensures Fit(a, h, reg, Best(a, h, reg)) <= Fit(a, h, reg, t)
  {
    hide Quadratic, Ridge, DotTo;
    var best := Best(a, h, reg);
    SquaredAlong(a, h, t, |a|);
    SquaredAlong(a, h, best, |a|);
    Regularised(Dot(a, a), Dot(a, h), Dot(h, h), reg, t);
    Regularised(Dot(a, a), Dot(a, h), Dot(h, h), reg, best);
    QuadraticMinimum(Dot(a, a), Dot(a, h), Dot(h, h) + reg, best, t);
  }

  lemma Regularised(c: real, b: real, a: real, reg: real, t: real)
    ensures Quadratic(c, b, a, t) + Ridge(reg, t) == Quadratic(c, b, a + reg, t)
  {
  }

  /** Moving along h from a + t·h. */
  lemma AlongFrom(a: seq<real>, h: seq<real>, s: real, t: real)
    requires |a| == |h|
    ensures Along(Along(a, h, s), h, t) == Along(a, h, s + t)
  {
    forall i | 0 <= i < |a|
      ensures a[i] + s * h[i] + t * h[i] == a[i] + (s + t) * h[i]
    {
    }
  }
}
