/** Real vectors and quadratic forms, with the laws of changing one coordinate. */
module Vectors {

  function Abs(x: real): real
  {
    if x < 0.0 then -x else x
  }

  /** Inner product of the first n coordinates. */
  function DotTo(a: seq<real>, b: seq<real>, n: nat): real
    requires n <= |a| && n <= |b|
  {
    if n == 0 then 0.0 else DotTo(a, b, n - 1) + a[n - 1] * b[n - 1]
  }

  function Dot(a: seq<real>, b: seq<real>): real
    requires |a| == |b|
  {
    DotTo(a, b, |a|)
  }

  lemma {:induction false} DotToUpdate(a: seq<real>, b: seq<real>, i: nat, v: real, n: nat)
    requires i < |b| && n <= |a| && n <= |b|
    ensures DotTo(a, b[i := v], n) == DotTo(a, b, n) + (if i < n then a[i] * (v - b[i]) else 0.0)
  {
    if n > 0 {
      DotToUpdate(a, b, i, v, n - 1);
    }
  }

  lemma DotUpdate(a: seq<real>, b: seq<real>, i: nat, v: real)
    requires |a| == |b| && i < |b|
    ensures Dot(a, b[i := v]) == Dot(a, b) + a[i] * (v - b[i])
  {
    DotToUpdate(a, b, i, v, |a|);
  }

  lemma {:induction false} DotToComm(a: seq<real>, b: seq<real>, n: nat)
    requires n <= |a| && n <= |b|
    ensures DotTo(a, b, n) == DotTo(b, a, n)
  {
    if n > 0 {
      DotToComm(a, b, n - 1);
    }
  }

  /** Linearity: if c = b + d·w then a·c = a·b + d (a·w). */
  lemma {:induction false} DotToLinear(a: seq<real>, b: seq<real>, w: seq<real>, c: seq<real>, d: real, n: nat)
    requires n <= |a| && n <= |b| && n <= |w| && n <= |c|
    requires forall k :: 0 <= k < n ==> c[k] == b[k] + d * w[k]
    ensures DotTo(a, c, n) == DotTo(a, b, n) + d * DotTo(a, w, n)
  {
    if n > 0 {
      DotToLinear(a, b, w, c, d, n - 1);
      LinearTerm(a[n - 1], b[n - 1], w[n - 1], d, DotTo(a, w, n - 1));
    }
  }

  lemma LinearTerm(a: real, b: real, w: real, d: real, s: real)
    ensures a * (b + d * w) + d * s == a * b + d * (s + a * w)
  {
    assert a * (d * w) == d * (a * w);
  }

  lemma {:induction false} DotToZero(a: seq<real>, b: seq<real>, n: nat)
    requires n <= |a| && n <= |b|
    requires forall k :: 0 <= k < n ==> b[k] == 0.0
    ensures DotTo(a, b, n) == 0.0
  {
    if n > 0 {
      DotToZero(a, b, n - 1);
    }
  }

  ghost predicate Square(K: seq<seq<real>>)
  {
    forall i :: 0 <= i < |K| ==> |K[i]| == |K|
  }

  ghost predicate Symmetric(K: seq<seq<real>>)
    requires Square(K)
  {
    forall i, j :: 0 <= i < |K| && 0 <= j < |K| ==> K[i][j] == K[j][i]
  }

  function MatVec(K: seq<seq<real>>, a: seq<real>): (v: seq<real>)
    requires Square(K) && |a| == |K|
    ensures |v| == |K|
  {
    seq(|K|, i requires 0 <= i < |K| => Dot(K[i], a))
  }

  /** aᵀKa. */
  function Quad(K: seq<seq<real>>, a: seq<real>): real
    requires Square(K) && |a| == |K|
  {
    Dot(a, MatVec(K, a))
  }

  lemma DotShift(a: seq<real>, b: seq<real>, i: nat, d: real)
    requires |a| == |b| && i < |b|
    ensures Dot(a, b[i := b[i] + d]) == Dot(a, b) + a[i] * d
  {
    DotUpdate(a, b, i, b[i] + d);
    assert b[i] + d - b[i] == d;
  }

  lemma DotComm(a: seq<real>, b: seq<real>)
    requires |a| == |b|
    ensures Dot(a, b) == Dot(b, a)
  {
    DotToComm(a, b, |a|);
  }

  lemma DotLinear(a: seq<real>, b: seq<real>, w: seq<real>, c: seq<real>, d: real)
    requires |a| == |b| == |w| == |c|
    requires forall k :: 0 <= k < |a| ==> c[k] == b[k] + d * w[k]
    ensures Dot(a, c) == Dot(a, b) + d * Dot(a, w)
  {
    DotToLinear(a, b, w, c, d, |a|);
  }

  lemma MatVecShift(K: seq<seq<real>>, a: seq<real>, i: nat, d: real, k: nat)
    requires Square(K) && Symmetric(K) && |a| == |K| && i < |a| && k < |a|
    ensures MatVec(K, a[i := a[i] + d])[k] == MatVec(K, a)[k] + d * K[i][k]
  {
    DotShift(K[k], a, i, d);
    assert K[k][i] * d == d * K[i][k];
  }

  /** The two inner products the change of a quadratic form is made of. */
  lemma QuadSplit(K: seq<seq<real>>, a: seq<real>, i: nat, d: real) returns (s: real, t: real)
    requires Square(K) && Symmetric(K) && |a| == |K| && i < |a|
    ensures Quad(K, a[i := a[i] + d]) == s + d * t
    ensures s == Quad(K, a) + Dot(K[i], a) * d
    ensures t == Dot(K[i], a) + K[i][i] * d
  {
    var b := a[i := a[i] + d];
    var Ka, Kb := MatVec(K, a), MatVec(K, b);
    s, t := Dot(Ka, b), Dot(K[i], b);
    forall k | 0 <= k < |a| { MatVecShift(K, a, i, d, k); }
    DotLinear(b, Ka, K[i], Kb, d);
    DotComm(b, Ka);
    DotComm(b, K[i]);
    DotComm(a, Ka);
    DotShift(Ka, a, i, d);
    DotShift(K[i], a, i, d);
  }

  /** Moving one coordinate by d changes the quadratic form by 2d(Ka)_i + d²K_ii. */
  lemma QuadUpdate(K: seq<seq<real>>, a: seq<real>, i: nat, d: real)
    requires Square(K) && Symmetric(K) && |a| == |K| && i < |a|
    ensures Quad(K, a[i := a[i] + d]) == Quad(K, a) + 2.0 * d * Dot(K[i], a) + d * d * K[i][i]
  {
    var s, t := QuadSplit(K, a, i, d);
    QuadTerms(Quad(K, a[i := a[i] + d]), s, t, Quad(K, a), Dot(K[i], a), K[i][i], d);
  }

  lemma QuadTerms(qb: real, s: real, t: real, qa: real, g: real, k: real, d: real)
    requires qb == s + d * t && s == qa + g * d && t == g + k * d
    ensures qb == qa + 2.0 * d * g + d * d * k
  {
    assert d * t == d * g + d * (k * d);
    assert d * (k * d) == d * d * k;
  }
}
