/** SimHash fingerprints: vectors of words, masked comparison, and the Hamming distance. */
module Fingerprints {
  import opened FpBits

  type SimHash = seq<Word>

  /** Bit b of a fingerprint: bit b % 64 of word b / 64. */
  predicate FpBit(fp: seq<Word>, b: int)
    requires 0 <= b < WORD * |fp|
  {
    Bit(fp[b / WORD], b % WORD)
  }

  // ---- masking ----

  function Masked(fp: SimHash, mask: SimHash): (m: SimHash)
    requires |fp| == |mask|
    ensures |m| == |fp|
  {
    seq(|fp|, i requires 0 <= i < |fp| => And(fp[i], mask[i]))
  }

  /** Two fingerprints agree on every bit the mask selects. */
  ghost predicate AgreeOn(x: SimHash, y: SimHash, mask: SimHash)
    requires |x| == |y| == |mask|
  {
    forall b :: 0 <= b < WORD * |mask| && FpBit(mask, b) ==> (FpBit(x, b) <==> FpBit(y, b))
  }

  lemma WordAgrees(x: SimHash, y: SimHash, mask: SimHash, i: int)
    requires |x| == |y| == |mask| && AgreeOn(x, y, mask) && 0 <= i < |mask|
    ensures And(x[i], mask[i]) == And(y[i], mask[i])
  {
    forall j | 0 <= j < WORD
      ensures Bit(And(x[i], mask[i]), j) <==> Bit(And(y[i], mask[i]), j)
    {
      AndBit(x[i], mask[i], j);
      AndBit(y[i], mask[i], j);
      assert FpBit(mask, WORD * i + j) <==> Bit(mask[i], j);
      assert FpBit(x, WORD * i + j) <==> Bit(x[i], j);
      assert FpBit(y, WORD * i + j) <==> Bit(y[i], j);
    }
    SameWords(And(x[i], mask[i]), And(y[i], mask[i]));
  }

  /** Masked fingerprints are equal exactly when the fingerprints agree on the masked bits. */
  lemma MaskedEqual(x: SimHash, y: SimHash, mask: SimHash)
    requires |x| == |y| == |mask|
    ensures Masked(x, mask) == Masked(y, mask) <==> AgreeOn(x, y, mask)
  {
    if AgreeOn(x, y, mask) {
      forall i | 0 <= i < |mask|
        ensures Masked(x, mask)[i] == Masked(y, mask)[i]
      {
        WordAgrees(x, y, mask, i);
      }
    }
    if Masked(x, mask) == Masked(y, mask) {
      forall b | 0 <= b < WORD * |mask| && FpBit(mask, b)
        ensures FpBit(x, b) <==> FpBit(y, b)
      {
        var i := b / WORD;
        assert Masked(x, mask)[i] == Masked(y, mask)[i];
        AndBit(x[i], mask[i], b % WORD);
        AndBit(y[i], mask[i], b % WORD);
      }
    }
  }

  // ---- order, from the highest word down ----

  /** Words n-1, ..., 0 compared in that order. */
  predicate Before(x: SimHash, y: SimHash, n: nat)
    requires n <= |x| && n <= |y|
  {
    n > 0 && (x[n - 1] < y[n - 1] || (x[n - 1] == y[n - 1] && Before(x, y, n - 1)))
  }

  lemma {:induction false} BeforeTotal(x: SimHash, y: SimHash, n: nat)
    requires n <= |x| && n <= |y|
    ensures Before(x, y, n) || Before(y, x, n) || x[..n] == y[..n]
    ensures !(Before(x, y, n) && Before(y, x, n))
    ensures x[..n] == y[..n] ==> !Before(x, y, n)
  {
    if n > 0 {
      BeforeTotal(x, y, n - 1);
      assert x[..n] == x[..n - 1] + [x[n - 1]] && y[..n] == y[..n - 1] + [y[n - 1]];
    }
  }

  /** Word i is the highest of the first n in which x and y differ, and x has the smaller one. */
  ghost predicate DecidedAt(x: SimHash, y: SimHash, n: nat, i: nat)
    requires n <= |x| && n <= |y|
  {
    i < n && x[i] < y[i] && forall k :: i < k < n ==> x[k] == y[k]
  }

  /** The highest word that differs decides. */
  lemma {:induction false} BeforeByHighest(x: SimHash, y: SimHash, n: nat)
    requires n <= |x| && n <= |y|
    ensures Before(x, y, n) <==> exists i: nat :: DecidedAt(x, y, n, i)
  {
    if n > 0 {
      BeforeByHighest(x, y, n - 1);
      if x[n - 1] < y[n - 1] {
        assert DecidedAt(x, y, n, n - 1);
      } else if Before(x, y, n) {
        var i: nat :| DecidedAt(x, y, n - 1, i);
        assert DecidedAt(x, y, n, i);
      } else if i: nat :| DecidedAt(x, y, n, i) {
        assert DecidedAt(x, y, n - 1, i);
      }
    }
  }

  lemma BeforeAsymmetric(x: SimHash, y: SimHash, n: nat)
    requires n <= |x| && n <= |y| && Before(x, y, n)
    ensures !Before(y, x, n)
  {
    BeforeTotal(x, y, n);
    hide *;
  }

  lemma {:induction false} BeforeTransitive(x: SimHash, y: SimHash, z: SimHash, n: nat)
    requires n <= |x| && n <= |y| && n <= |z| && !Before(y, x, n) && !Before(z, y, n)
    ensures !Before(z, x, n)
  {
    if n > 0 && x[n - 1] == y[n - 1] == z[n - 1] {
      BeforeTransitive(x, y, z, n - 1);
    }
  }

  /** FpTable's comparator. */
  method TableLess(left: SimHash, right: SimHash, mask: SimHash) returns (less: bool)
    requires |left| == |right| == |mask|
    ensures less == Before(Masked(left, mask), Masked(right, mask), |mask|)
  {
    var i := |mask| - 1;
    while i >= 0
      invariant -1 <= i < |mask|
      invariant Before(Masked(left, mask), Masked(right, mask), |mask|)
                == Before(Masked(left, mask), Masked(right, mask), i + 1)
    {
      if And(left[i], mask[i]) < And(right[i], mask[i]) {
        return true;
      }
      if And(left[i], mask[i]) > And(right[i], mask[i]) {
        return false;
      }
      i := i - 1;
    }
    return false;
  }

  method GetMaskedBits(raw: SimHash, mask: SimHash) returns (masked: SimHash)
    requires |raw| == |mask|
    ensures masked == Masked(raw, mask)
  {
    masked := [];
    for i := 0 to |raw|
      invariant masked == Masked(raw, mask)[..i]
    {
      masked := masked + [And(raw[i], mask[i])];
    }
  }

  // ---- Hamming distance ----

  /** Number of true entries among the first n. */
  function Trues(d: seq<bool>, n: nat): (t: nat)
    requires n <= |d|
    ensures t <= n
  {
    if n == 0 then 0 else Trues(d, n - 1) + if d[n - 1] then 1 else 0
  }

  /** Number of set bits among the lowest n: the population count for n = 64. */
  function BitCount(w: nat, n: nat): nat
  {
    if n == 0 then 0 else BitCount(w, n - 1) + if Bit(w, n - 1) then 1 else 0
  }

  function DistanceTo(x: SimHash, y: SimHash, n: nat): nat
    requires n <= |x| == |y|
  {
    if n == 0 then 0 else DistanceTo(x, y, n - 1) + BitCount(Xor(x[n - 1], y[n - 1]), WORD)
  }

  function Hamming(x: SimHash, y: SimHash): nat
    requires |x| == |y|
  {
    DistanceTo(x, y, |x|)
  }

  method CalcHammingDist(fp: SimHash, ofp: SimHash) returns (distance: nat)
    requires |fp| == |ofp|
    ensures distance == Hamming(fp, ofp)
  {
    distance := 0;
    for i := 0 to |fp|
      invariant distance == DistanceTo(fp, ofp, i)
    {
      distance := distance + BitCount(Xor(fp[i], ofp[i]), WORD);
    }
  }

  /** The bits in which two fingerprints differ. */
  function Differ(x: SimHash, y: SimHash): (d: seq<bool>)
    requires |x| == |y|
    ensures |d| == WORD * |x|
  {
    seq(WORD * |x|, b requires 0 <= b < WORD * |x| => FpBit(x, b) != FpBit(y, b))
  }

  lemma TruesNext(d: seq<bool>, n: nat)
    requires n < |d|
    ensures Trues(d, n + 1) == Trues(d, n) + if d[n] then 1 else 0
  {
  }

  lemma BitCountNext(w: nat, n: nat)
    ensures BitCount(w, n + 1) == BitCount(w, n) + if Bit(w, n) then 1 else 0
  {
  }

  lemma DifferAt(x: SimHash, y: SimHash, i: nat, j: nat)
    requires i < |x| == |y| && j < WORD
    ensures WORD * i + j < |Differ(x, y)|
    ensures Differ(x, y)[WORD * i + j] == (Bit(x[i], j) != Bit(y[i], j))
  {
    hide Bit;
    var b := WORD * i + j;
    assert b / WORD == i && b % WORD == j;
  }

  lemma {:induction false} WordDistance(x: SimHash, y: SimHash, i: nat, n: nat)
    requires i < |x| == |y| && n <= WORD
    ensures Trues(Differ(x, y), WORD * i + n) == Trues(Differ(x, y), WORD * i) + BitCount(Xor(x[i], y[i]), n)
    decreases n
  {
    hide Trues, Differ, BitCount, Bit, Xor;
    if n == 0 {
      NoBits(Xor(x[i], y[i]));
    } else {
      TruesNext(Differ(x, y), WORD * i + (n - 1));
      BitCountNext(Xor(x[i], y[i]), n - 1);
      WordDistance(x, y, i, n - 1);
      XorBit(x[i], y[i], n - 1);
      DifferAt(x, y, i, n - 1);
    }
  }

  lemma NoBits(w: nat)
    ensures BitCount(w, 0) == 0
  {
  }

  lemma DistanceUnfolds(x: SimHash, y: SimHash, n: nat)
    requires n <= |x| == |y|
    ensures DistanceTo(x, y, n)
            == if n == 0 then 0 else DistanceTo(x, y, n - 1) + BitCount(Xor(x[n - 1], y[n - 1]), WORD)
  {
  }

  lemma NoTrues(d: seq<bool>)
    ensures Trues(d, 0) == 0
  {
  }

  lemma {:induction false} DistanceCountsBits(x: SimHash, y: SimHash, n: nat)
    requires n <= |x| == |y|
    ensures Trues(Differ(x, y), WORD * n) == DistanceTo(x, y, n)
  {
    hide Trues, BitCount, Differ, Xor, DistanceTo;
    DistanceUnfolds(x, y, n);
    if n == 0 {
      NoTrues(Differ(x, y));
    } else {
      DistanceCountsBits(x, y, n - 1);
      WordDistance(x, y, n - 1, WORD);
    }
  }

  /** The computed distance is the number of differing bits. */
  lemma HammingCountsBits(x: SimHash, y: SimHash)
    requires |x| == |y|
    ensures Hamming(x, y) == Trues(Differ(x, y), WORD * |x|)
  {
    DistanceCountsBits(x, y, |x|);
  }

  /** Distance does not depend on the order of its arguments. */
  lemma HammingSymmetric(x: SimHash, y: SimHash)
    requires |x| == |y|
    ensures Hamming(x, y) == Hamming(y, x)
  {
    HammingCountsBits(x, y);
    HammingCountsBits(y, x);
    assert Differ(x, y) == Differ(y, x);
  }
}
