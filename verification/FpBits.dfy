/** 64-bit words as numbers below 2^64: the operators the fingerprint code uses, and what they do to
    single bits. */
module FpBits {
  import opened Powers

  const WORD := 64

  /** 2^64 */
  const WRAP := 0x1_0000_0000_0000_0000

  type Word = w: nat | w < WRAP

  /** Bit j of a number. */
  predicate Bit(w: nat, j: nat)
  {
    if j == 0 then w % 2 == 1 else Bit(w / 2, j - 1)
  }

  // ---- the operators &, |, ^, << and the masks ----

  function And(v: nat, w: nat): (r: nat)
    ensures r <= v && r <= w
  {
    if v == 0 || w == 0 then 0 else 2 * And(v / 2, w / 2) + (if v % 2 == 1 && w % 2 == 1 then 1 else 0)
  }

  function Or(v: nat, w: nat): nat
  {
    if v == 0 && w == 0 then 0 else 2 * Or(v / 2, w / 2) + (if v % 2 == 1 || w % 2 == 1 then 1 else 0)
  }

  function Xor(v: nat, w: nat): nat
  {
    if v == 0 && w == 0 then 0 else 2 * Xor(v / 2, w / 2) + (v + w) % 2
  }

  /** w << s in 64 bits. */
  function ShiftUp(w: Word, s: nat): Word
  {
    w * Pow2(s) % WRAP
  }

  /** (1 << s) - 1 */
  function Ones(s: nat): Word
    requires s < WORD
  {
    Pow2Fits(s);
    Pow2(s) - 1
  }

  /** -(1 << s) in 64 bits. */
  function HighOnes(s: nat): Word
    requires s < WORD
  {
    Pow2Fits(s);
    WRAP - Pow2(s)
  }

  lemma Pow2Four()
    ensures Pow2(4) == 16
  {
  }

  lemma WrapIsPow2()
    ensures Pow2(WORD) == WRAP
  {
    hide Pow2;
    Pow2Four();
    Pow2Sum(4, 4);
    assert Pow2(8) == 0x100;
    Pow2Sum(8, 8);
    assert Pow2(16) == 0x1_0000;
    Pow2Sum(16, 16);
    assert Pow2(32) == 0x1_0000_0000;
    Pow2Sum(32, 32);
  }

  lemma Pow2Fits(s: nat)
    requires s <= WORD
    ensures Pow2(s) <= WRAP && (s < WORD ==> Pow2(s) < WRAP)
  {
    WrapIsPow2();
    Pow2Grows(s, WORD);
    if s < WORD {
      Pow2Grows(s + 1, WORD);
    }
  }

  // ---- bits of the results ----

  lemma {:induction false} ZeroHasNoBits(j: nat)
    ensures !Bit(0, j)
  {
    if j > 0 {
      ZeroHasNoBits(j - 1);
    }
  }

  lemma {:induction false} AndBit(v: nat, w: nat, j: nat)
    ensures Bit(And(v, w), j) <==> Bit(v, j) && Bit(w, j)
    decreases j
  {
    ZeroHasNoBits(j);
    if v != 0 && w != 0 && j > 0 {
      AndBit(v / 2, w / 2, j - 1);
      assert And(v, w) / 2 == And(v / 2, w / 2);
    }
  }

  lemma OrHalves(v: nat, w: nat)
    ensures Or(v, w) / 2 == Or(v / 2, w / 2) && (Or(v, w) % 2 == 1 <==> v % 2 == 1 || w % 2 == 1)
  {
  }

  lemma XorHalves(v: nat, w: nat)
    ensures Xor(v, w) / 2 == Xor(v / 2, w / 2) && (Xor(v, w) % 2 == 1 <==> (v % 2 == 1) != (w % 2 == 1))
  {
    ParityOfSum(v, w);
    if v == 0 && w == 0 {
      assert Xor(0, 0) == 0;
    } else {
      var half, parity := Xor(v / 2, w / 2), (v + w) % 2;
      assert Xor(v, w) == 2 * half + parity;
      hide Xor;
    }
  }

  lemma ParityOfSum(v: nat, w: nat)
    ensures (v + w) % 2 == 1 <==> (v % 2 == 1) != (w % 2 == 1)
  {
    var a, b := v / 2, w / 2;
    assert v + w == 2 * (a + b) + (v % 2 + w % 2);
  }

  lemma {:induction false} OrBit(v: nat, w: nat, j: nat)
    ensures Bit(Or(v, w), j) <==> Bit(v, j) || Bit(w, j)
    decreases j
  {
    hide Or;
    OrHalves(v, w);
    if j > 0 {
      OrBit(v / 2, w / 2, j - 1);
    }
  }

  lemma {:induction false} XorBit(v: nat, w: nat, j: nat)
    ensures Bit(Xor(v, w), j) <==> Bit(v, j) != Bit(w, j)
    decreases j
  {
    hide Xor;
    XorHalves(v, w);
    if j > 0 {
      XorBit(v / 2, w / 2, j - 1);
    }
  }

  /** A number below 2^n has no bits from n up. */
  lemma {:induction false} HighBitsClear(w: nat, n: nat, j: nat)
    requires w < Pow2(n) && n <= j
    ensures !Bit(w, j)
    decreases j
  {
    if n == 0 {
      ZeroHasNoBits(j);
    } else {
      HighBitsClear(w / 2, n - 1, j - 1);
    }
  }

  /** Numbers are equal when their bits are. */
  lemma {:induction false} SameBits(v: nat, w: nat, n: nat)
    requires v < Pow2(n) && w < Pow2(n) && forall j :: 0 <= j < n ==> (Bit(v, j) <==> Bit(w, j))
    ensures v == w
  {
    if n > 0 {
      assert Bit(v, 0) <==> Bit(w, 0);
      forall j | 0 <= j < n - 1
        ensures Bit(v / 2, j) <==> Bit(w / 2, j)
      {
        assert Bit(v, j + 1) <==> Bit(w, j + 1);
      }
      SameBits(v / 2, w / 2, n - 1);
    }
  }

  lemma SameWords(v: Word, w: Word)
    requires forall j :: 0 <= j < WORD ==> (Bit(v, j) <==> Bit(w, j))
    ensures v == w
  {
    WrapIsPow2();
    SameBits(v, w, WORD);
  }

  lemma {:induction false} OnesBit(s: nat, j: nat)
    ensures Bit(Pow2(s) - 1, j) <==> j < s
    decreases j
  {
    if s == 0 {
      ZeroHasNoBits(j);
    } else if j > 0 {
      assert (Pow2(s) - 1) / 2 == Pow2(s - 1) - 1;
      OnesBit(s - 1, j - 1);
    }
  }

  lemma {:induction false} ScaledBit(w: nat, s: nat, j: nat)
    ensures Bit(w * Pow2(s), j) <==> s <= j && Bit(w, j - s)
    decreases j
  {
    if s > 0 {
      var half := w * Pow2(s - 1);
      assert w * Pow2(s) == 2 * half;
      if j > 0 {
        ScaledBit(w, s - 1, j - 1);
      }
    }
  }

  lemma RunFits(b: nat, s: nat)
    requires b < WORD && s < WORD && b + s <= WORD
    ensures ShiftUp(Ones(b), s) == Ones(b) * Pow2(s)
  {
    Pow2Sum(b, s);
    Pow2Fits(b + s);
    Unwrapped(Ones(b), Pow2(b), Pow2(s));
  }

  lemma Unwrapped(ones: nat, p: nat, q: nat)
    requires ones == p - 1 && q >= 1 && p * q <= WRAP
    ensures ones * q % WRAP == ones * q
  {
    assert ones * q == p * q - q;
  }

  /** The bits s, ..., s + b - 1. */
  lemma RunBit(b: nat, s: nat, j: nat)
    requires b < WORD && s < WORD && b + s <= WORD
    ensures Bit(ShiftUp(Ones(b), s), j) <==> s <= j < s + b
  {
    RunFits(b, s);
    ScaledBit(Ones(b), s, j);
    if s <= j {
      OnesBit(b, j - s);
    }
    hide Pow2, Bit;
  }

  /** The bits from s up to the top. */
  lemma HighOnesScaled(s: nat)
    requires s < WORD
    ensures HighOnes(s) == (Pow2(WORD - s) - 1) * Pow2(s)
  {
    hide Pow2;
    Pow2Sum(WORD - s, s);
    WrapIsPow2();
    ProductLess(Pow2(WORD - s), Pow2(s));
  }

  lemma ProductLess(p: nat, q: nat)
    ensures (p - 1) * q == p * q - q
  {
  }

  lemma HighOnesBit(s: nat, j: nat)
    requires s < WORD && j < WORD
    ensures Bit(HighOnes(s), j) <==> s <= j
  {
    hide Pow2, Bit, HighOnes;
    HighOnesScaled(s);
    var ones := Pow2(WORD - s) - 1;
    ScaledBit(ones, s, j);
    if s <= j {
      OnesBit(WORD - s, j - s);
    }
  }

  // ---- staying within a word ----

  lemma {:induction false} OrFits(v: nat, w: nat, n: nat)
    requires v < Pow2(n) && w < Pow2(n)
    ensures Or(v, w) < Pow2(n)
    decreases n
  {
    if n > 0 {
      OrFits(v / 2, w / 2, n - 1);
    }
  }

  lemma {:induction false} XorFits(v: nat, w: nat, n: nat)
    requires v < Pow2(n) && w < Pow2(n)
    ensures Xor(v, w) < Pow2(n)
    decreases n
  {
    if n > 0 {
      XorFits(v / 2, w / 2, n - 1);
    }
  }
}
