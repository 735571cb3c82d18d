/** The bit-flip table of the sketch index: walking over its own earlier entries, it lists all masks of
    one, two and three bits, each once. */
module BitFlips {
  import opened Powers
  import opened FpBits
  import opened PairNumbers
  import opened Combinations

  /** The mask has exactly the bits of the vector. */
  ghost predicate MaskFor(vec: seq<nat>, mask: nat, p: nat)
  {
    mask < Pow2(p) && forall b: nat :: Bit(mask, b) <==> b in vec
  }

  lemma {:induction false} PowerBit(i: nat, b: nat)
    ensures Bit(Pow2(i), b) <==> b == i
    decreases b
  {
    if i == 0 {
      if b > 0 {
        ZeroHasNoBits(b - 1);
      }
    } else if b > 0 {
      assert Pow2(i) / 2 == Pow2(i - 1);
      PowerBit(i - 1, b - 1);
    }
  }

  lemma SingleMask(i: nat, p: nat)
    requires i < p
    ensures MaskFor([i], Pow2(i), p)
  {
    Pow2Grows(i + 1, p);
    forall b: nat
      ensures Bit(Pow2(i), b) <==> b in [i]
    {
      PowerBit(i, b);
    }
  }

  lemma LongerMask(vec: seq<nat>, mask: nat, j: nat, p: nat)
    requires MaskFor(vec, mask, p) && j < p
    ensures MaskFor(vec + [j], Or(mask, Pow2(j)), p)
  {
    Pow2Grows(j + 1, p);
    OrFits(mask, Pow2(j), p);
    forall b: nat
      ensures Bit(Or(mask, Pow2(j)), b) <==> b in vec + [j]
    {
      OrBit(mask, Pow2(j), b);
      PowerBit(j, b);
    }
  }

  /** Masks of equal vectors are equal. */
  lemma MaskIsUnique(vec: seq<nat>, v: nat, w: nat, p: nat)
    requires MaskFor(vec, v, p) && MaskFor(vec, w, p)
    ensures v == w
  {
    SameBits(v, w, p);
  }

  // ---- the table ----

  /** Entry t of the table is the mask of the t-th vector. */
  ghost predicate Masks(sets: seq<seq<nat>>, table: seq<nat>, p: nat)
  {
    && |sets| == |table| && (forall t :: 0 <= t < |sets| ==> |sets[t]| >= 1)
    && forall t :: 0 <= t < |sets| ==> Increasing(sets[t], p) && MaskFor(sets[t], table[t], p)
  }

  ghost predicate Different(sets: seq<seq<nat>>)
  {
    forall s, t :: 0 <= s < t < |sets| ==> sets[s] != sets[t]
  }

  lemma PushMask(sets: seq<seq<nat>>, table: seq<nat>, p: nat, vec: seq<nat>, mask: nat)
    requires Masks(sets, table, p) && Different(sets) && vec != [] && Increasing(vec, p) && MaskFor(vec, mask, p)
    requires vec !in sets
    ensures Masks(sets + [vec], table + [mask], p) && Different(sets + [vec])
  {
    hide Increasing, MaskFor;
  }

  /** The single bits fill the first p entries. */
  ghost predicate Singles(sets: seq<seq<nat>>, n: nat)
  {
    n <= |sets| && forall i :: 0 <= i < n ==> sets[i] == [i]
  }

  /** The pairs before (i, j) follow, row by row. */
  ghost predicate PairsTo(sets: seq<seq<nat>>, p: nat, i: nat, j: nat)
  {
    forall a, b :: 0 <= a < b < p && Earlier(a, b, i, j)
      ==> p + PairNo(p, a, b) < |sets| && sets[p + PairNo(p, a, b)] == [a, b]
  }

  method SingleBits(p: nat) returns (table: seq<nat>, ghost sets: seq<seq<nat>>)
    ensures Masks(sets, table, p) && Different(sets) && |sets| == p && Singles(sets, p)
  {
    table, sets := [], [];
    for i := 0 to p
      invariant Masks(sets, table, p) && Different(sets) && |sets| == i && Singles(sets, i)
    {
      SingleMask(i, p);
      PushMask(sets, table, p, [i], Pow2(i));
      table, sets := table + [Pow2(i)], sets + [[i]];
    }
  }

  /** Everything listed so far comes before vec: it is shorter or lexicographically smaller. */
  ghost predicate Precede(sets: seq<seq<nat>>, vec: seq<nat>)
  {
    forall t :: 0 <= t < |sets| ==> |sets[t]| < |vec| || (|sets[t]| == |vec| && LexLess(sets[t], vec))
  }

  lemma PrecedeNext(sets: seq<seq<nat>>, vec: seq<nat>, next: seq<nat>)
    requires Precede(sets, vec) && |vec| == |next| && LexLess(vec, next)
    ensures Precede(sets, next) && Precede(sets + [vec], next) && vec !in sets
  {
    forall t | 0 <= t < |sets| && |sets[t]| == |vec|
      ensures LexLess(sets[t], next) && sets[t] != vec
    {
      LexTransitive(sets[t], vec, next);
    }
    hide LexLess;
  }

  lemma PairOrder(i: nat, j: nat, a: nat, b: nat)
    requires i < a || (i == a && j < b)
    ensures LexLess([i, j], [a, b])
  {
    assert DifferAt([i, j], [a, b], if i < a then 0 else 1);
  }

  lemma TripleOrder(i: nat, j: nat, k: nat, a: nat, b: nat, c: nat)
    requires i < a || (i == a && j < b) || (i == a && j == b && k < c)
    ensures LexLess([i, j, k], [a, b, c])
  {
    assert DifferAt([i, j, k], [a, b, c], if i < a then 0 else if j < b then 1 else 2);
  }

  /** The table with its ghost record while pairs are added. */
  ghost predicate PairState(sets: seq<seq<nat>>, table: seq<nat>, p: nat, i: nat, j: nat)
  {
    && Masks(sets, table, p) && Different(sets) && Singles(sets, p) && PairsTo(sets, p, i, j) && Precede(sets, [i, j])
    && i < p && j <= p && i < j && |sets| == p + RowStart(p, i) + (j - i - 1)
  }

  lemma PairsPush(sets: seq<seq<nat>>, p: nat, i: nat, j: nat)
    requires PairsTo(sets, p, i, j) && i < j < p && |sets| == p + PairNo(p, i, j)
    ensures PairsTo(sets + [[i, j]], p, i, j + 1)
  {
    hide PairNo;
  }

  lemma SinglesPush(sets: seq<seq<nat>>, n: nat, vec: seq<nat>)
    requires Singles(sets, n)
    ensures Singles(sets + [vec], n)
  {
  }

  lemma PairIncreases(i: nat, j: nat, p: nat)
    requires i < j < p
    ensures Increasing([i, j], p)
  {
  }

  lemma PushPair(sets: seq<seq<nat>>, table: seq<nat>, p: nat, i: nat, j: nat)
    requires PairState(sets, table, p, i, j) && j < p && i < |table|
    ensures PairState(sets + [[i, j]], table + [Or(table[i], Pow2(j))], p, i, j + 1)
  {
    assert sets[i] == [i] && MaskFor([i], table[i], p);
    hide LexLess, MaskFor, RowStart, PairsTo, Singles, Masks, Different, Precede, Increasing, Or, Pow2;
    PairOrder(i, j, i, j + 1);
    PrecedeNext(sets, [i, j], [i, j + 1]);
    LongerMask([i], table[i], j, p);
    assert [i] + [j] == [i, j];
    PairIncreases(i, j, p);
    PushMask(sets, table, p, [i, j], Or(table[i], Pow2(j)));
    PairsPush(sets, p, i, j);
    SinglesPush(sets, p, [i, j]);
  }

  lemma NextPairRow(sets: seq<seq<nat>>, table: seq<nat>, p: nat, i: nat)
    requires PairState(sets, table, p, i, p) && i + 1 < p
    ensures PairState(sets, table, p, i + 1, i + 2)
  {
    PairOrder(i, p, i + 1, i + 2);
    PrecedeNext(sets, [i, p], [i + 1, i + 2]);
    forall a, b | 0 <= a < b < p && Earlier(a, b, i + 1, i + 2)
      ensures p + PairNo(p, a, b) < |sets| && sets[p + PairNo(p, a, b)] == [a, b]
    {
      assert Earlier(a, b, i, p);
    }
    hide LexLess, MaskFor;
  }

  lemma FirstPair(sets: seq<seq<nat>>, table: seq<nat>, p: nat)
    requires p >= 2 && Masks(sets, table, p) && Different(sets) && |sets| == p && Singles(sets, p)
    ensures PairState(sets, table, p, 0, 1)
  {
  }

  /** All singles and all pairs are listed. */
  ghost predicate ShortState(sets: seq<seq<nat>>, table: seq<nat>, p: nat)
  {
    && Masks(sets, table, p) && Different(sets) && Singles(sets, p) && PairsTo(sets, p, p, 0)
    && forall t :: 0 <= t < |sets| ==> |sets[t]| <= 2
  }

  lemma PairsDone(sets: seq<seq<nat>>, table: seq<nat>, p: nat)
    requires p >= 2 && PairState(sets, table, p, p - 1, p)
    ensures ShortState(sets, table, p)
  {
    forall a, b | 0 <= a < b < p && Earlier(a, b, p, 0)
      ensures p + PairNo(p, a, b) < |sets| && sets[p + PairNo(p, a, b)] == [a, b]
    {
      assert Earlier(a, b, p - 1, p);
    }
    hide LexLess, MaskFor, PairNo;
  }

  /** The pairs of one first member. */
  method AddPairRow(p: nat, i: nat, known: seq<nat>, id1: nat, ghost listed: seq<seq<nat>>)
    returns (table: seq<nat>, ghost sets: seq<seq<nat>>)
    requires i + 1 < p && PairState(listed, known, p, i, i + 1) && i < |known| && id1 == known[i]
    ensures PairState(sets, table, p, i, p)
  {
    table, sets := known, listed;
    hide *;
    for j := i + 1 to p
      invariant PairState(sets, table, p, i, j) && i < |table| && id1 == table[i]
    {
      PushPair(sets, table, p, i, j);
      table, sets := table + [Or(id1, Pow2(j))], sets + [[i, j]];
    }
  }

  /** The second pair of loops: the pairs, read off the single bits. */
  method AddPairs(p: nat, singles: seq<nat>, ghost known: seq<seq<nat>>)
    returns (table: seq<nat>, index: nat, ghost sets: seq<seq<nat>>)
    requires p >= 2 && Masks(known, singles, p) && Different(known) && |known| == p && Singles(known, p)
    ensures ShortState(sets, table, p) && index == p - 1
  {
    hide *;
    table, sets, index := singles, known, 0;
    FirstPair(sets, table, p);
    for i := 0 to p - 1
      invariant index == i && PairState(sets, table, p, i, i + 1)
    {
      PairStateSize(sets, table, p, i, i + 1);
      var id1 := table[index];
      index := index + 1;
      table, sets := AddPairRow(p, i, table, id1, sets);
      NextPairRow(sets, table, p, i);
    }
    PairsDone(sets, table, p);
  }

  lemma PairStateSize(sets: seq<seq<nat>>, table: seq<nat>, p: nat, i: nat, j: nat)
    requires PairState(sets, table, p, i, j)
    ensures i < p <= |table| == |sets|
  {
  }

  // ---- triples ----

  ghost predicate EarlierTriple(a: nat, b: nat, c: nat, i: nat, j: nat, k: nat)
  {
    a < i || (a == i && b < j) || (a == i && b == j && c < k)
  }

  ghost predicate TriplesTo(sets: seq<seq<nat>>, p: nat, i: nat, j: nat, k: nat)
  {
    forall a, b, c :: 0 <= a < b < c < p && EarlierTriple(a, b, c, i, j, k) ==> [a, b, c] in sets
  }

  ghost predicate TripleState(sets: seq<seq<nat>>, table: seq<nat>, p: nat, i: nat, j: nat, k: nat)
  {
    && Masks(sets, table, p) && Different(sets) && Singles(sets, p) && PairsTo(sets, p, p, 0)
    && TriplesTo(sets, p, i, j, k) && Precede(sets, [i, j, k])
  }

  lemma PairAt(sets: seq<seq<nat>>, table: seq<nat>, p: nat, i: nat, j: nat, k: nat, a: nat, b: nat)
    requires TripleState(sets, table, p, i, j, k) && a < b < p
    ensures p + PairNo(p, a, b) < |table| == |sets| && MaskFor([a, b], table[p + PairNo(p, a, b)], p)
  {
    assert Earlier(a, b, p, 0);
    hide MaskFor, LexLess;
  }

  lemma TriplesPush(sets: seq<seq<nat>>, p: nat, i: nat, j: nat, k: nat)
    requires TriplesTo(sets, p, i, j, k)
    ensures TriplesTo(sets + [[i, j, k]], p, i, j, k + 1)
  {
    var more := sets + [[i, j, k]];
    forall a, b, c | 0 <= a < b < c < p && EarlierTriple(a, b, c, i, j, k + 1)
      ensures [a, b, c] in more
    {
      if !EarlierTriple(a, b, c, i, j, k) {
        assert more[|sets|] == [a, b, c];
      }
    }
  }

  lemma PairsStay(sets: seq<seq<nat>>, p: nat, vec: seq<nat>)
    requires PairsTo(sets, p, p, 0)
    ensures PairsTo(sets + [vec], p, p, 0)
  {
    hide PairNo;
  }

  lemma TripleIncreases(i: nat, j: nat, k: nat, p: nat)
    requires i < j < k < p
    ensures Increasing([i, j, k], p)
  {
  }

  lemma PushTriple(sets: seq<seq<nat>>, table: seq<nat>, p: nat, i: nat, j: nat, k: nat, id2: nat)
    requires TripleState(sets, table, p, i, j, k) && i < j < k < p && MaskFor([i, j], id2, p)
    ensures TripleState(sets + [[i, j, k]], table + [Or(id2, Pow2(k))], p, i, j, k + 1)
  {
    hide LexLess, MaskFor, RowStart, PairsTo, Singles, Masks, Different, Precede, Increasing, TriplesTo, Or, Pow2;
    TripleOrder(i, j, k, i, j, k + 1);
    PrecedeNext(sets, [i, j, k], [i, j, k + 1]);
    LongerMask([i, j], id2, k, p);
    assert [i, j] + [k] == [i, j, k];
    TripleIncreases(i, j, k, p);
    PushMask(sets, table, p, [i, j, k], Or(id2, Pow2(k)));
    TriplesPush(sets, p, i, j, k);
    PairsStay(sets, p, [i, j, k]);
    SinglesPush(sets, p, [i, j, k]);
  }

  /** Nothing lies between two triple positions, so the state carries over. */
  lemma SkipTriples(sets: seq<seq<nat>>, table: seq<nat>, p: nat, i: nat, j: nat, k: nat, i': nat, j': nat, k': nat)
    requires TripleState(sets, table, p, i, j, k) && EarlierTriple(i, j, k, i', j', k')
    requires forall a: nat, b: nat, c: nat :: a < b < c < p && EarlierTriple(a, b, c, i', j', k') ==>
               EarlierTriple(a, b, c, i, j, k)
    ensures TripleState(sets, table, p, i', j', k')
  {
    TripleOrder(i, j, k, i', j', k');
    PrecedeNext(sets, [i, j, k], [i', j', k']);
    hide LexLess, MaskFor, PairNo, Masks, Different;
  }

  /** Every mask of one, two or three of p bits, each once. */
  ghost predicate AllFlips(sets: seq<seq<nat>>, table: seq<nat>, p: nat)
  {
    && Masks(sets, table, p) && Different(sets)
    && (forall t :: 0 <= t < |sets| ==> 1 <= |sets[t]| <= 3)
    && forall vec: seq<nat> :: Increasing(vec, p) && 1 <= |vec| <= 3 ==> vec in sets
  }

  lemma FirstTriple(sets: seq<seq<nat>>, table: seq<nat>, p: nat)
    requires ShortState(sets, table, p)
    ensures TripleState(sets, table, p, 0, 1, 2)
  {
    hide MaskFor, PairNo;
  }

  /** The triples of one pair. */
  method AddThirds(p: nat, i: nat, j: nat, known: seq<nat>, id2: nat, ghost listed: seq<seq<nat>>)
    returns (table: seq<nat>, ghost sets: seq<seq<nat>>)
    requires i < j < p && TripleState(listed, known, p, i, j, j + 1) && MaskFor([i, j], id2, p)
    ensures TripleState(sets, table, p, i, j, p)
  {
    hide *;
    table, sets := known, listed;
    for k := j + 1 to p
      invariant TripleState(sets, table, p, i, j, k)
    {
      PushTriple(sets, table, p, i, j, k, id2);
      table, sets := table + [Or(id2, Pow2(k))], sets + [[i, j, k]];
    }
  }

  /** The triples of one first member, over its pairs from index on. */
  method AddTripleRow(p: nat, i: nat, known: seq<nat>, start: nat, ghost listed: seq<seq<nat>>)
    returns (table: seq<nat>, index: nat, ghost sets: seq<seq<nat>>)
    requires i + 2 < p && start == p + PairNo(p, i, i + 1) && TripleState(listed, known, p, i, i + 1, i + 2)
    ensures index == p + PairNo(p, i, p - 1) && TripleState(sets, table, p, i, p - 1, p)
  {
    hide *;
    table, sets, index := known, listed, start;
    for j := i + 1 to p - 1
      invariant index == p + PairNo(p, i, j) && TripleState(sets, table, p, i, j, j + 1)
    {
      PairAt(sets, table, p, i, j, j + 1, i, j);
      RowNumbersNext(p, i, j);
      var id2 := table[index];
      index := index + 1;
      table, sets := AddThirds(p, i, j, table, id2, sets);
      EndOfPairRow(sets, table, p, i, j);
    }
  }

  /** The third group of loops: the triples, read off the pairs. */
  method AddTriples(p: nat, pairs: seq<nat>, start: nat, ghost known: seq<seq<nat>>)
    returns (table: seq<nat>, ghost sets: seq<seq<nat>>)
    requires p >= 3 && ShortState(known, pairs, p) && start == p - 1
    ensures TripleState(sets, table, p, p - 2, p - 1, p)
  {
    hide *;
    table, sets := pairs, known;
    var index: int := start;
    FirstTriple(sets, table, p);
    RowNumbers(p, 0);
    for i := 0 to p - 2
      invariant index + 1 == p + PairNo(p, i, i + 1) && TripleState(sets, table, p, i, i + 1, i + 2)
    {
      RowNumbers(p, i);
      index := index + 1;
      table, index, sets := AddTripleRow(p, i, table, index, sets);
      EndOfTripleRow(sets, table, p, i);
    }
  }

  lemma RowNumbers(p: nat, i: nat)
    requires i + 1 < p
    ensures PairNo(p, i, i + 1) == RowStart(p, i) && (i == 0 ==> PairNo(p, i, i + 1) == 0)
    ensures i + 2 < p ==> PairNo(p, i + 1, i + 2) == PairNo(p, i, p - 1) + 1
  {
  }

  lemma RowNumbersNext(p: nat, i: nat, j: nat)
    requires i < j && j + 1 < p
    ensures PairNo(p, i, j + 1) == PairNo(p, i, j) + 1
  {
  }

  lemma EndOfPairRow(sets: seq<seq<nat>>, table: seq<nat>, p: nat, i: nat, j: nat)
    requires TripleState(sets, table, p, i, j, p) && i < j < p
    ensures TripleState(sets, table, p, i, j + 1, j + 2)
  {
    hide TripleState;
    SkipTriples(sets, table, p, i, j, p, i, j + 1, j + 2);
  }

  lemma EndOfTripleRow(sets: seq<seq<nat>>, table: seq<nat>, p: nat, i: nat)
    requires p >= 3 && i < p - 2 && TripleState(sets, table, p, i, p - 1, p)
    ensures TripleState(sets, table, p, i + 1, i + 2, i + 3)
  {
    hide TripleState;
    SkipTriples(sets, table, p, i, p - 1, p, i + 1, i + 2, i + 3);
  }

  lemma ListedVector(sets: seq<seq<nat>>, p: nat, vec: seq<nat>)
    requires p >= 3 && Singles(sets, p) && PairsTo(sets, p, p, 0) && TriplesTo(sets, p, p - 2, p - 1, p)
    requires Increasing(vec, p) && 1 <= |vec| <= 3
    ensures vec in sets
  {
    if |vec| == 1 {
      assert sets[vec[0]] == [vec[0]] == vec;
    } else if |vec| == 2 {
      assert Earlier(vec[0], vec[1], p, 0);
      assert vec == [vec[0], vec[1]];
    } else {
      assert EarlierTriple(vec[0], vec[1], vec[2], p - 2, p - 1, p);
      assert vec == [vec[0], vec[1], vec[2]];
    }
  }

  lemma AllListed(sets: seq<seq<nat>>, table: seq<nat>, p: nat)
    requires p >= 3 && TripleState(sets, table, p, p - 2, p - 1, p)
    ensures AllFlips(sets, table, p)
  {
    forall vec: seq<nat> | Increasing(vec, p) && 1 <= |vec| <= 3
      ensures vec in sets
    {
      ListedVector(sets, p, vec);
    }
    hide LexLess, MaskFor, Increasing, PairsTo, TriplesTo, Singles, Different;
  }

  /** The table built by Init. */
  method BitFlipTable(p: nat) returns (table: seq<nat>, ghost sets: seq<seq<nat>>)
    requires p >= 3
    ensures AllFlips(sets, table, p)
  {
    var index;
    table, sets := SingleBits(p);
    table, index, sets := AddPairs(p, table, sets);
    table, sets := AddTriples(p, table, index, sets);
    AllListed(sets, table, p);
  }
}
