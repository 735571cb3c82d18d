/** Fingerprints that differ in at most k bits agree on all the bits of some table's mask. */
module Pigeonhole {
  import opened FpBits
  import opened Fingerprints
  import opened Combinations
  import opened FpTables

  /** No bit of block i is set in d. */
  ghost predicate Clean(d: seq<bool>, f: nat, partition: nat, i: nat)
    requires partition > 0 && |d| == f
  {
    forall b :: 0 <= b < f && InBlock(f, partition, i, b) ==> !d[b]
  }

  ghost function CleanBlocks(d: seq<bool>, f: nat, partition: nat, n: nat): (clean: seq<nat>)
    requires partition > 0 && |d| == f
    ensures |clean| <= n && forall i :: 0 <= i < |clean| ==> clean[i] < n && Clean(d, f, partition, clean[i])
    ensures forall i, j :: 0 <= i < j < |clean| ==> clean[i] < clean[j]
  {
    if n == 0 then []
    else if Clean(d, f, partition, n - 1) then CleanBlocks(d, f, partition, n - 1) + [n - 1]
    else CleanBlocks(d, f, partition, n - 1)
  }

  lemma {:induction false} TruesGrow(d: seq<bool>, m: nat, n: nat)
    requires m <= n <= |d|
    ensures Trues(d, m) <= Trues(d, n)
    ensures (exists b :: m <= b < n && d[b]) ==> Trues(d, m) < Trues(d, n)
    decreases n
  {
    if m < n {
      TruesGrow(d, m, n - 1);
    }
  }

  /** Every block that is not clean holds a set bit. */
  lemma {:induction false} FewDirtyBlocks(d: seq<bool>, f: nat, partition: nat, n: nat)
    requires Sizes(f, partition) && |d| == f && n <= partition && BlockStart(f, partition, n) <= f
    ensures |CleanBlocks(d, f, partition, n)| + Trues(d, BlockStart(f, partition, n)) >= n
  {
    if n > 0 {
      BlockWithin(f, partition, n - 1);
      FewDirtyBlocks(d, f, partition, n - 1);
      var lo, hi := BlockStart(f, partition, n - 1), BlockStart(f, partition, n);
      TruesGrow(d, lo, hi);
      if !Clean(d, f, partition, n - 1) {
        var b :| 0 <= b < f && InBlock(f, partition, n - 1, b) && d[b];
        assert lo <= b < hi && d[b];
      }
    }
  }

  /** With at most k bits set, some choice of partition - k blocks is clean throughout. */
  lemma CleanChoice(d: seq<bool>, f: nat, k: nat, partition: nat) returns (vec: seq<nat>)
    requires Sizes(f, partition) && |d| == f && k <= partition && Trues(d, f) <= k
    ensures |vec| == partition - k && Increasing(vec, partition)
    ensures forall i :: 0 <= i < |vec| ==> Clean(d, f, partition, vec[i])
  {
    BlockEnds(f, partition, 0);
    FewDirtyBlocks(d, f, partition, partition);
    vec := CleanBlocks(d, f, partition, partition)[..partition - k];
  }

  /** The tables of GenTables find every pair of fingerprints at distance at most k. */
  lemma SomeTableAgrees(f: nat, k: nat, partition: nat, combos: seq<seq<nat>>, tables: seq<SimHash>,
                        x: SimHash, y: SimHash) returns (t: nat)
    requires Sizes(f, partition) && k <= partition && TablesFor(f, k, partition, combos, tables)
    requires |x| == |y| && WORD * |x| == f && Hamming(x, y) <= k
    ensures t < |tables| && |tables[t]| == |x| && Masked(x, tables[t]) == Masked(y, tables[t])
  {
    var d := Differ(x, y);
    HammingCountsBits(x, y);
    var vec := CleanChoice(d, f, k, partition);
    t :| 0 <= t < |combos| && combos[t] == vec;
    var mask := tables[t];
    assert MaskOf(f, partition, vec, mask);
    forall b | 0 <= b < WORD * |mask| && FpBit(mask, b)
      ensures FpBit(x, b) <==> FpBit(y, b)
    {
      var i :| 0 <= i < |vec| && InBlock(f, partition, vec[i], b);
      assert Clean(d, f, partition, vec[i]);
    }
    MaskedEqual(x, y, mask);
  }
}
