/** GenTables: the bits of a fingerprint are cut into blocks, and every choice of partition - k blocks
    becomes the mask of one table. */
module FpTables {
  import opened Powers
  import opened FpBits
  import opened Fingerprints
  import opened Combinations

  /** What GenTables can handle: whole words, blocks that are not empty, and sizes that fit the 8 and
      16 bit variables of the code. */
  ghost predicate Sizes(f: nat, partition: nat)
  {
    f % WORD == 0 && 1 <= partition <= f && partition < 256 && f / partition < 255 && f < 16384
  }

  /** First bit of block i; the first f % partition blocks have one bit more. */
  function BlockStart(f: nat, partition: nat, i: nat): nat
    requires partition > 0
  {
    i * (f / partition) + if i < f % partition then i else f % partition
  }

  function BlockSize(f: nat, partition: nat, i: nat): nat
    requires partition > 0
  {
    f / partition + if i < f % partition then 1 else 0
  }

  lemma BlockEnds(f: nat, partition: nat, i: nat)
    requires partition > 0 && i < partition
    ensures BlockStart(f, partition, i) + BlockSize(f, partition, i) == BlockStart(f, partition, i + 1)
    ensures BlockStart(f, partition, 0) == 0 && BlockStart(f, partition, partition) == f
  {
    var q := f / partition;
    assert (i + 1) * q == i * q + q;
    assert f == partition * q + f % partition;
  }

  /** Blocks differ by at most one bit, and the longer ones come first. */
  lemma BlocksFall(f: nat, partition: nat, i: nat, j: nat)
    requires partition > 0 && i <= j < partition
    ensures BlockSize(f, partition, j) <= BlockSize(f, partition, i) <= BlockSize(f, partition, j) + 1
  {
  }

  lemma {:induction false} BlockStartGrows(f: nat, partition: nat, i: nat, j: nat)
    requires partition > 0 && i <= j <= partition
    ensures BlockStart(f, partition, i) <= BlockStart(f, partition, j)
    decreases j
  {
    if i < j {
      BlockStartGrows(f, partition, i, j - 1);
      BlockEnds(f, partition, j - 1);
    }
  }

  lemma QuotientPositive(f: nat, partition: nat)
    requires Sizes(f, partition)
    ensures f / partition >= 1
  {
    assert f == partition * (f / partition) + f % partition;
    assert f % partition < partition;
  }

  lemma BlockWithin(f: nat, partition: nat, i: nat)
    requires Sizes(f, partition) && i < partition
    ensures BlockStart(f, partition, i) < BlockStart(f, partition, i + 1) <= f
  {
    hide BlockStart;
    BlockEnds(f, partition, i);
    BlockStartGrows(f, partition, i + 1, partition);
    QuotientPositive(f, partition);
  }

  ghost predicate InBlock(f: nat, partition: nat, i: nat, b: int)
    requires partition > 0
  {
    BlockStart(f, partition, i) <= b < BlockStart(f, partition, i + 1)
  }

  // ---- the mask of one block ----

  /** One word of a block's mask. */
  datatype WordMask = WordMask(word: nat, bits: Word)

  /** The list of word masks selects exactly the bits lo..hi-1. */
  ghost predicate Selects(block: seq<WordMask>, b: int)
  {
    exists e :: 0 <= e < |block| && block[e].word == b / WORD && Bit(block[e].bits, b % WORD)
  }

  ghost predicate Covers(block: seq<WordMask>, lo: int, hi: int, f: nat)
  {
    && (forall e :: 0 <= e < |block| ==> block[e].word < f / WORD)
    && (forall b :: 0 <= b < f ==> (Selects(block, b) <==> lo <= b < hi))
  }

  lemma FullWordBit(j: nat)
    requires j < WORD
    ensures Bit(WRAP - 1, j)
  {
    WrapIsPow2();
    OnesBit(WORD, j);
    hide *;
  }

  /** A block within one word. */
  lemma OneWordCovers(word: nat, s: nat, size: nat, f: nat)
    requires f % WORD == 0 && word < f / WORD && s < WORD && s + size <= WORD && size < WORD
    ensures Covers([WordMask(word, ShiftUp(Ones(size), s))], word * WORD + s, word * WORD + s + size, f)
  {
    var block := [WordMask(word, ShiftUp(Ones(size), s))];
    forall b | 0 <= b < f
      ensures Selects(block, b) <==> word * WORD + s <= b < word * WORD + s + size
    {
      RunBit(size, s, b % WORD);
      assert block[0].word == word;
      hide Bit, ShiftUp, Ones;
    }
  }

  /** All bits of a word from s up. */
  lemma HighCovers(word: nat, s: nat, f: nat)
    requires f % WORD == 0 && word < f / WORD && s < WORD
    ensures Covers([WordMask(word, HighOnes(s))], word * WORD + s, (word + 1) * WORD, f)
  {
    var block := [WordMask(word, HighOnes(s))];
    forall b | 0 <= b < f
      ensures Selects(block, b) <==> word * WORD + s <= b < (word + 1) * WORD
    {
      HighOnesBit(s, b % WORD);
      assert block[0].word == word;
      hide Bit, HighOnes;
    }
  }

  /** All bits of a word. */
  lemma FullCovers(word: nat, f: nat)
    requires f % WORD == 0 && word < f / WORD
    ensures Covers([WordMask(word, WRAP - 1)], word * WORD, (word + 1) * WORD, f)
  {
    var block := [WordMask(word, WRAP - 1)];
    forall b | 0 <= b < f
      ensures Selects(block, b) <==> word * WORD <= b < (word + 1) * WORD
    {
      FullWordBit(b % WORD);
      assert block[0].word == word;
      hide Bit;
    }
  }

  /** The bits of a word below s. */
  lemma LowCovers(word: nat, s: nat, f: nat)
    requires f % WORD == 0 && word < f / WORD && s < WORD
    ensures Covers([WordMask(word, Ones(s))], word * WORD, word * WORD + s, f)
  {
    var block := [WordMask(word, Ones(s))];
    forall b | 0 <= b < f
      ensures Selects(block, b) <==> word * WORD <= b < word * WORD + s
    {
      OnesBit(s, b % WORD);
      assert block[0].word == word;
      hide Bit;
    }
  }

  lemma SelectsJoin(block: seq<WordMask>, more: seq<WordMask>, b: int)
    ensures Selects(block + more, b) <==> Selects(block, b) || Selects(more, b)
  {
    var both := block + more;
    if Selects(block, b) {
      var e :| 0 <= e < |block| && block[e].word == b / WORD && Bit(block[e].bits, b % WORD);
      assert both[e] == block[e];
    }
    if Selects(more, b) {
      var e :| 0 <= e < |more| && more[e].word == b / WORD && Bit(more[e].bits, b % WORD);
      assert both[|block| + e] == more[e];
    }
    hide Bit;
  }

  lemma CoversJoin(block: seq<WordMask>, more: seq<WordMask>, lo: int, mid: int, hi: int, f: nat)
    requires lo <= mid <= hi && Covers(block, lo, mid, f) && Covers(more, mid, hi, f)
    ensures Covers(block + more, lo, hi, f)
  {
    forall b | 0 <= b < f
      ensures Selects(block + more, b) <==> lo <= b < hi
    {
      SelectsJoin(block, more, b);
    }
  }

  /** The word masks of a block of the given size that starts at bit s of a word and ends before bit
      fs of word fw. */
  method BlockMask(f: nat, size: nat, sw: nat, s: nat, fw: nat, fs: nat) returns (block: seq<WordMask>)
    requires f % WORD == 0 && s < WORD && fs < WORD && fw * WORD + fs == sw * WORD + s + size <= f && 0 < size
    ensures Covers(block, sw * WORD + s, sw * WORD + s + size, f)
  {
    if sw == fw {
      OneWordCovers(sw, s, size, f);
      return [WordMask(sw, ShiftUp(Ones(size), s))];
    }
    block := [WordMask(sw, HighOnes(s))];
    HighCovers(sw, s, f);
    ghost var lo := sw * WORD + s;
    for j := sw + 1 to fw
      invariant Covers(block, lo, j * WORD, f)
    {
      FullCovers(j, f);
      CoversJoin(block, [WordMask(j, WRAP - 1)], lo, j * WORD, (j + 1) * WORD, f);
      block := block + [WordMask(j, WRAP - 1)];
    }
    if fs > 0 {
      LowCovers(fw, fs, f);
      CoversJoin(block, [WordMask(fw, Ones(fs))], lo, fw * WORD, fw * WORD + fs, f);
      block := block + [WordMask(fw, Ones(fs))];
    }
  }

  /** The masks of all blocks: together they partition the bits. */
  method BlockMasks(f: nat, partition: nat) returns (blocks: seq<seq<WordMask>>)
    requires Sizes(f, partition)
    ensures Blocks(f, partition, blocks)
  {
    blocks := [];
    var fw, fs := 0, 0;
    var count := 0;
    BlockEnds(f, partition, 0);
    for i := 0 to partition
      invariant |blocks| == i && count == BlockStart(f, partition, i) && fw == count / WORD && fs == count % WORD
      invariant forall k :: 0 <= k < i ==>
                  Covers(blocks[k], BlockStart(f, partition, k), BlockStart(f, partition, k + 1), f)
    {
      BlockEnds(f, partition, i);
      BlockWithin(f, partition, i);
      var size := f / partition + if i < f % partition then 1 else 0;
      count := count + size;
      var sw, s := fw, fs;
      fw, fs := count / WORD, count % WORD;
      var block := BlockMask(f, size, sw, s, fw, fs);
      blocks := blocks + [block];
    }
  }

  // ---- the masks of the tables ----

  /** Bit b belongs to one of the chosen blocks. */
  ghost predicate Chosen(f: nat, partition: nat, vec: seq<nat>, b: int)
    requires partition > 0
  {
    exists i :: 0 <= i < |vec| && InBlock(f, partition, vec[i], b)
  }

  /** The mask selects exactly the bits of the chosen blocks. */
  ghost predicate MaskOf(f: nat, partition: nat, vec: seq<nat>, mask: SimHash)
    requires partition > 0
  {
    |mask| * WORD == f && forall b :: 0 <= b < f ==> (FpBit(mask, b) <==> Chosen(f, partition, vec, b))
  }

  /** The mask has exactly the bits selected by a list of word masks. */
  ghost predicate Collects(mask: SimHash, done: seq<WordMask>)
  {
    forall b :: 0 <= b < WORD * |mask| ==> (FpBit(mask, b) <==> Selects(done, b))
  }

  lemma OrWord(mask: SimHash, done: seq<WordMask>, w: WordMask)
    requires Collects(mask, done) && w.word < |mask|
    ensures Or(mask[w.word], w.bits) < WRAP
    ensures Collects(mask[w.word := Or(mask[w.word], w.bits)], done + [w])
  {
    WrapIsPow2();
    OrFits(mask[w.word], w.bits, WORD);
    var next: SimHash := mask[w.word := Or(mask[w.word], w.bits)];
    forall b | 0 <= b < WORD * |mask|
      ensures FpBit(next, b) <==> Selects(done + [w], b)
    {
      OrBit(mask[w.word], w.bits, b % WORD);
      SelectsJoin(done, [w], b);
      assert Selects([w], b) <==> w.word == b / WORD && Bit(w.bits, b % WORD) by {
        assert [w][0] == w;
      }
      assert FpBit(mask, b) <==> Selects(done, b);
      hide Bit, Selects, Or, Pow2;
    }
  }

  /** The blocks of the first i entries of vec, one after the other. */
  ghost function Gathered(vec: seq<nat>, blocks: seq<seq<WordMask>>, i: nat): seq<WordMask>
    requires i <= |vec| && forall k :: 0 <= k < |vec| ==> vec[k] < |blocks|
  {
    if i == 0 then [] else Gathered(vec, blocks, i - 1) + blocks[vec[i - 1]]
  }

  ghost predicate Blocks(f: nat, partition: nat, blocks: seq<seq<WordMask>>)
    requires partition > 0
  {
    && |blocks| == partition
    && forall i :: 0 <= i < partition ==>
         Covers(blocks[i], BlockStart(f, partition, i), BlockStart(f, partition, i + 1), f)
  }

  lemma BlockSelects(f: nat, partition: nat, blocks: seq<seq<WordMask>>, i: nat, b: int)
    requires partition > 0 && Blocks(f, partition, blocks) && 0 <= b < f && i < partition
    ensures |blocks| == partition && (Selects(blocks[i], b) <==> InBlock(f, partition, i, b))
  {
    assert Covers(blocks[i], BlockStart(f, partition, i), BlockStart(f, partition, i + 1), f);
    hide BlockStart;
  }

  lemma ChosenNext(f: nat, partition: nat, vec: seq<nat>, i: nat, b: int)
    requires partition > 0 && i < |vec|
    ensures Chosen(f, partition, vec[..i + 1], b)
            <==> Chosen(f, partition, vec[..i], b) || InBlock(f, partition, vec[i], b)
  {
    hide InBlock;
    if Chosen(f, partition, vec[..i], b) {
      var k :| 0 <= k < i && InBlock(f, partition, vec[..i][k], b);
      assert vec[..i + 1][k] == vec[k];
    }
    assert vec[..i + 1][i] == vec[i];
  }

  lemma {:induction false} GatheredIsChosen(f: nat, partition: nat, vec: seq<nat>, blocks: seq<seq<WordMask>>, i: nat,
                                            b: int)
    requires partition > 0 && Blocks(f, partition, blocks) && 0 <= b < f && |blocks| == partition
    requires i <= |vec| && forall k :: 0 <= k < |vec| ==> vec[k] < |blocks|
    ensures Selects(Gathered(vec, blocks, i), b) <==> Chosen(f, partition, vec[..i], b)
    decreases i
  {
    hide Blocks, Selects, InBlock;
    if i > 0 {
      hide Chosen;
      GatheredIsChosen(f, partition, vec, blocks, i - 1, b);
      SelectsJoin(Gathered(vec, blocks, i - 1), blocks[vec[i - 1]], b);
      BlockSelects(f, partition, blocks, vec[i - 1], b);
      ChosenNext(f, partition, vec, i - 1, b);
    } else {
      NothingSelected(b);
    }
  }

  lemma NothingSelected(b: int)
    ensures !Selects([], b)
  {
  }

  /** The mask of one table: the words of the chosen blocks, or-ed together. */
  method TableMask(f: nat, partition: nat, blocks: seq<seq<WordMask>>, vec: array<nat>) returns (mask: SimHash)
    requires Sizes(f, partition) && Blocks(f, partition, blocks) && Increasing(vec[..], partition)
    ensures MaskOf(f, partition, vec[..], mask)
  {
    mask := seq(f / WORD, _ => 0);
    ghost var done: seq<WordMask> := [];
    EmptyCollects(mask);
    for i := 0 to vec.Length
      invariant |mask| == f / WORD && Collects(mask, done) && done == Gathered(vec[..], blocks, i)
    {
      var block := blocks[vec[i]];
      ghost var before := done;
      for e := 0 to |block|
        invariant |mask| == f / WORD && Collects(mask, done) && done == before + block[..e]
      {
        assert Covers(block, BlockStart(f, partition, vec[i]), BlockStart(f, partition, vec[i] + 1), f);
        OrWord(mask, done, block[e]);
        done := done + [block[e]];
        assert block[..e + 1] == block[..e] + [block[e]];
        var w := block[e];
        mask := mask[w.word := Or(mask[w.word], w.bits)];
      }
      assert block[..|block|] == block;
    }
    CollectedIsMask(f, partition, vec[..], blocks, mask);
  }

  lemma EmptyCollects(mask: SimHash)
    requires forall i :: 0 <= i < |mask| ==> mask[i] == 0
    ensures Collects(mask, [])
  {
    forall b | 0 <= b < WORD * |mask|
      ensures !FpBit(mask, b)
    {
      ZeroHasNoBits(b % WORD);
    }
  }

  lemma CollectedIsMask(f: nat, partition: nat, vec: seq<nat>, blocks: seq<seq<WordMask>>, mask: SimHash)
    requires partition > 0 && f % WORD == 0 && |mask| == f / WORD && Blocks(f, partition, blocks)
    requires Increasing(vec, partition) && Collects(mask, Gathered(vec, blocks, |vec|))
    ensures MaskOf(f, partition, vec, mask)
  {
    forall b | 0 <= b < f
      ensures FpBit(mask, b) <==> Chosen(f, partition, vec, b)
    {
      GatheredIsChosen(f, partition, vec, blocks, |vec|, b);
      assert vec[..|vec|] == vec;
    }
  }

  // ---- all tables ----

  /** Table t masks the blocks of the t-th choice. */
  ghost predicate MasksOf(f: nat, partition: nat, combos: seq<seq<nat>>, tables: seq<SimHash>)
    requires partition > 0
  {
    |tables| == |combos| && forall t :: 0 <= t < |tables| ==> MaskOf(f, partition, combos[t], tables[t])
  }

  /** One table for every choice of partition - k blocks. */
  ghost predicate TablesFor(f: nat, k: nat, partition: nat, combos: seq<seq<nat>>, tables: seq<SimHash>)
    requires partition > 0 && k <= partition
  {
    AllOnce(combos, partition - k, partition) && MasksOf(f, partition, combos, tables)
  }

  method GenTables(f: nat, k: nat, partition: nat) returns (tables: seq<SimHash>, ghost combos: seq<seq<nat>>)
    requires Sizes(f, partition) && k <= partition
    ensures TablesFor(f, k, partition, combos, tables)
  {
    hide *;
    NoTables(f, partition);
    var blocks := BlockMasks(f, partition);
    var len := partition - k;
    var vec := new nat[len];
    for i := 0 to len
      invariant forall j :: 0 <= j < i ==> vec[j] == j
    {
      vec[i] := i;
    }
    FirstVisit(vec[..], partition);
    tables, combos := [], [];
    while true
      invariant VisitedBefore(combos, vec[..], partition) && MasksOf(f, partition, combos, tables)
      decreases Remaining(vec[..], partition)
    {
      ghost var was := vec[..];
      VisitFacts(combos, was, partition);
      var mask := TableMask(f, partition, blocks, vec);
      PushTable(f, partition, combos, tables, was, mask);
      tables := tables + [mask];
      var more: bool;
      ghost var raised;
      more, raised := Permutate(vec, len - 1, partition);
      if !more {
        VisitedAll(combos, was, partition);
        combos := combos + [was];
        TablesParts(f, k, partition, combos, tables);
        break;
      }
      VisitNext(combos, was, vec[..], partition, raised);
      RaisedIsIncreasing(was, vec[..], partition, raised);
      StepsShrink(was, vec[..], partition);
      combos := combos + [was];
    }
  }

  lemma NoTables(f: nat, partition: nat)
    requires Sizes(f, partition)
    ensures partition > 0 && MasksOf(f, partition, [], [])
  {
  }

  lemma VisitFacts(combos: seq<seq<nat>>, vec: seq<nat>, size: nat)
    requires VisitedBefore(combos, vec, size)
    ensures Increasing(vec, size) && Full(vec, size, |vec| - 1)
  {
  }

  lemma PushTable(f: nat, partition: nat, combos: seq<seq<nat>>, tables: seq<SimHash>, vec: seq<nat>, mask: SimHash)
    requires partition > 0 && MasksOf(f, partition, combos, tables) && MaskOf(f, partition, vec, mask)
    ensures MasksOf(f, partition, combos + [vec], tables + [mask])
  {
    hide MaskOf;
  }

  lemma TablesParts(f: nat, k: nat, partition: nat, combos: seq<seq<nat>>, tables: seq<SimHash>)
    requires partition > 0 && k <= partition && AllOnce(combos, partition - k, partition)
    requires MasksOf(f, partition, combos, tables)
    ensures TablesFor(f, k, partition, combos, tables)
  {
  }

  lemma FirstVisit(vec: seq<nat>, size: nat)
    requires |vec| <= size && forall i :: 0 <= i < |vec| ==> vec[i] == i
    ensures VisitedBefore([], vec, size)
  {
    forall c: seq<nat> | |c| == |vec| && Increasing(c, size)
      ensures c == vec || LexLess(vec, c)
    {
      FirstIsLeast(vec, c, size);
    }
  }
}
