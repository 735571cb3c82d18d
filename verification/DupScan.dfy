/** One pass of near-duplicate detection over one table: sort by the masked bits, cut into runs of
    equal masked bits, compare all pairs of a run that has a new document. */
module DupScan {
  import opened Sequences
  import opened Fingerprints
  import opened GroupTable
  import opened GroupClosure

  /** status is positive for documents that have not been compared before. */
  datatype FpItem = FpItem(docid: int, length: nat, status: nat, fp: SimHash, attach: int)

  /** regression is the rounded log regression of GetK_, related the dd relation of the attachments. */
  datatype Params = Params(fixk: nat, trashMin: nat, regression: nat -> nat, related: (int, int) -> bool) {
    function GetK(docLength: nat): nat
    {
      if fixk > 0 then fixk else if regression(docLength) > 6 then 6 else regression(docLength)
    }

    /** Seven times the longer length, in 32 bits. */
    function DocLength(x: FpItem, y: FpItem): nat
    {
      (if x.length < y.length then y.length else x.length) * 7 % 0x1_0000_0000
    }

    ghost predicate Duplicated(x: FpItem, y: FpItem)
      requires |x.fp| == |y.fp|
    {
      Hamming(x.fp, y.fp) <= GetK(DocLength(x, y)) && related(x.attach, y.attach)
    }

    /** The pair is compared and found: one of the two is new. */
    ghost predicate Passes(x: FpItem, y: FpItem)
      requires |x.fp| == |y.fp|
    {
      !(x.status == 0 && y.status == 0) && Duplicated(x, y)
    }

    /** A longer document never has a larger threshold, as with the regression of the source. */
    ghost predicate Falling()
    {
      forall m: nat, n: nat :: m <= n ==> regression(n) <= regression(m)
    }

    /** The distance is within the fixed threshold, or else within 6 and within what the regression allows
        for either document's own length, and the attachments are related. */
    ghost predicate WithinBoth(x: FpItem, y: FpItem)
      requires |x.fp| == |y.fp|
    {
      var d := Hamming(x.fp, y.fp);
      && related(x.attach, y.attach)
      && if fixk > 0 then d <= fixk else d <= 6 && d <= regression(7 * x.length) && d <= regression(7 * y.length)
    }

    /** As long as the sevenfold lengths fit 32 bits, the pair must pass by the threshold of each document:
        the longer one decides. */
    lemma LongerDecides(x: FpItem, y: FpItem)
      requires |x.fp| == |y.fp| && Falling() && 7 * x.length < 0x1_0000_0000 && 7 * y.length < 0x1_0000_0000
      ensures Duplicated(x, y) <==> WithinBoth(x, y)
    {
      hide Hamming;
      assert x.length <= y.length ==> regression(7 * y.length) <= regression(7 * x.length);
      assert y.length <= x.length ==> regression(7 * x.length) <= regression(7 * y.length);
    }

    /** Beyond that the length wraps: two documents of 613566757 words are compared as if they had three letters. */
    lemma LengthWraps(x: FpItem, y: FpItem)
      requires |x.fp| == |y.fp| && x.length == y.length == 613566757 && fixk == 0 && related(x.attach, y.attach)
      ensures Duplicated(x, y) <==> Hamming(x.fp, y.fp) <= 6 && Hamming(x.fp, y.fp) <= regression(3)
    {
      hide Hamming;
      assert DocLength(x, y) == 3;
    }

    method IsDuplicated(item1: FpItem, item2: FpItem) returns (result: bool)
      requires |item1.fp| == |item2.fp|
      ensures result == Duplicated(item1, item2)
      ensures Falling() && 7 * item1.length < 0x1_0000_0000 && 7 * item2.length < 0x1_0000_0000
              ==> result == WithinBoth(item1, item2)
    {
      hide WithinBoth, Falling;
      if Falling() && 7 * item1.length < 0x1_0000_0000 && 7 * item2.length < 0x1_0000_0000 {
        LongerDecides(item1, item2);
      }
      var distance := CalcHammingDist(item1.fp, item2.fp);
      var k := GetK(DocLength(item1, item2));
      result := false;
      if distance <= k {
        result := true;
        if !related(item1.attach, item2.attach) {
          result := false;
        }
      }
    }

    /** Runs of trashMin documents or more are skipped in every table but the first. */
    predicate SkipTrash(runLength: nat, tableId: nat)
    {
      tableId != 0 && runLength >= trashMin
    }
  }

  ghost predicate SameSize(data: seq<FpItem>, size: nat)
  {
    forall i :: 0 <= i < |data| ==> |data[i].fp| == size
  }

  ghost predicate DistinctDocs(data: seq<FpItem>)
  {
    forall i, j :: 0 <= i < j < |data| ==> data[i].docid != data[j].docid
  }

  // ---- sorting ----

  function Key(x: FpItem, mask: SimHash): (key: SimHash)
    requires |x.fp| == |mask|
    ensures |key| == |mask|
  {
    Masked(x.fp, mask)
  }

  ghost predicate NotAfter(x: FpItem, y: FpItem, mask: SimHash)
    requires |x.fp| == |y.fp| == |mask|
  {
    !Before(Key(y, mask), Key(x, mask), |mask|)
  }

  ghost predicate Sorted(data: seq<FpItem>, mask: SimHash)
    requires SameSize(data, |mask|)
  {
    forall i, j :: 0 <= i < j < |data| ==> NotAfter(data[i], data[j], mask)
  }

  /** Equal keys of sorted items stand together. */
  lemma SortedTogether(data: seq<FpItem>, mask: SimHash, i: int, m: int, j: int)
    requires SameSize(data, |mask|) && Sorted(data, mask) && 0 <= i <= m <= j < |data|
    requires Key(data[i], mask) == Key(data[j], mask)
    ensures Key(data[m], mask) == Key(data[i], mask)
  {
    if i < m < j {
      var a, b := Key(data[i], mask), Key(data[m], mask);
      assert NotAfter(data[i], data[m], mask) && NotAfter(data[m], data[j], mask);
      BeforeTotal(a, b, |mask|);
      assert a[..|mask|] == a && b[..|mask|] == b;
    }
  }

  lemma NotAfterTransitive(x: FpItem, y: FpItem, z: FpItem, mask: SimHash)
    requires |x.fp| == |y.fp| == |z.fp| == |mask| && NotAfter(x, y, mask) && NotAfter(y, z, mask)
    ensures NotAfter(x, z, mask)
  {
    BeforeTransitive(Key(x, mask), Key(y, mask), Key(z, mask), |mask|);
  }

  /** One of the two orders holds whichever way the comparator answers. */
  lemma ComparedIsNotAfter(x: FpItem, y: FpItem, mask: SimHash)
    requires |x.fp| == |y.fp| == |mask|
    ensures if Before(Key(x, mask), Key(y, mask), |mask|) then NotAfter(x, y, mask) else NotAfter(y, x, mask)
  {
    var a, b, n := Key(x, mask), Key(y, mask), |mask|;
    if Before(a, b, n) {
      BeforeAsymmetric(a, b, n);
      assert NotAfter(x, y, mask) by {
        hide Before, Key;
      }
    }
    hide Before, Key;
  }

  lemma InsertedIsSorted(data: seq<FpItem>, p: nat, x: FpItem, mask: SimHash)
    requires SameSize(data, |mask|) && Sorted(data, mask) && |x.fp| == |mask| && p <= |data|
    requires forall i :: p <= i < |data| ==> NotAfter(x, data[i], mask)
    requires p > 0 ==> NotAfter(data[p - 1], x, mask)
    ensures SameSize(data[..p] + [x] + data[p..], |mask|) && Sorted(data[..p] + [x] + data[p..], mask)
  {
    forall i | 0 <= i < p
      ensures NotAfter(data[i], x, mask)
    {
      if i < p - 1 {
        NotAfterTransitive(data[i], data[p - 1], x, mask);
      }
    }
    hide NotAfter;
  }

  lemma SizesAre(data: seq<FpItem>, size: nat)
    requires SameSize(data, size)
    ensures forall i :: 0 <= i < |data| ==> |data[i].fp| == size
  {
  }

  lemma KeyIsMasked(x: FpItem, mask: SimHash)
    requires |x.fp| == |mask|
    ensures Key(x, mask) == Masked(x.fp, mask)
  {
  }

  /** Puts one item into a sorted sequence, after the items it does not precede. */
  method Insert(data: seq<FpItem>, x: FpItem, mask: SimHash) returns (more: seq<FpItem>)
    requires SameSize(data, |mask|) && Sorted(data, mask) && |x.fp| == |mask|
    ensures SameSize(more, |mask|) && Sorted(more, mask) && multiset(more) == multiset(data) + multiset{x}
  {
    hide *;
    SizesAre(data, |mask|);
    var p := |data|;
    while p > 0
      invariant 0 <= p <= |data| && forall i :: p <= i < |data| ==> NotAfter(x, data[i], mask)
      invariant p < |data| ==> Before(Key(x, mask), Key(data[p], mask), |mask|)
    {
      var less := TableLess(x.fp, data[p - 1].fp, mask);
      KeyIsMasked(x, mask);
      KeyIsMasked(data[p - 1], mask);
      ComparedIsNotAfter(x, data[p - 1], mask);
      if !less {
        break;
      }
      p := p - 1;
    }
    InsertedIsSorted(data, p, x, mask);
    InsertedItems(data, p, x);
    more := data[..p] + [x] + data[p..];
  }

  /** std::sort with the table as comparator: any sorted order of the same items. */
  method SortItems(data: seq<FpItem>, mask: SimHash) returns (sorted: seq<FpItem>)
    requires SameSize(data, |mask|)
    ensures SameSize(sorted, |mask|) && Sorted(sorted, mask) && multiset(sorted) == multiset(data)
  {
    sorted := [];
    for i := 0 to |data|
      invariant SameSize(sorted, |mask|) && Sorted(sorted, mask) && multiset(sorted) == multiset(data[..i])
    {
      sorted := Insert(sorted, data[i], mask);
      NextItem(data, i);
    }
    assert data[..|data|] == data;
  }

  // ---- comparing the pairs of a run ----

  ghost function DocPair(x: FpItem, y: FpItem): (int, int)
  {
    (x.docid, y.docid)
  }

  /** The passing pairs with both indices in lo..hi-1 of which the first is below n, or is n with the
      second below m. */
  ghost predicate PairAt(p: Params, data: seq<FpItem>, lo: int, hi: int, n: int, m: int, i: int, j: int)
  {
    && 0 <= lo <= i < j < hi <= |data| && (i < n || (i == n && j < m))
    && |data[i].fp| == |data[j].fp| && p.Passes(data[i], data[j])
  }

  ghost function RunPairs(p: Params, data: seq<FpItem>, lo: int, hi: int, n: int, m: int): Pairs
  {
    set i, j | 0 <= i < |data| && 0 <= j < |data| && PairAt(p, data, lo, hi, n, m, i, j) :: DocPair(data[i], data[j])
  }

  /** The groups are the closure of the known and the found pairs. */
  ghost predicate Holds(table: Table, pairs: Pairs)
    reads table
  {
    table.Valid() && ClosureOf(table.docidGroup, pairs)
  }

  lemma NextPair(p: Params, data: seq<FpItem>, lo: int, hi: int, i: int, j: int)
    requires 0 <= lo <= i < j < hi <= |data| && |data[i].fp| == |data[j].fp|
    ensures RunPairs(p, data, lo, hi, i, j + 1)
            == RunPairs(p, data, lo, hi, i, j) + if p.Passes(data[i], data[j]) then {DocPair(data[i], data[j])} else {}
  {
    var now, next := RunPairs(p, data, lo, hi, i, j), RunPairs(p, data, lo, hi, i, j + 1);
    hide Params.Passes;
    forall q | q in next
      ensures q in now || (p.Passes(data[i], data[j]) && q == DocPair(data[i], data[j]))
    {
      var a, b :| 0 <= a < |data| && 0 <= b < |data| && PairAt(p, data, lo, hi, i, j + 1, a, b)
        && q == DocPair(data[a], data[b]);
      assert (a == i && b == j) || PairAt(p, data, lo, hi, i, j, a, b);
    }
    forall q | q in now
      ensures q in next
    {
      var a, b :| 0 <= a < |data| && 0 <= b < |data| && PairAt(p, data, lo, hi, i, j, a, b)
        && q == DocPair(data[a], data[b]);
      assert PairAt(p, data, lo, hi, i, j + 1, a, b);
    }
    assert p.Passes(data[i], data[j]) ==> PairAt(p, data, lo, hi, i, j + 1, i, j);
  }

  lemma NextRow(p: Params, data: seq<FpItem>, lo: int, hi: int, i: int)
    requires 0 <= lo <= i < hi <= |data|
    ensures RunPairs(p, data, lo, hi, i, hi) == RunPairs(p, data, lo, hi, i + 1, i + 2)
    ensures RunPairs(p, data, lo, hi, lo, lo + 1) == {}
  {
    forall a, b | 0 <= a < |data| && 0 <= b < |data|
      ensures PairAt(p, data, lo, hi, i, hi, a, b) <==> PairAt(p, data, lo, hi, i + 1, i + 2, a, b)
      ensures !PairAt(p, data, lo, hi, lo, lo + 1, a, b)
    {
    }
    hide PairAt;
  }

  lemma EmptyRun(p: Params, data: seq<FpItem>, lo: int, hi: int)
    requires lo >= hi
    ensures RunPairs(p, data, lo, hi, hi, hi + 1) == {}
  {
  }

  /** One comparison of the inner loop. */
  method ComparePair(p: Params, data: seq<FpItem>, i: nat, j: nat, table: Table, ghost pairs: Pairs)
    returns (ghost found: Pairs)
    requires i < j < |data| && |data[i].fp| == |data[j].fp| && data[i].docid != data[j].docid && Holds(table, pairs)
    modifies table
    ensures Holds(table, pairs + found)
    ensures found == if p.Passes(data[i], data[j]) then {DocPair(data[i], data[j])} else {}
  {
    found := {};
    assert pairs + found == pairs;
    if !(data[i].status == 0 && data[j].status == 0) {
      var dup := p.IsDuplicated(data[i], data[j]);
      if dup {
        ghost var was := table.docidGroup;
        var discovery := table.AddDoc(data[i].docid, data[j].docid);
        JoinExtendsClosure(was, table.docidGroup, pairs, data[i].docid, data[j].docid);
        found := {DocPair(data[i], data[j])};
      }
    }
  }

  /** All pairs of a run. */
  method PairWiseCompare(p: Params, data: seq<FpItem>, start: nat, finish: nat, table: Table, ghost pairs: Pairs)
    requires start <= finish <= |data| && DistinctDocs(data) && Holds(table, pairs)
    requires forall i, j :: 0 <= i < |data| && 0 <= j < |data| ==> |data[i].fp| == |data[j].fp|
    modifies table
    ensures Holds(table, pairs + RunPairs(p, data, start, finish, finish, finish + 1))
  {
    hide *;
    assert pairs + {} == pairs;
    if start >= finish {
      EmptyRun(p, data, start, finish);
      return;
    }
    NextRow(p, data, start, finish, start);
    for i := start to finish
      invariant Holds(table, pairs + RunPairs(p, data, start, finish, i, i + 1))
    {
      CompareRow(p, data, start, finish, i, table, pairs);
    }
  }

  /** The inner loop: item i against the later items of its run. */
  method CompareRow(p: Params, data: seq<FpItem>, start: nat, finish: nat, i: nat, table: Table, ghost pairs: Pairs)
    requires start <= i < finish <= |data| && DistinctDocs(data)
    requires forall i, j :: 0 <= i < |data| && 0 <= j < |data| ==> |data[i].fp| == |data[j].fp|
    requires Holds(table, pairs + RunPairs(p, data, start, finish, i, i + 1))
    modifies table
    ensures Holds(table, pairs + RunPairs(p, data, start, finish, i + 1, i + 2))
  {
    hide RunPairs, Holds, Params.Passes;
    for j := i + 1 to finish
      invariant Holds(table, pairs + RunPairs(p, data, start, finish, i, j))
    {
      ghost var now := RunPairs(p, data, start, finish, i, j);
      ghost var found := ComparePair(p, data, i, j, table, pairs + now);
      NextPair(p, data, start, finish, i, j);
      assert pairs + now + found == pairs + (now + found);
    }
    NextRow(p, data, start, finish, i);
  }

  // ---- the runs of one table ----

  ghost function SameKey(data: seq<FpItem>, mask: SimHash, key: SimHash): set<FpItem>
  {
    set x | x in data && |x.fp| == |mask| && Key(x, mask) == key
  }

  /** Two items stand in one run of the sorted data. */
  ghost predicate InOneRun(data: seq<FpItem>, mask: SimHash, i: int, j: int)
    requires SameSize(data, |mask|)
  {
    0 <= i < j < |data| && Key(data[i], mask) == Key(data[j], mask)
  }

  /** The pair is found by the pass over table tableId: one run that is not skipped, and the pair passes. */
  ghost predicate Reported(p: Params, data: seq<FpItem>, mask: SimHash, tableId: nat, i: int, j: int)
    requires SameSize(data, |mask|)
  {
    && InOneRun(data, mask, i, j) && p.Passes(data[i], data[j])
    && (tableId == 0 || |SameKey(data, mask, Key(data[i], mask))| < p.trashMin)
  }

  /** Everything the pass finds among the first n items. */
  ghost function FoundTo(p: Params, data: seq<FpItem>, mask: SimHash, tableId: nat, n: int): Pairs
    requires SameSize(data, |mask|)
  {
    set i, j | 0 <= i < |data| && 0 <= j < |data| && j < n && Reported(p, data, mask, tableId, i, j)
      :: DocPair(data[i], data[j])
  }

  /** start..finish-1 are all the items with one key. */
  ghost predicate IsRun(data: seq<FpItem>, mask: SimHash, start: int, finish: int)
    requires SameSize(data, |mask|)
  {
    && 0 <= start < finish <= |data|
    && (forall i :: start <= i < finish ==> Key(data[i], mask) == Key(data[start], mask))
    && (forall i :: 0 <= i < |data| && Key(data[i], mask) == Key(data[start], mask) ==> start <= i < finish)
  }

  lemma {:induction false} DistinctCount(data: seq<FpItem>, start: nat, finish: nat)
    requires start <= finish <= |data| && DistinctDocs(data)
    ensures |set i | start <= i < finish :: data[i]| == finish - start
    decreases finish
  {
    var s := set i | start <= i < finish :: data[i];
    if start < finish {
      DistinctCount(data, start, finish - 1);
      var r := set i | start <= i < finish - 1 :: data[i];
      assert s == r + {data[finish - 1]};
      assert data[finish - 1] !in r;
    }
  }

  lemma RunLength(data: seq<FpItem>, mask: SimHash, start: nat, finish: nat)
    requires SameSize(data, |mask|) && DistinctDocs(data) && IsRun(data, mask, start, finish)
    ensures |SameKey(data, mask, Key(data[start], mask))| == finish - start
  {
    DistinctCount(data, start, finish);
    var key := Key(data[start], mask);
    var s := set i | start <= i < finish :: data[i];
    assert forall x :: x in s <==> x in SameKey(data, mask, key);
    assert s == SameKey(data, mask, key);
  }

  /** The pairs of a run are what the pass finds in it. */
  lemma RunIsFound(p: Params, data: seq<FpItem>, mask: SimHash, tableId: nat, start: nat, finish: nat)
    requires SameSize(data, |mask|) && DistinctDocs(data) && IsRun(data, mask, start, finish)
    ensures FoundTo(p, data, mask, tableId, finish)
            == FoundTo(p, data, mask, tableId, start)
               + if p.SkipTrash(finish - start, tableId) then {}
                 else RunPairs(p, data, start, finish, finish, finish + 1)
  {
    RunLength(data, mask, start, finish);
    forall i, j | 0 <= i < |data| && 0 <= j < |data| && j < finish
      ensures Reported(p, data, mask, tableId, i, j) ==
              ((j < start && Reported(p, data, mask, tableId, i, j))
               || ((tableId == 0 || finish - start < p.trashMin)
                   && PairAt(p, data, start, finish, finish, finish + 1, i, j)))
    {
      assert start <= j ==> Key(data[j], mask) == Key(data[start], mask);
    }
    hide Reported, PairAt, Params.SkipTrash, IsRun;
  }

  /** A maximal stretch of equal keys in sorted data holds all items with that key. */
  lemma StretchIsRun(data: seq<FpItem>, mask: SimHash, start: nat, finish: nat)
    requires SameSize(data, |mask|) && Sorted(data, mask) && start < finish <= |data|
    requires forall i :: start <= i < finish ==> Key(data[i], mask) == Key(data[start], mask)
    requires start > 0 ==> Key(data[start - 1], mask) != Key(data[start], mask)
    requires finish < |data| ==> Key(data[finish], mask) != Key(data[start], mask)
    ensures IsRun(data, mask, start, finish)
  {
    forall i | 0 <= i < |data| && Key(data[i], mask) == Key(data[start], mask)
      ensures start <= i < finish
    {
      if i < start {
        SortedTogether(data, mask, i, start - 1, start);
      } else if i >= finish {
        SortedTogether(data, mask, start, finish, i);
      }
    }
  }

  /** A run without new documents has no passing pairs. */
  lemma OldRunFindsNothing(p: Params, data: seq<FpItem>, start: nat, finish: nat)
    requires start <= finish <= |data| && forall i :: start <= i < finish ==> data[i].status == 0
    ensures RunPairs(p, data, start, finish, finish, finish + 1) == {}
  {
  }

  lemma RunBounds(data: seq<FpItem>, mask: SimHash, start: nat, finish: nat)
    requires SameSize(data, |mask|) && IsRun(data, mask, start, finish)
    ensures start < finish <= |data|
    ensures forall i, j :: 0 <= i < |data| && 0 <= j < |data| ==> |data[i].fp| == |data[j].fp|
  {
  }

  /** The end of a run: its pairs are compared unless all its documents are old or it is trash. */
  method CloseRun(p: Params, data: seq<FpItem>, mask: SimHash, tableId: nat, start: nat, finish: nat, hasNew: bool,
                  table: Table, ghost pairs: Pairs)
    requires SameSize(data, |mask|) && DistinctDocs(data) && IsRun(data, mask, start, finish)
    requires hasNew <==> exists i :: start <= i < finish && data[i].status > 0
    requires Holds(table, pairs + FoundTo(p, data, mask, tableId, start))
    modifies table
    ensures Holds(table, pairs + FoundTo(p, data, mask, tableId, finish))
  {
    hide *;
    RunBounds(data, mask, start, finish);
    RunIsFound(p, data, mask, tableId, start, finish);
    ghost var before := FoundTo(p, data, mask, tableId, start);
    ghost var run := RunPairs(p, data, start, finish, finish, finish + 1);
    assert (pairs + before) + run == pairs + (before + run) && before + {} == before;
    if hasNew {
      if !p.SkipTrash(finish - start, tableId) {
        PairWiseCompare(p, data, start, finish, table, pairs + before);
      }
    } else {
      OldRunFindsNothing(p, data, start, finish);
    }
  }

  /** The scan has read i items; the last start..i-1 of them share the key last. */
  ghost predicate Scanned(data: seq<FpItem>, mask: SimHash, start: int, i: int, last: SimHash, hasNew: bool)
    requires SameSize(data, |mask|)
  {
    && 0 <= start <= i <= |data| && (i > 0 ==> start < i)
    && (forall k :: start <= k < i ==> Key(data[k], mask) == last)
    && (0 < start < i ==> Key(data[start - 1], mask) != last)
    && (hasNew <==> exists k :: start <= k < i && data[k].status > 0)
  }

  lemma ScannedIsRun(data: seq<FpItem>, mask: SimHash, start: int, i: int, last: SimHash, hasNew: bool)
    requires SameSize(data, |mask|) && Sorted(data, mask) && Scanned(data, mask, start, i, last, hasNew) && 0 < i
    requires i < |data| ==> Key(data[i], mask) != last
    ensures 0 <= start < i && IsRun(data, mask, start, i)
    ensures hasNew <==> exists k :: start <= k < i && data[k].status > 0
  {
    StretchIsRun(data, mask, start, i);
  }

  lemma ScannedNext(data: seq<FpItem>, mask: SimHash, start: int, i: int, last: SimHash, hasNew: bool)
    requires SameSize(data, |mask|) && Scanned(data, mask, start, i, last, hasNew) && i < |data|
    ensures i == 0 || Key(data[i], mask) == last
            ==> Scanned(data, mask, start, i + 1, Key(data[i], mask), hasNew || data[i].status > 0)
    ensures i > 0 && Key(data[i], mask) != last
            ==> Scanned(data, mask, i, i + 1, Key(data[i], mask), data[i].status > 0)
  {
  }

  lemma ScanStarts(p: Params, data: seq<FpItem>, mask: SimHash, tableId: nat)
    requires SameSize(data, |mask|)
    ensures FoundTo(p, data, mask, tableId, 0) == {} && Scanned(data, mask, 0, 0, [], false)
  {
  }

  /** The scan over sorted data finds exactly the pairs that share the masked bits and pass. */
  method FindDD(p: Params, data: seq<FpItem>, mask: SimHash, tableId: nat, table: Table, ghost pairs: Pairs)
    requires SameSize(data, |mask|) && DistinctDocs(data) && Sorted(data, mask) && Holds(table, pairs)
    modifies table
    ensures Holds(table, pairs + FoundTo(p, data, mask, tableId, |data|))
  {
    var isFirst, hasNew := true, false;
    var last, compare: SimHash := [], [];
    var start, finish := 0, 0;
    hide *;
    SizesAre(data, |mask|);
    ScanStarts(p, data, mask, tableId);
    assert pairs + {} == pairs;
    for i := 0 to |data|
      invariant finish == i && (isFirst <==> i == 0) && 0 <= start <= i
      invariant Scanned(data, mask, start, i, last, hasNew)
      invariant Holds(table, pairs + FoundTo(p, data, mask, tableId, start))
    {
      compare := GetMaskedBits(data[i].fp, mask);
      KeyIsMasked(data[i], mask);
      ScannedNext(data, mask, start, i, last, hasNew);
      if !isFirst && last != compare {
        ScannedIsRun(data, mask, start, i, last, hasNew);
        CloseRun(p, data, mask, tableId, start, finish, hasNew, table, pairs);
        start := finish;
        hasNew := false;
      }
      finish := finish + 1;
      last := compare;
      if data[i].status > 0 {
        hasNew := true;
      }
      isFirst := false;
    }
    if finish > 0 {
      ScannedIsRun(data, mask, start, finish, last, hasNew);
      CloseRun(p, data, mask, tableId, start, finish, hasNew, table, pairs);
    }
  }
}
