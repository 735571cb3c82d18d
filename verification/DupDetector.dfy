/** The near-duplicate detector: every table's pass over all fingerprints, and the guarantee that only
    holds end to end: near duplicates end in one group. */
module DupDetector {
  import opened FpBits
  import opened Fingerprints
  import opened Combinations
  import opened FpTables
  import opened Pigeonhole
  import opened GroupTable
  import opened GroupClosure
  import opened DupScan

  // ---- reordering the items ----

  lemma {:induction false} OccursOnce(data: seq<FpItem>, x: FpItem)
    requires DistinctDocs(data)
    ensures multiset(data)[x] <= 1
  {
    if data != [] {
      var front, last := data[..|data| - 1], data[|data| - 1];
      assert data == front + [last];
      OccursOnce(front, x);
      if x == last {
        assert x !in front;
      }
    }
  }

  lemma SameItems(data: seq<FpItem>, all: seq<FpItem>)
    requires multiset(data) == multiset(all)
    ensures forall x :: x in data <==> x in all
  {
    assert forall x :: x in data <==> x in multiset(data);
    assert forall x :: x in all <==> x in multiset(all);
  }

  lemma ReorderingKeepsDistinct(data: seq<FpItem>, all: seq<FpItem>)
    requires multiset(data) == multiset(all) && DistinctDocs(all)
    ensures DistinctDocs(data)
  {
    SameItems(data, all);
    forall i, j | 0 <= i < j < |data|
      ensures data[i].docid != data[j].docid
    {
      var x, y := data[i], data[j];
      if x == y {
        assert data == data[..j] + data[j..];
        assert x in data[..j] && x in data[j..];
        assert multiset(data) == multiset(data[..j]) + multiset(data[j..]);
        assert multiset(data)[x] >= 2;
        OccursOnce(all, x);
      } else {
        assert x in all && y in all;
      }
    }
  }

  // ---- what one table finds, independent of the order ----

  /** The two items share the table's masked bits, in a run that is not skipped. */
  ghost predicate Meet(p: Params, all: seq<FpItem>, mask: SimHash, tableId: nat, x: FpItem, y: FpItem)
  {
    && |x.fp| == |y.fp| == |mask| && Key(x, mask) == Key(y, mask)
    && (tableId == 0 || |SameKey(all, mask, Key(x, mask))| < p.trashMin)
  }

  /** Only passing pairs of the items that meet in one of the first n tables are in found. */
  ghost predicate Sound(p: Params, all: seq<FpItem>, tables: seq<SimHash>, n: nat, found: Pairs)
    requires n <= |tables|
  {
    forall q :: q in found ==> exists t, x, y :: 0 <= t < n && MeetAndPass(p, all, tables[t], t, x, y, q)
  }

  ghost predicate MeetAndPass(p: Params, all: seq<FpItem>, mask: SimHash, tableId: nat, x: FpItem, y: FpItem,
                              q: (int, int))
  {
    PassingPair(p, all, x, y) && Meet(p, all, mask, tableId, x, y) && q == DocPair(x, y)
  }

  lemma SoundPasses(p: Params, all: seq<FpItem>, tables: seq<SimHash>, n: nat, found: Pairs)
    requires n <= |tables| && Sound(p, all, tables, n, found)
    ensures forall q :: q in found ==> exists x, y :: PassingPair(p, all, x, y) && q == DocPair(x, y)
  {
    hide PassingPair, Meet;
    forall q | q in found
      ensures exists x, y :: PassingPair(p, all, x, y) && q == DocPair(x, y)
    {
      var t, x, y :| 0 <= t < n && MeetAndPass(p, all, tables[t], t, x, y, q);
    }
  }

  ghost predicate PassingPair(p: Params, all: seq<FpItem>, x: FpItem, y: FpItem)
  {
    x in all && y in all && x.docid != y.docid && |x.fp| == |y.fp| && p.Passes(x, y)
  }

  /** Every pair that meets in one of the first n tables and passes is in found. */
  ghost predicate Complete(p: Params, all: seq<FpItem>, tables: seq<SimHash>, n: nat, found: Pairs)
  {
    forall t, x, y ::
      0 <= t < n && t < |tables| && BothPass(p, all, x, y) && Meet(p, all, tables[t], t, x, y)
      ==> Edge(found, x.docid, y.docid)
  }

  /** The pair passes whichever of the two comes first. */
  ghost predicate BothPass(p: Params, all: seq<FpItem>, x: FpItem, y: FpItem)
  {
    PassingPair(p, all, x, y) && PassingPair(p, all, y, x)
  }

  lemma FoundIsSound(p: Params, data: seq<FpItem>, all: seq<FpItem>, mask: SimHash, tableId: nat, q: (int, int))
    requires multiset(data) == multiset(all) && SameSize(data, |mask|) && DistinctDocs(data)
    requires q in FoundTo(p, data, mask, tableId, |data|)
    ensures exists x, y :: MeetAndPass(p, all, mask, tableId, x, y, q)
  {
    SameItems(data, all);
    var i, j :| 0 <= i < |data| && 0 <= j < |data| && Reported(p, data, mask, tableId, i, j)
      && q == DocPair(data[i], data[j]);
    assert data[i] in data && data[j] in data;
    assert SameKey(data, mask, Key(data[i], mask)) == SameKey(all, mask, Key(data[i], mask));
    assert PassingPair(p, all, data[i], data[j]);
    assert MeetAndPass(p, all, mask, tableId, data[i], data[j], q);
  }

  lemma FoundIsComplete(p: Params, data: seq<FpItem>, all: seq<FpItem>, mask: SimHash, tableId: nat, x: FpItem,
                        y: FpItem)
    requires multiset(data) == multiset(all) && SameSize(data, |mask|)
    requires BothPass(p, all, x, y) && Meet(p, all, mask, tableId, x, y)
    ensures Edge(FoundTo(p, data, mask, tableId, |data|), x.docid, y.docid)
  {
    SameItems(data, all);
    assert SameKey(data, mask, Key(x, mask)) == SameKey(all, mask, Key(x, mask));
    assert x in data && y in data;
    var i :| 0 <= i < |data| && data[i] == x;
    var j :| 0 <= j < |data| && data[j] == y;
    hide Params.Passes, Params.SkipTrash, SameKey;
    if i < j {
      assert Reported(p, data, mask, tableId, i, j);
      assert DocPair(data[i], data[j]) in FoundTo(p, data, mask, tableId, |data|);
    } else {
      assert Reported(p, data, mask, tableId, j, i);
      assert DocPair(data[j], data[i]) in FoundTo(p, data, mask, tableId, |data|);
    }
  }

  lemma NextTable(p: Params, data: seq<FpItem>, all: seq<FpItem>, tables: seq<SimHash>, t: nat, found: Pairs,
                  more: Pairs)
    requires multiset(data) == multiset(all) && DistinctDocs(data)
    requires t < |tables| && SameSize(data, |tables[t]|) && Sound(p, all, tables, t, found)
    requires Complete(p, all, tables, t, found)
    requires more == FoundTo(p, data, tables[t], t, |data|)
    ensures Sound(p, all, tables, t + 1, found + more) && Complete(p, all, tables, t + 1, found + more)
  {
    hide Meet, PassingPair, BothPass, MeetAndPass, FoundTo;
    forall q | q in found + more
      ensures exists s, x, y :: 0 <= s < t + 1 && MeetAndPass(p, all, tables[s], s, x, y, q)
    {
      if q in found {
        var s, x, y :| 0 <= s < t && MeetAndPass(p, all, tables[s], s, x, y, q);
      } else {
        FoundIsSound(p, data, all, tables[t], t, q);
        var x, y :| MeetAndPass(p, all, tables[t], t, x, y, q);
      }
    }
    forall s, x, y | 0 <= s < t + 1 && BothPass(p, all, x, y) && Meet(p, all, tables[s], s, x, y)
      ensures Edge(found + more, x.docid, y.docid)
    {
      if s == t {
        FoundIsComplete(p, data, all, tables[t], t, x, y);
      } else {
        assert Edge(found, x.docid, y.docid);
      }
    }
  }

  // ---- the guarantee ----

  /** No threshold exceeds the distance the tables are made for. */
  ghost predicate Thresholds(p: Params, maxk: nat)
  {
    forall n: nat :: p.GetK(n) <= maxk
  }

  /** No run of any table but the first is long enough to be skipped. */
  ghost predicate Untrashed(p: Params, all: seq<FpItem>, tables: seq<SimHash>)
  {
    forall t, x :: 0 < t < |tables| && x in all && |x.fp| == |tables[t]|
                   ==> |SameKey(all, tables[t], Key(x, tables[t]))| < p.trashMin
  }

  /** Duplicates share the masked bits of some table. */
  lemma DuplicatesMeet(p: Params, f: nat, k: nat, partition: nat, combos: seq<seq<nat>>, tables: seq<SimHash>,
                       all: seq<FpItem>, x: FpItem, y: FpItem) returns (t: nat)
    requires Sizes(f, partition) && k <= partition && TablesFor(f, k, partition, combos, tables)
    requires Thresholds(p, k) && Untrashed(p, all, tables) && SameSize(all, f / WORD) && BothPass(p, all, x, y)
    ensures t < |tables| && Meet(p, all, tables[t], t, x, y)
  {
    assert x in all && y in all;
    assert |x.fp| == f / WORD == |y.fp|;
    t := SomeTableAgrees(f, k, partition, combos, tables, x.fp, y.fp);
    assert Key(x, tables[t]) == Key(y, tables[t]);
  }

  /** Near-duplicate completeness: every pair that passes ends in one group. */
  lemma PassingPairsAreGrouped(p: Params, f: nat, k: nat, partition: nat, combos: seq<seq<nat>>, tables: seq<SimHash>,
                               all: seq<FpItem>, group: map<int, nat>, known: Pairs, found: Pairs)
    requires Sizes(f, partition) && k <= partition && TablesFor(f, k, partition, combos, tables)
    requires Thresholds(p, k) && Untrashed(p, all, tables) && SameSize(all, f / WORD)
    requires Complete(p, all, tables, |tables|, found) && ClosureOf(group, known + found)
    ensures forall x, y :: BothPass(p, all, x, y) ==> Same(group, x.docid, y.docid) && Edge(found, x.docid, y.docid)
  {
    forall x, y | BothPass(p, all, x, y)
      ensures Same(group, x.docid, y.docid) && Edge(found, x.docid, y.docid)
    {
      var t := DuplicatesMeet(p, f, k, partition, combos, tables, all, x, y);
      assert Edge(found, x.docid, y.docid);
      EdgeLinks(known + found, x.docid, y.docid);
    }
    hide *;
  }

  /** All passing pairs of the items. */
  ghost function PassingPairs(p: Params, all: seq<FpItem>): Pairs
  {
    set x, y | x in all && y in all && PassingPair(p, all, x, y) :: DocPair(x, y)
  }

  lemma PassesEitherWay(p: Params, all: seq<FpItem>, x: FpItem, y: FpItem)
    requires PassingPair(p, all, x, y) && p.related(x.attach, y.attach) == p.related(y.attach, x.attach)
    ensures BothPass(p, all, x, y)
  {
    HammingSymmetric(x.fp, y.fp);
  }

  /** The attachment relation does not depend on the order. */
  ghost predicate Symmetric(p: Params)
  {
    forall c, d :: p.related(c, d) == p.related(d, c)
  }

  /** With a symmetric attachment relation the groups are exactly the chains of known and passing pairs. */
  lemma GroupsAreExact(p: Params, f: nat, k: nat, partition: nat, combos: seq<seq<nat>>, tables: seq<SimHash>,
                       all: seq<FpItem>, group: map<int, nat>, known: Pairs, found: Pairs, a: int, b: int)
    requires Sizes(f, partition) && k <= partition && TablesFor(f, k, partition, combos, tables)
    requires Thresholds(p, k) && Untrashed(p, all, tables) && SameSize(all, f / WORD)
    requires Sound(p, all, tables, |tables|, found) && Complete(p, all, tables, |tables|, found)
    requires ClosureOf(group, known + found)
    requires Symmetric(p)
    ensures Same(group, a, b) <==> Linked(known + PassingPairs(p, all), a, b)
  {
    var exact := known + PassingPairs(p, all);
    SoundPasses(p, all, tables, |tables|, found);
    forall q | q in found
      ensures q in exact
    {
      var x, y :| PassingPair(p, all, x, y) && q == DocPair(x, y);
    }
    if Linked(known + found, a, b) {
      LinkedGrows(known + found, exact, a, b);
    }
    PassingPairsAreGrouped(p, f, k, partition, combos, tables, all, group, known, found);
    if Linked(exact, a, b) {
      forall c, d | Edge(exact, c, d)
        ensures Same(group, c, d)
      {
        ExactEdgeIsSame(p, all, group, known, found, c, d);
      }
      var path :| ChainFrom(exact, path, a, b);
      SameAlongChain(group, exact, path, |path| - 1);
    }
  }

  lemma GroupsCloseExactly(p: Params, f: nat, k: nat, partition: nat, combos: seq<seq<nat>>, tables: seq<SimHash>,
                         all: seq<FpItem>, group: map<int, nat>, known: Pairs, found: Pairs)
    requires Sizes(f, partition) && k <= partition && TablesFor(f, k, partition, combos, tables)
    requires Thresholds(p, k) && Untrashed(p, all, tables) && SameSize(all, f / WORD) && Symmetric(p)
    requires Sound(p, all, tables, |tables|, found) && Complete(p, all, tables, |tables|, found)
    requires ClosureOf(group, known + found)
    ensures ClosureOf(group, known + PassingPairs(p, all))
  {
    forall a, b
      ensures Same(group, a, b) <==> Linked(known + PassingPairs(p, all), a, b)
    {
      GroupsAreExact(p, f, k, partition, combos, tables, all, group, known, found, a, b);
    }
    hide *;
    ClosureFromAll(group, known + PassingPairs(p, all));
  }

  lemma ClosureFromAll(group: map<int, nat>, pairs: Pairs)
    requires forall a, b :: Same(group, a, b) <==> Linked(pairs, a, b)
    ensures ClosureOf(group, pairs)
  {
  }

  lemma ExactEdgeIsSame(p: Params, all: seq<FpItem>, group: map<int, nat>, known: Pairs, found: Pairs, c: int, d: int)
    requires ClosureOf(group, known + found) && Edge(known + PassingPairs(p, all), c, d)
    requires forall x, y :: BothPass(p, all, x, y) ==> Same(group, x.docid, y.docid) && Edge(found, x.docid, y.docid)
    requires Symmetric(p)
    ensures Same(group, c, d)
  {
    if Edge(known, c, d) {
      EdgeLinks(known + found, c, d);
    } else if (c, d) in PassingPairs(p, all) {
      var x, y :| PassingPair(p, all, x, y) && (c, d) == DocPair(x, y);
      PassesEitherWay(p, all, x, y);
    } else {
      var x, y :| PassingPair(p, all, x, y) && (d, c) == DocPair(x, y);
      PassesEitherWay(p, all, x, y);
    }
  }

  function Marked(items: seq<FpItem>): (marked: seq<FpItem>)
    ensures |marked| == |items|
  {
    seq(|items|, i requires 0 <= i < |items| => items[i].(status := 1))
  }

  /** The items of an analysis: the waiting ones are new, and all are after a request to redo. */
  function TakenOver(items: seq<FpItem>, waiting: seq<FpItem>, redo: bool): (all: seq<FpItem>)
    ensures |all| == |items| + |waiting|
    ensures forall i :: 0 <= i < |all| ==>
              var item := (items + waiting)[i];
              all[i].docid == item.docid && all[i].fp == item.fp && (i >= |items| || redo ==> all[i].status == 1)
  {
    if redo then Marked(items + waiting) else items + Marked(waiting)
  }

  // ---- new documents and old ones ----

  /** Every item from position `from` on shares its group with all its duplicates. */
  ghost predicate NewGrouped(p: Params, all: seq<FpItem>, from: nat, group: map<int, nat>)
  {
    forall i, j ::
      from <= i < |all| && 0 <= j < |all| && i != j && |all[i].fp| == |all[j].fp| && p.Duplicated(all[i], all[j])
      ==> Same(group, all[i].docid, all[j].docid)
  }

  /** No two documents that have been compared before are found again. */
  ghost predicate OldUntouched(all: seq<FpItem>, found: Pairs)
  {
    forall i, j :: 0 <= i < |all| && 0 <= j < |all| && all[i].status == 0 == all[j].status
      ==> (all[i].docid, all[j].docid) !in found
  }

  lemma NewAreGrouped(p: Params, all: seq<FpItem>, from: nat, group: map<int, nat>)
    requires DistinctDocs(all) && Symmetric(p) && forall i :: from <= i < |all| ==> all[i].status > 0
    requires forall x, y :: BothPass(p, all, x, y) ==> Same(group, x.docid, y.docid)
    ensures NewGrouped(p, all, from, group)
  {
    hide Hamming, Same;
    forall i, j |
      from <= i < |all| && 0 <= j < |all| && i != j && |all[i].fp| == |all[j].fp| && p.Duplicated(all[i], all[j])
      ensures Same(group, all[i].docid, all[j].docid)
    {
      assert all[i].docid != all[j].docid;
      PassesEitherWay(p, all, all[i], all[j]);
    }
  }

  lemma OldAreUntouched(p: Params, all: seq<FpItem>, tables: seq<SimHash>, n: nat, found: Pairs)
    requires DistinctDocs(all) && n <= |tables| && Sound(p, all, tables, n, found)
    ensures OldUntouched(all, found)
  {
    hide Sound, Hamming;
    SoundPasses(p, all, tables, n, found);
  }

  // ---- one document of every group ----

  /** A kept earlier document is in the group of document i. */
  ghost predicate Shadowed(group: map<int, nat>, docs: seq<int>, kept: seq<nat>, i: nat)
    requires i < |docs|
  {
    exists a :: 0 <= a < |kept| && kept[a] < i && Same(group, docs[i], docs[kept[a]])
  }

  /** Of the first n documents exactly those are kept, in order, that no earlier kept one shadows. */
  ghost predicate FirstOfGroups(group: map<int, nat>, docs: seq<int>, kept: seq<nat>, n: nat)
    requires n <= |docs|
  {
    && (forall a :: 0 <= a < |kept| ==> kept[a] < n)
    && (forall a, b :: 0 <= a < b < |kept| ==> kept[a] < kept[b])
    && forall i :: 0 <= i < n ==> (i in kept <==> !Shadowed(group, docs, kept, i))
  }

  lemma NextDocument(group: map<int, nat>, docs: seq<int>, kept: seq<nat>, n: nat, j: nat)
    requires n < |docs| && FirstOfGroups(group, docs, kept, n) && j <= |kept|
    requires forall a :: 0 <= a < j ==> !Same(group, docs[n], docs[kept[a]])
    requires j < |kept| ==> Same(group, docs[n], docs[kept[j]])
    ensures FirstOfGroups(group, docs, if j < |kept| then kept else kept + [n], n + 1)
  {
    hide Shadowed, Same;
    var next := if j < |kept| then kept else kept + [n];
    forall i | 0 <= i < n + 1
      ensures i in next <==> !Shadowed(group, docs, next, i)
    {
      InPushed(kept, n, i);
      if i < n {
        EarlierShadowed(group, docs, kept, n, i);
      } else if j < |kept| {
        ShadowedBy(group, docs, kept, n, j);
      } else {
        LastShadowed(group, docs, kept, n);
      }
    }
  }

  lemma InPushed(kept: seq<nat>, n: nat, i: nat)
    ensures i in kept + [n] <==> i in kept || i == n
  {
    assert (kept + [n])[|kept|] == n;
  }

  lemma ShadowedBy(group: map<int, nat>, docs: seq<int>, kept: seq<nat>, n: nat, j: nat)
    requires n < |docs| && j < |kept| && (forall a :: 0 <= a < |kept| ==> kept[a] < n)
    requires Same(group, docs[n], docs[kept[j]])
    ensures Shadowed(group, docs, kept, n) && n !in kept
  {
    hide Same;
  }

  /** A later document shadows no earlier one. */
  lemma EarlierShadowed(group: map<int, nat>, docs: seq<int>, kept: seq<nat>, n: nat, i: nat)
    requires i < n < |docs| && forall a :: 0 <= a < |kept| ==> kept[a] < n
    ensures Shadowed(group, docs, kept + [n], i) <==> Shadowed(group, docs, kept, i)
  {
    var next := kept + [n];
    if Shadowed(group, docs, kept, i) {
      var a :| 0 <= a < |kept| && kept[a] < i && Same(group, docs[i], docs[kept[a]]);
      assert next[a] == kept[a];
    }
    if Shadowed(group, docs, next, i) {
      var a :| 0 <= a < |next| && next[a] < i && Same(group, docs[i], docs[next[a]]);
      assert next[a] == kept[a];
    }
    hide Same;
  }

  lemma LastShadowed(group: map<int, nat>, docs: seq<int>, kept: seq<nat>, n: nat)
    requires n < |docs| && forall a :: 0 <= a < |kept| ==> kept[a] < n && !Same(group, docs[n], docs[kept[a]])
    ensures !Shadowed(group, docs, kept + [n], n)
  {
    hide Same;
  }

  lemma OnlyStatusDiffers(was: seq<FpItem>, now: seq<FpItem>, size: nat)
    requires |was| == |now| && forall i :: 0 <= i < |now| ==> now[i].docid == was[i].docid && now[i].fp == was[i].fp
    requires SameSize(was, size) && DistinctDocs(was)
    ensures SameSize(now, size) && DistinctDocs(now)
  {
  }

  lemma NothingScanned(p: Params, all: seq<FpItem>, tables: seq<SimHash>)
    ensures Sound(p, all, tables, 0, {}) && Complete(p, all, tables, 0, {})
  {
  }

  lemma TableSize(f: nat, k: nat, partition: nat, combos: seq<seq<nat>>, tables: seq<SimHash>, t: nat)
    requires Sizes(f, partition) && k <= partition && TablesFor(f, k, partition, combos, tables) && t < |tables|
    ensures |tables[t]| == f / WORD
  {
    assert MaskOf(f, partition, combos[t], tables[t]);
    hide AllOnce;
  }

  /** The detector with its tables and its fingerprints; f is the fingerprint length in bits. */
  class Detector {
    const p: Params
    const f: nat
    const maxk: nat
    const partition: nat
    const maxt: nat
    const groupTable: Table
    const tableList: seq<SimHash>
    ghost const combos: seq<seq<nat>>
    var fpVec: seq<FpItem>
    var workingFpVec: seq<FpItem>
    var redo: bool

    ghost predicate Valid()
      reads this, groupTable
    {
      && Sizes(f, partition) && maxk <= partition && TablesFor(f, maxk, partition, combos, tableList)
      && groupTable.Valid()
      && SameSize(fpVec + workingFpVec, f / WORD) && DistinctDocs(fpVec + workingFpVec)
    }

    /** Number of tables that are processed. */
    function TableCount(): nat
    {
      if maxt > 0 && maxt < |tableList| then maxt else |tableList|
    }

    /** Generates the tables. */
    constructor (p: Params, f: nat, maxk: nat, partition: nat, maxt: nat, groupTable: Table)
      requires Sizes(f, partition) && maxk <= partition && groupTable.Valid()
      ensures Valid() && this.p == p && this.f == f && this.maxk == maxk && this.maxt == maxt
      ensures this.groupTable == groupTable && fpVec == [] && workingFpVec == []
    {
      this.p, this.f, this.maxk, this.partition, this.maxt, this.groupTable := p, f, maxk, partition, maxt, groupTable;
      var tables;
      ghost var choices;
      tables, choices := GenTables(f, maxk, partition);
      tableList, combos := tables, choices;
      fpVec, workingFpVec, redo := [], [], false;
    }

    /** Marks all items as new. */
    static method MarkNew(items: seq<FpItem>) returns (marked: seq<FpItem>)
      ensures marked == Marked(items)
    {
      marked := items;
      for i := 0 to |items|
        invariant |marked| == |items|
        invariant forall k :: 0 <= k < |items| ==> marked[k] == if k < i then items[k].(status := 1) else items[k]
      {
        marked := marked[i := marked[i].(status := 1)];
      }
    }

    /** Takes the waiting fingerprints over as new ones; after a request to redo, all are new. */
    method TakeOver()
      requires Valid()
      modifies `fpVec, `workingFpVec, `redo
      ensures Valid() && fpVec == TakenOver(old(fpVec), old(workingFpVec), old(redo)) && workingFpVec == [] && !redo
    {
      hide TablesFor, Table.Valid, SameSize, DistinctDocs;
      ghost var was := fpVec + workingFpVec;
      workingFpVec := MarkNew(workingFpVec);
      fpVec := fpVec + workingFpVec;
      workingFpVec := [];
      if redo {
        fpVec := MarkNew(fpVec);
        redo := false;
      }
      assert fpVec == TakenOver(old(fpVec), old(workingFpVec), old(redo));
      assert forall i :: 0 <= i < |fpVec| ==> fpVec[i].docid == was[i].docid && fpVec[i].fp == was[i].fp;
      assert fpVec + workingFpVec == fpVec;
      OnlyStatusDiffers(was, fpVec, f / WORD);
    }

    /** Sorts and scans by every processed table. */
    method ScanTables() returns (ghost found: Pairs)
      requires Valid() && workingFpVec == []
      modifies groupTable
      ensures Valid() && ClosureOf(groupTable.docidGroup, KnownPairs(old(groupTable.docidGroup)) + found)
      ensures Sound(p, fpVec, tableList, TableCount(), found) && Complete(p, fpVec, tableList, TableCount(), found)
    {
      hide MaskOf, TablesFor, Sound, Complete, DistinctDocs, SameSize, ClosureOf, KnownPairs, FoundTo, Table.Valid;
      found := {};
      ghost var known := KnownPairs(groupTable.docidGroup);
      KnownIsClosed(groupTable.docidGroup);
      assert known + {} == known && fpVec + [] == fpVec;
      NothingScanned(p, fpVec, tableList);
      var vecAll := fpVec;
      var tableCount := TableCount();
      for tid := 0 to tableCount
        invariant Holds(groupTable, known + found) && multiset(vecAll) == multiset(fpVec)
        invariant SameSize(vecAll, f / WORD) && DistinctDocs(vecAll)
        invariant Sound(p, fpVec, tableList, tid, found) && Complete(p, fpVec, tableList, tid, found)
      {
        var table := tableList[tid];
        TableSize(f, maxk, partition, combos, tableList, tid);
        var sorted := SortItems(vecAll, table);
        vecAll := sorted;
        ReorderingKeepsDistinct(vecAll, fpVec);
        FindDD(p, vecAll, table, tid, groupTable, known + found);
        ghost var more := FoundTo(p, vecAll, table, tid, |vecAll|);
        NextTable(p, vecAll, fpVec, tableList, tid, found, more);
        assert (known + found) + more == known + (found + more);
        found := found + more;
      }
    }

    /** What completeness asks for: every table is processed, thresholds stay within the distance the
        tables are made for, and no run is trash. */
    ghost predicate Covers(all: seq<FpItem>)
    {
      (maxt == 0 || |tableList| <= maxt) && Thresholds(p, maxk) && Untrashed(p, all, tableList)
    }

    /** A whole analysis: nothing happens without new documents unless it is forced. Groups become the
        closure of the old groups and the found pairs, which pass and include every pair that meets in
        a processed table. Where the tables cover the items, all passing pairs are grouped, and with a
        symmetric attachment relation the groups are exactly the chains of old groups and passing pairs:
        a new document joins all its duplicates. Two old documents are never found again. */
    method RunDdAnalysis(force: bool) returns (ghost found: Pairs)
      requires Valid()
      modifies `fpVec, `workingFpVec, `redo, groupTable
      ensures Valid() && Sound(p, fpVec, tableList, if 0 < maxt < |tableList| then maxt else |tableList|, found)
      ensures ClosureOf(groupTable.docidGroup, KnownPairs(old(groupTable.docidGroup)) + found)
      ensures force || old(workingFpVec) != []
              ==> workingFpVec == [] && fpVec == TakenOver(old(fpVec), old(workingFpVec), old(redo))
                  && Complete(p, fpVec, tableList, if 0 < maxt < |tableList| then maxt else |tableList|, found)
      ensures !force && old(workingFpVec) == []
              ==> fpVec == old(fpVec) && workingFpVec == [] && groupTable.docidGroup == old(groupTable.docidGroup)
      ensures (force || old(workingFpVec) != []) && Covers(fpVec)
              ==> forall x, y :: BothPass(p, fpVec, x, y) ==> Same(groupTable.docidGroup, x.docid, y.docid)
      ensures (force || old(workingFpVec) != []) && Covers(fpVec) && Symmetric(p)
              ==> ClosureOf(groupTable.docidGroup, KnownPairs(old(groupTable.docidGroup)) + PassingPairs(p, fpVec))
                  && NewGrouped(p, fpVec, if old(redo) then 0 else |old(fpVec)|, groupTable.docidGroup)
      ensures OldUntouched(fpVec, found)
    {
      if !force && workingFpVec == [] {
        found := {};
        KnownIsClosed(groupTable.docidGroup);
        assert KnownPairs(groupTable.docidGroup) + {} == KnownPairs(groupTable.docidGroup);
        return;
      }
      TakeOver();
      ghost var known := KnownPairs(groupTable.docidGroup);
      found := ScanTables();
      assert fpVec + [] == fpVec;
      OldAreUntouched(p, fpVec, tableList, TableCount(), found);
      if Covers(fpVec) {
        assert fpVec + workingFpVec == fpVec;
        PassingPairsAreGrouped(p, f, maxk, partition, combos, tableList, fpVec, groupTable.docidGroup, known, found);
        if Symmetric(p) {
          GroupsCloseExactly(p, f, maxk, partition, combos, tableList, fpVec, groupTable.docidGroup, known, found);
          NewAreGrouped(p, fpVec, if old(redo) then 0 else |old(fpVec)|, groupTable.docidGroup);
        }
      }
    }

    /** The positions of the documents that are not in the group of an earlier kept one. */
    method GetUniquePosList(docIdList: seq<int>) returns (unique: seq<nat>)
      ensures FirstOfGroups(groupTable.docidGroup, docIdList, unique, |docIdList|)
    {
      unique := [];
      for i := 0 to |docIdList|
        invariant FirstOfGroups(groupTable.docidGroup, docIdList, unique, i)
      {
        var clean := true;
        var j := 0;
        while j < |unique|
          invariant 0 <= j <= |unique| && clean
          invariant forall a :: 0 <= a < j ==> !Same(groupTable.docidGroup, docIdList[i], docIdList[unique[a]])
        {
          if groupTable.IsSameGroup(docIdList[i], docIdList[unique[j]]) {
            clean := false;
            break;
          }
          j := j + 1;
        }
        NextDocument(groupTable.docidGroup, docIdList, unique, i, j);
        if clean {
          unique := unique + [i];
        }
      }
    }
  }
}
