/** The LRU cache of kernel columns (class Cache). Entry h holds the first len[h] values of
    column h; the cached entries form a circular doubly linked list through a sentinel node. */
module KernelCache {
  import opened Sequences
  import opened Sums

  /** The k-th node of the ring whose entries, oldest first, are order; node l is the sentinel. */
  ghost function Node(l: int, order: seq<int>, k: int): int
  {
    if 1 <= k <= |order| then order[k - 1] else l
  }

  /** prev and next link exactly the entries of order, in that order, closed by the sentinel. */
  ghost predicate IsRing(l: int, order: seq<int>, prev: seq<int>, next: seq<int>)
  {
    && 0 <= l && |prev| == |next| == l + 1
    && (forall k :: 0 <= k < |order| ==> 0 <= order[k] < l)
    && Distinct(order)
    && (forall k :: 0 <= k <= |order| ==> next[Node(l, order, k)] == Node(l, order, k + 1))
    && (forall k :: 1 <= k <= |order| + 1 ==> prev[Node(l, order, k)] == Node(l, order, k - 1))
  }

  ghost function Index(s: seq<int>, x: int): (k: nat)
    requires x in s
    ensures k < |s| && s[k] == x
  {
    var k :| 0 <= k < |s| && s[k] == x; k
  }

  /** s with the entry x taken out. */
  ghost function Without(s: seq<int>, x: int): seq<int>
  {
    if x in s then s[..Index(s, x)] + s[Index(s, x) + 1..] else s
  }

  /** Unlinking entry h leaves the ring of the other entries. */
  lemma Unlinked(l: int, order: seq<int>, prev: seq<int>, next: seq<int>, h: int)
    requires IsRing(l, order, prev, next) && h in order
    ensures 0 <= h < l && 0 <= prev[h] <= l && 0 <= next[h] <= l && prev[h] != h && next[h] != h
    ensures IsRing(l, Without(order, h), prev[next[h] := prev[h]], next[prev[h] := next[h]])
  {
    hide IsRing, Node, Without;
    var w := Without(order, h);
    UnlinkedNode(l, order, prev, next, h);
    var p, n := prev[next[h] := prev[h]], next[prev[h] := next[h]];
    forall m | 0 <= m <= |w|
      ensures 0 <= Node(l, w, m) <= l && n[Node(l, w, m)] == Node(l, w, m + 1)
    {
      NextUnlinked(l, order, prev, next, h, m);
    }
    forall m | 1 <= m <= |w| + 1
      ensures 0 <= Node(l, w, m) <= l && p[Node(l, w, m)] == Node(l, w, m - 1)
    {
      PrevUnlinked(l, order, prev, next, h, m);
    }
    RingOf(l, order, prev, next, h, p, n);
  }

  lemma UnlinkedNode(l: int, order: seq<int>, prev: seq<int>, next: seq<int>, h: int)
    requires IsRing(l, order, prev, next) && h in order
    ensures 0 <= l && |prev| == |next| == l + 1 && 0 <= h < l && 0 <= prev[h] <= l && 0 <= next[h] <= l
    ensures Node(l, order, Index(order, h) + 1) == h && prev[h] != h && next[h] != h
    ensures prev[h] == Node(l, order, Index(order, h)) && next[h] == Node(l, order, Index(order, h) + 2)
    ensures |Without(order, h)| == |order| - 1
  {
    var k := Index(order, h);
    RingNeighbours(l, order, prev, next, k);
    RingNeighbours(l, order, prev, next, k + 1);
    RingApart(l, order, prev, next, k, k + 1);
    RingApart(l, order, prev, next, k + 2, k + 1);
  }

  lemma NextUnlinked(l: int, order: seq<int>, prev: seq<int>, next: seq<int>, h: int, m: int)
    requires IsRing(l, order, prev, next) && h in order && 0 <= m < |order|
    ensures |prev| == |next| == l + 1 && 0 <= h < l && 0 <= prev[h] <= l && 0 <= Node(l, Without(order, h), m) <= l
    ensures next[prev[h] := next[h]][Node(l, Without(order, h), m)] == Node(l, Without(order, h), m + 1)
  {
    hide *;
    UnlinkedNode(l, order, prev, next, h);
    NodeWithout(l, order, h, m);
    NodeWithout(l, order, h, m + 1);
    var k := Index(order, h);
    var o := if m <= k then m else m + 1;
    RingNeighbours(l, order, prev, next, o);
    if m != k {
      RingApart(l, order, prev, next, o, k);
    }
  }

  lemma PrevUnlinked(l: int, order: seq<int>, prev: seq<int>, next: seq<int>, h: int, m: int)
    requires IsRing(l, order, prev, next) && h in order && 1 <= m <= |order|
    ensures |prev| == |next| == l + 1 && 0 <= h < l && 0 <= next[h] <= l && 0 <= Node(l, Without(order, h), m) <= l
    ensures prev[next[h] := prev[h]][Node(l, Without(order, h), m)] == Node(l, Without(order, h), m - 1)
  {
    hide *;
    UnlinkedNode(l, order, prev, next, h);
    NodeWithout(l, order, h, m);
    NodeWithout(l, order, h, m - 1);
    var k := Index(order, h);
    var o := if m <= k then m else m + 1;
    RingNeighbours(l, order, prev, next, o - 1);
    if m != k + 1 {
      RingApart(l, order, prev, next, o, k + 2);
    }
  }

  lemma RingOf(l: int, order: seq<int>, prev: seq<int>, next: seq<int>, h: int, p: seq<int>, n: seq<int>)
    requires IsRing(l, order, prev, next) && h in order && |p| == |n| == l + 1
    requires forall k :: 0 <= k <= |Without(order, h)| ==>
      0 <= Node(l, Without(order, h), k) <= l && n[Node(l, Without(order, h), k)] == Node(l, Without(order, h), k + 1)
    requires forall k :: 1 <= k <= |Without(order, h)| + 1 ==>
      0 <= Node(l, Without(order, h), k) <= l && p[Node(l, Without(order, h), k)] == Node(l, Without(order, h), k - 1)
    ensures IsRing(l, Without(order, h), p, n)
  {
    WithoutContents(order, h);
    var w := Without(order, h);
    assert forall k :: 0 <= k < |w| ==> w[k] in w && w[k] in order;
    hide Node, Without;
  }

  lemma NodeWithout(l: int, order: seq<int>, h: int, m: int)
    requires h in order && 0 <= m <= |order|
    ensures |Without(order, h)| == |order| - 1
    ensures Node(l, Without(order, h), m) == Node(l, order, if m <= Index(order, h) then m else m + 1)
  {
  }

  /** Nodes of the ring differ, except that both ends are the sentinel. */
  lemma RingApart(l: int, order: seq<int>, prev: seq<int>, next: seq<int>, a: int, b: int)
    requires IsRing(l, order, prev, next) && 0 <= a && 0 <= b && a <= |order| + 1 && b <= |order| + 1
    requires a != b && !(a == 0 && b == |order| + 1) && !(b == 0 && a == |order| + 1)
    ensures Node(l, order, a) != Node(l, order, b)
  {
  }

  lemma RingNeighbours(l: int, order: seq<int>, prev: seq<int>, next: seq<int>, k: nat)
    requires IsRing(l, order, prev, next) && k <= |order|
    ensures 0 <= Node(l, order, k) <= l && 0 <= Node(l, order, k + 1) <= l
    ensures next[Node(l, order, k)] == Node(l, order, k + 1) && prev[Node(l, order, k + 1)] == Node(l, order, k)
  {
  }

  lemma WithoutContents(s: seq<int>, x: int)
    requires Distinct(s)
    ensures Distinct(Without(s, x))
    ensures forall y :: y in Without(s, x) <==> y in s && y != x
  {
    if x in s {
      var k := Index(s, x);
      var w := Without(s, x);
      forall y | y in s && y != x
        ensures y in w
      {
        var m := Index(s, y);
        assert if m < k then w[m] == y else w[m - 1] == y;
      }
    }
  }

  lemma WithoutFirst(s: seq<int>)
    requires Distinct(s) && s != []
    ensures Without(s, s[0]) == s[1..] && s[0] in s && s[0] !in s[1..]
    ensures forall x :: x in s[1..] <==> x in s && x != s[0]
  {
    assert Index(s, s[0]) == 0;
    WithoutContents(s, s[0]);
  }

  lemma FirstOfRing(l: int, order: seq<int>, prev: seq<int>, next: seq<int>)
    requires IsRing(l, order, prev, next) && order != []
    ensures 0 <= l < |next| && next[l] == order[0] && 0 <= order[0] < l && Distinct(order)
  {
    RingNeighbours(l, order, prev, next, 0);
  }

  /** What swap_index does to the cached prefix of one column: positions i < j trade places,
      and a prefix that covers i but not j is given up. */
  function SwapPrefix(d: seq<real>, i: nat, j: nat): seq<real>
    requires i < j
  {
    if |d| > j then d[i := d[j]][j := d[i]] else if |d| > i then [] else d
  }

  /** now is was with the listed entries emptied. */
  ghost predicate Dropped(was: seq<seq<real>>, now: seq<seq<real>>, gone: seq<int>)
    requires |was| == |now|
  {
    forall h :: 0 <= h < |now| ==> now[h] == if h in gone then [] else was[h]
  }

  lemma FrugalStarts(size: int, d: seq<seq<real>>, w: seq<int>, more: int)
    requires forall m :: 0 <= m < |w| ==> 0 <= w[m] < |d|
    ensures Frugal(size, size, d, w, 0, more)
  {
  }

  lemma FrugalNext(was: int, before: int, now: int, d: seq<seq<real>>, w: seq<int>, k: nat, more: int)
    requires Frugal(was, before, d, w, k, more) && before < more && k + 1 < |w|
    requires 0 <= w[k] < |d| && now == before + |d[w[k]]|
    ensures Frugal(was, now, d, w, k + 1, more)
  {
  }

  lemma FrugalEnds(was: int, now: int, d: seq<seq<real>>, w: seq<int>, k: nat, more: int)
    requires Frugal(was, now, d, w, k, more)
    ensures k <= |w| && (w != [] ==> k < |w|) && (k > 0 ==> 0 <= w[k - 1] < |d|)
    ensures if k == 0 then now == was else now - |d[w[k - 1]]| < more
  {
  }

  lemma NoneDropped(was: seq<seq<real>>)
    ensures Dropped(was, was, [])
  {
  }

  lemma DroppedMore(was: seq<seq<real>>, now: seq<seq<real>>, w: seq<int>, k: nat)
    requires 0 < k <= |w| && |was| == |now| && 0 <= w[k - 1] < |was| && Distinct(w)
    requires Dropped(was, now, w[..k - 1])
    ensures Dropped(was, now[w[k - 1] := []], w[..k])
    ensures now[w[k - 1]] == was[w[k - 1]]
  {
    assert w[..k] == w[..k - 1] + [w[k - 1]];
  }

  /** A filled entry that is not among the dropped ones. */
  lemma DroppedGrown(was: seq<seq<real>>, mid: seq<seq<real>>, gone: seq<int>, index: nat, col: seq<real>)
    requires |was| == |mid| && index < |was| && Dropped(was, mid, gone) && index !in gone
    ensures mid[index] == was[index] && Dropped(was[index := col], mid[index := col], gone)
  {
  }

  /** Dropping the entries w[..k] has freed no more than was needed. */
  ghost predicate Frugal(was: int, now: int, d: seq<seq<real>>, w: seq<int>, k: nat, more: int)
  {
    && k <= |w| && (w != [] ==> k < |w|) && (forall m :: 0 <= m < |w| ==> 0 <= w[m] < |d|)
    && if k == 0 then now == was else now - |d[w[k - 1]]| < more
  }

  /** now is was with positions i and j exchanged in the prefixes of the listed entries. */
  ghost predicate Swapped(was: seq<seq<real>>, now: seq<seq<real>>, done: seq<int>, i: nat, j: nat)
    requires |was| == |now| && i < j
  {
    forall h :: 0 <= h < |now| ==> now[h] == if h in done then SwapPrefix(was[h], i, j) else was[h]
  }

  lemma NoneSwapped(was: seq<seq<real>>, i: nat, j: nat)
    requires i < j
    ensures Swapped(was, was, [], i, j)
  {
  }

  lemma SwappedAll(was: seq<seq<real>>, now: seq<seq<real>>, w: seq<int>, i: nat, j: nat)
    requires |was| == |now| && i < j && Swapped(was, now, w, i, j)
    requires forall h :: 0 <= h < |was| && h !in w ==> was[h] == []
    ensures forall h :: 0 <= h < |now| ==> now[h] == SwapPrefix(was[h], i, j)
  {
  }

  lemma NodesOf(l: int, order: seq<int>)
    ensures Node(l, order, 0) == l
    ensures forall k :: 1 <= k <= |order| ==> Node(l, order, k) == order[k - 1]
    ensures forall k :: k > |order| ==> Node(l, order, k) == l
  {
  }

  lemma SwappedMore(was: seq<seq<real>>, now: seq<seq<real>>, w: seq<int>, m: nat, i: nat, j: nat)
    requires m < |w| && |was| == |now| && 0 <= w[m] < |was| && Distinct(w) && i < j
    requires Swapped(was, now, w[..m], i, j)
    ensures Swapped(was, now[w[m] := SwapPrefix(now[w[m]], i, j)], w[..m + 1], i, j)
  {
    assert w[..m + 1] == w[..m] + [w[m]];
  }

  /** The entry asked for last, or -1. */
  ghost function Newest(order: seq<int>): int
  {
    if order == [] then -1 else order[|order| - 1]
  }

  /** Evicting a proper prefix of the other entries leaves the newest of them alone. */
  lemma NewestSurvives(order: seq<int>, was: seq<seq<real>>, now: seq<seq<real>>, x: int, k: nat)
    requires Distinct(order) && |was| == |now| && 0 <= x < |was|
    requires k <= |Without(order, x)| && (Without(order, x) != [] ==> k < |Without(order, x)|)
    requires Dropped(was[x := now[x]], now, Without(order, x)[..k])
    ensures 0 <= Newest(order) < |was| && Newest(order) != x ==> now[Newest(order)] == was[Newest(order)]
  {
    if order != [] && Newest(order) != x {
      WithoutContents(order, x);
      var w := Without(order, x);
      assert w[|w| - 1] == Newest(order);
      assert Newest(order) !in w[..k];
    }
  }

  /** The index that plays the role of k once i and j have traded places. */
  function Transposed(i: int, j: int, k: int): int
  {
    if k == i then j else if k == j then i else k
  }

  /** Columns i and j have traded places, and so have positions i and j of every cached prefix. */
  ghost predicate PrefixesSwapped(was: seq<seq<real>>, now: seq<seq<real>>, i: nat, j: nat)
    requires |was| == |now| && i < |was| && j < |was|
  {
    if i == j then now == was
    else forall h :: 0 <= h < |now| ==>
      now[h] == SwapPrefix(was[Transposed(i, j, h)], if i < j then i else j, if i < j then j else i)
  }

  class Cache {
    const l: int
    const prev: array<int>
    const next: array<int>
    const data: array<seq<real>>
    const len: array<int>
    var size: int              // values that may still be allocated
    ghost var order: seq<int>  // cached entries, least recently used first
    ghost const total: int     // capacity, fixed at construction

    ghost predicate Shape()
    {
      && 0 <= l
      && prev.Length == next.Length == l + 1
      && data.Length == len.Length == l
      && prev != next && prev != len && next != len
      && 2 * l <= total
    }

    /** Ring and accounting, without the rule that the ring holds exactly the non-empty entries. */
    ghost predicate Linked()
      reads this, prev, next, data, len
    {
      && Shape()
      && IsRing(l, order, prev[..], next[..])
      && (forall h :: 0 <= h < l ==> |data[h]| == len[h] <= l)
      && size + Sum(len[..]) == total
      && 0 <= size
    }

    ghost predicate Valid()
      reads this, prev, next, data, len
    {
      && Linked()
      && (forall h :: 0 <= h < l ==> (h in order <==> len[h] > 0))
    }

    /** The byte budget is turned into a number of values, less the entry table, but never
        less than two full columns. */
    constructor (l: nat, bytes: int)
      ensures Valid() && order == [] && this.l == l
      ensures fresh(prev) && fresh(next) && fresh(data) && fresh(len)
      ensures size == total && total == (if bytes / 4 - 8 * l > 2 * l then bytes / 4 - 8 * l else 2 * l)
      ensures forall h :: 0 <= h < l ==> data[h] == []
    {
      this.l := l;
      prev := new int[l + 1](_ => l);
      next := new int[l + 1](_ => l);
      data := new seq<real>[l](_ => []);
      len := new int[l](_ => 0);
      var budget := bytes / 4 - 8 * l;
      size := if budget > 2 * l then budget else 2 * l;
      total := if budget > 2 * l then budget else 2 * l;
      order := [];
      new;
      SumToConstant(len[..], l, 0);
    }

    method LruDelete(h: int)
      requires Linked() && h in order
      modifies this`order, prev, next
      ensures Linked() && order == Without(old(order), h) && next[h] == old(next[h])
    {
      hide IsRing, Without;
      Unlinked(l, order, prev[..], next[..], h);
      next[prev[h]] := next[h];
      prev[next[h]] := prev[h];
      order := Without(order, h);
    }

    method LruInsert(h: int)
      requires Linked() && 0 <= h < l && h !in order
      modifies this`order, prev, next
      ensures Linked() && order == old(order) + [h]
    {
      ghost var n := |order|;
      assert Node(l, order, n + 1) == l && Node(l, order, 0) == l;
      assert Node(l, order, n) == prev[l];
      next[h] := l;
      prev[h] := prev[l];
      next[prev[h]] := h;
      prev[next[h]] := h;
      order := order + [h];
      assert forall m :: 0 <= m <= n ==> Node(l, order, m) == Node(l, old(order), m);
    }
  
    /** Gives up the least recently used entry; entry index is unlinked. */
    method DropOldest(ghost index: int)
      requires Linked() && order != [] && index !in order && Cached(index)
      modifies this`order, this`size, prev, next, data, len
      ensures Linked() && order == old(order)[1..] && index !in order && Cached(index)
      ensures data[..] == old(data[..])[old(order[0]) := []]
      ensures len[..] == old(len[..])[old(order[0]) := 0]
      ensures size == old(size + len[order[0]])
    {
      hide IsRing, Without, Node, Distinct;
      FirstOfRing(l, order, prev[..], next[..]);
      WithoutFirst(order);
      var oldest := next[l];
      LruDelete(oldest);
      SumUpdate(len[..], oldest, 0);
      ghost var lens := len[..];
      size := size + len[oldest];
      data[oldest] := [];
      len[oldest] := 0;
      assert len[..] == lens[oldest := 0];
    }

    lemma LinkedRing()
      requires Linked()
      ensures Shape() && |order| >= 0 && Distinct(order) && forall h :: 0 <= h < l ==> |data[h]| == len[h] <= l
      ensures forall k :: 0 <= k < |order| ==> 0 <= order[k] < l
    {
    }

    /** Entry index is unlinked and may take `more` further values. */
    ghost predicate Growable(index: int, more: int)
      reads this, prev, next, data, len
    {
      Linked() && 0 <= index < l && index !in order && Cached(index) && more + len[index] <= l
    }

    /** Of the ring w and the data d at the start, the entries w[..k] have been dropped so far. */
    ghost predicate Evicting(index: int, more: int, w: seq<int>, d: seq<seq<real>>, k: nat)
      reads this, prev, next, data, len
    {
      && Growable(index, more) && k <= |w| && order == w[k..] && |d| == data.Length
      && Distinct(w) && (forall m :: 0 <= m < |w| ==> 0 <= w[m] < l)
      && Dropped(d, data[..], w[..k])
    }

    /** One turn: while space is short, the oldest entry is dropped and another one remains. */
    method EvictTurn(index: int, more: int, ghost w: seq<int>, ghost d: seq<seq<real>>, ghost k: nat, ghost was: int)
      requires Evicting(index, more, w, d, k) && Frugal(was, size, d, w, k, more) && size < more
      modifies this`order, this`size, prev, next, data, len
      ensures Evicting(index, more, w, d, k + 1) && Frugal(was, size, d, w, k + 1, more)
      ensures |order| < |old(order)| && 0 <= index < len.Length && len[index] == old(len[index])
    {
      hide *;
      EvictFacts(index, more, w, d, k);
      NotExhausted(index, more);
      ghost var before := size;
      EvictNext(index, more, w, d, k);
      FrugalNext(was, before, size, d, w, k, more);
    }

    /** Drops entry w[k], the oldest of the ring w[k..]. */
    method EvictNext(index: int, more: int, ghost w: seq<int>, ghost d: seq<seq<real>>, ghost k: nat)
      requires Evicting(index, more, w, d, k) && 0 <= index < len.Length && order != []
      modifies this`order, this`size, prev, next, data, len
      ensures Evicting(index, more, w, d, k + 1) && k < |w| && |order| < |old(order)|
      ensures size == old(size) + |d[w[k]]| && len[index] == old(len[index])
    {
      LinkedRing();
      assert w[k..][0] == w[k] && w[k..][1..] == w[k + 1..];
      DroppedMore(d, data[..], w, k + 1);
      hide Linked, Cached, Dropped, IsRing, Distinct, Node, Sum;
      DropOldest(index);
    }

    lemma EvictStarts(index: int, more: int)
      requires Growable(index, more)
      ensures Evicting(index, more, order, data[..], 0) && 0 <= index < len.Length == data.Length
      ensures forall m :: 0 <= m < |order| ==> 0 <= order[m] < |data[..]|
    {
      LinkedRing();
      NoneDropped(data[..]);
      assert order[..0] == [];
      hide Linked, Cached, Dropped, IsRing, Distinct, Node, Sum;
    }

    lemma EvictFacts(index: int, more: int, w: seq<int>, d: seq<seq<real>>, k: nat)
      requires Evicting(index, more, w, d, k)
      ensures Growable(index, more) && 0 <= index < len.Length
      ensures k <= |w| && order == w[k..] && |d| == data.Length && Dropped(d, data[..], w[..k])
      ensures forall m :: 0 <= m < |w| ==> 0 <= w[m] < |d|
      ensures |order| >= 2 ==> k + 1 < |w|
    {
      LinkedRing();
      hide Linked, Cached, Dropped, IsRing, Distinct, Node, Sum;
    }

    /** Makes room for `more` values by dropping entries from the old end of the ring, while
        entry `index` is unlinked. The newest entry that remains is never dropped. */
    method Evict(index: int, more: int) returns (ghost k: nat)
      requires Growable(index, more)
      modifies this`order, this`size, prev, next, data, len
      ensures more <= size && 0 <= index < len.Length && len[index] == old(len[index])
      ensures Evicting(index, more, old(order), old(data[..]), k)
      ensures Frugal(old(size), size, old(data[..]), old(order), k, more)
    {
      k := 0;
      ghost var w, d := order, data[..];
      hide *;
      EvictStarts(index, more);
      FrugalStarts(size, d, w, more);
      while size < more
        invariant Evicting(index, more, w, d, k) && 0 <= index < len.Length && len[index] == old(len[index])
        invariant Frugal(old(size), size, d, w, k, more)
        decreases |order|
      {
        EvictTurn(index, more, w, d, k, old(size));
        k := k + 1;
      }
    }

    method Relink(index: int)
      requires Linked() && 0 <= index < l && index !in order
      modifies this`order, prev, next
      ensures Linked() && order == old(order) + (if len[index] > 0 then [index] else [])
    {
      if len[index] > 0 {
        LruInsert(index);
      }
    }

    /** Exchanges the prefixes of entries i and j, which both leave the ring and rejoin it at its
        young end when they are not empty. */
    method ExchangeEntries(i: int, j: int)
      requires Valid() && 0 <= i < l && 0 <= j < l && i != j
      modifies this`order, prev, next, data, len
      ensures Valid()
      ensures data[..] == old(data[..])[i := old(data[j])][j := old(data[i])]
    {
      hide IsRing, Without, Distinct, Node;
      Unlink(i);
      Unlink(j);
      SwapCells(i, j);
      Relink(i);
      Relink(j);
    }

    method SwapCells(i: int, j: int)
      requires Linked() && 0 <= i < l && 0 <= j < l && i != j
      modifies data, len
      ensures Linked()
      ensures data[..] == old(data[..])[i := old(data[j])][j := old(data[i])]
      ensures len[..] == old(len[..])[i := old(len[j])][j := old(len[i])]
    {
      ghost var lens := len[..];
      SumUpdate(lens, i, lens[j]);
      SumUpdate(lens[i := lens[j]], j, lens[i]);
      data[i], data[j] := data[j], data[i];
      len[i], len[j] := len[j], len[i];
      assert len[..] == lens[i := lens[j]][j := lens[i]];
    }

    /** Position j of every cached prefix trades places with position i, or the prefix is freed. */
    method SwapIndex(i: int, j: int)
      requires Valid() && 0 <= i < l && 0 <= j < l
      modifies this`order, this`size, prev, next, data, len
      ensures Valid()
      ensures PrefixesSwapped(old(data[..]), data[..], i, j)
    {
      if i == j { return; }
      ExchangeEntries(i, j);
      var low, high := if i < j then i else j, if i < j then j else i;
      SwapPositions(low, high);
    }

    method SwapPositions(i: int, j: int)
      requires Valid() && 0 <= i < j < l
      modifies this`order, this`size, prev, next, data, len
      ensures Valid()
      ensures forall h :: 0 <= h < l ==> data[h] == SwapPrefix(old(data[..])[h], i, j)
    {
      ghost var w, d, m, kept := order, data[..], 0, 0;
      LinkedRing();
      RingNeighbours(l, w, prev[..], next[..], 0);
      NodesOf(l, w);
      NoneSwapped(d, i, j);
      assert w[..0] == [];
      var h := next[l];
      hide Valid, Swapped, Walking;
      WalkStarts(w, d, h, i, j);
      while h != l
        invariant Walking(w, d, m, kept, h, i, j) && m <= |w|
        decreases |w| - m
      {
        h, kept := WalkNext(w, d, m, kept, h, i, j);
        m := m + 1;
      }
      WalkEnds(w, d, m, kept, h, i, j);
    }

    /** The first m entries of the ring w are fixed up; the walk stands at entry h, the m-th of w. */
    ghost predicate Walking(w: seq<int>, d: seq<seq<real>>, m: nat, kept: nat, h: int, i: nat, j: nat)
      reads this, prev, next, data, len
    {
      && Valid() && m <= |w| && kept <= |order| && order[kept..] == w[m..] && h == Node(l, order, kept + 1)
      && i < j < l && |d| == data.Length && Swapped(d, data[..], w[..m], i, j)
      && Distinct(w) && (forall k :: 0 <= k < |w| ==> 0 <= w[k] < l)
      && forall g :: 0 <= g < |d| && g !in w ==> d[g] == []
    }

    lemma WalkStarts(w: seq<int>, d: seq<seq<real>>, h: int, i: nat, j: nat)
      requires Valid() && i < j < l && w == order && d == data[..] && h == Node(l, order, 1)
      ensures Walking(w, d, 0, 0, h, i, j)
    {
      LinkedRing();
      NoneSwapped(d, i, j);
      assert w[..0] == [] && w[0..] == w;
      hide IsRing, Node, Distinct, Swapped;
    }

    lemma WalkEnds(w: seq<int>, d: seq<seq<real>>, m: nat, kept: nat, h: int, i: nat, j: nat)
      requires Walking(w, d, m, kept, h, i, j) && h == l
      ensures Valid() && |d| == data.Length == l && i < j
      ensures forall g :: 0 <= g < l ==> data[g] == SwapPrefix(d[g], i, j)
    {
      LinkedRing();
      NodesOf(l, order);
      assert |order[kept..]| == |w[m..]|;
      assert w[..|w|] == w;
      SwappedAll(d, data[..], w, i, j);
      hide IsRing, Node, Distinct, Swapped, Linked;
    }

    method WalkNext(ghost w: seq<int>, ghost d: seq<seq<real>>, ghost m: nat, ghost kept: nat, h: int, i: int, j: int)
      returns (succ: int, ghost kept': nat)
      requires 0 <= i && 0 <= j && Walking(w, d, m, kept, h, i, j) && h != l
      modifies this`order, this`size, prev, next, data, len
      ensures m < |w| && Walking(w, d, m + 1, kept', succ, i, j)
    {
      LinkedRing();
      NodesOf(l, order);
      assert |order[kept..]| == |w[m..]|;
      assert order[kept] == order[kept..][0] == w[m..][0] == w[m];
      assert w[m..][1..] == w[m + 1..] && order[kept..][1..] == order[kept + 1..];
      SwappedMore(d, data[..], w, m, i, j);
      hide IsRing, Node, Distinct, Swapped, Valid;
      succ, kept' := SwapNode(h, i, j, kept);
    }

    /** One step of the walk of SwapPositions: entry h, at place `at` of the ring, is fixed up or
        freed; the successor is read off the entry even when it has left the ring. */
    method SwapNode(h: int, i: int, j: int, ghost at: nat) returns (succ: int, ghost kept: nat)
      requires Valid() && 0 <= i < j < l && at < |order| && order[at] == h
      modifies this`order, this`size, prev, next, data, len
      ensures Valid()
      ensures data[..] == old(data[..])[h := SwapPrefix(old(data[h]), i, j)]
      ensures kept == (if i < old(len[h]) <= j then at else at + 1) <= |order|
      ensures order[kept..] == old(order)[at + 1..] && succ == Node(l, order, kept + 1)
    {
      assert Node(l, order, at + 1) == h && Index(order, h) == at;
      assert Node(l, order, at + 2) == next[h];
      kept := at + 1;
      if len[h] > i {
        if len[h] > j {
          data[h] := data[h][i := data[h][j]][j := data[h][i]];
        } else {
          kept := at;
          ghost var w := order;
          Free(h);
          assert order == w[..at] + w[at + 1..];
        }
      }
      succ := next[h];
    }

    /** Unlinks an entry and frees its data; its own forward link stays readable. */
    method Free(h: int)
      requires Valid() && h in order
      modifies this`order, this`size, prev, next, data, len
      ensures Valid()
      ensures order == Without(old(order), h) && next[h] == old(next[h])
      ensures data[..] == old(data[..])[h := []]
    {
      WithoutContents(order, h);
      LruDelete(h);
      ghost var lens := len[..];
      SumUpdate(lens, h, 0);
      size := size + len[h];
      data[h] := [];
      len[h] := 0;
      assert len[..] == lens[h := 0];
    }

    /** Apart from entry index, the ring holds exactly the non-empty entries. */
    ghost predicate Cached(index: int)
      requires Shape()
      reads this, len
    {
      forall h :: 0 <= h < l && h != index ==> (h in order <==> len[h] > 0)
    }

    /** Takes an entry out of the ring if it is there. */
    method Unlink(index: int)
      requires Linked() && 0 <= index < l && (index in order <==> len[index] > 0)
      modifies this`order, prev, next
      ensures Linked() && order == Without(old(order), index)
      ensures forall h :: h in order <==> h in old(order) && h != index
    {
      WithoutContents(order, index);
      if len[index] > 0 {
        LruDelete(index);
      }
    }

    /** Makes the first `want` places of column `index` available and returns the position from
        which the caller must fill them. The new order keeps all but the k oldest of the other
        entries, and never loses the newest of them: the column asked for last. */
    method GetData(index: int, want: int) returns (start: int, ghost k: nat)
      requires Valid() && 0 <= index < l && 1 <= want <= l
      modifies this`order, this`size, prev, next, data, len
      ensures Valid()
      ensures k <= |Without(old(order), index)|
      ensures order == Without(old(order), index)[k..] + [index]
      ensures Without(old(order), index) != [] ==> k < |Without(old(order), index)|
      ensures start == (if old(len[index]) >= want then want else old(len[index]))
      ensures old(len[index]) >= want ==> k == 0 && data[..] == old(data[..])
      ensures old(len[index]) < want ==> len[index] == want
      ensures data[index][..old(len[index])] == old(data[index])
      ensures Dropped(old(data[..])[index := data[index]], data[..], Without(old(order), index)[..k])
      ensures Newest(order) == index
      ensures old(Newest(order)) in {-1, index} || data[old(Newest(order))] == old(data[Newest(order)])
    {
      ghost var d, was := data[..], order;
      start, k := Acquire(index, want);
      NewestSurvives(was, d, data[..], index, k);
    }

    method Acquire(index: int, want: int) returns (start: int, ghost k: nat)
      requires Valid() && 0 <= index < l && 1 <= want <= l
      modifies this`order, this`size, prev, next, data, len
      ensures Valid()
      ensures k <= |Without(old(order), index)|
      ensures order == Without(old(order), index)[k..] + [index]
      ensures Without(old(order), index) != [] ==> k < |Without(old(order), index)|
      ensures start == (if old(len[index]) >= want then want else old(len[index]))
      ensures old(len[index]) >= want ==> k == 0 && data[..] == old(data[..])
      ensures old(len[index]) < want ==> len[index] == want
      ensures data[index][..old(len[index])] == old(data[index])
      ensures Dropped(old(data[..])[index := data[index]], data[..], Without(old(order), index)[..k])
    {
      ghost var w := Without(order, index);
      Unlink(index);
      k := 0;
      start := want;
      if len[index] < want {
        start := len[index];
        k := Reserve(index, want);
      }
      LruInsert(index);
    }

    /** Extends an unlinked entry to `want` places, dropping old entries as far as needed. */
    method Reserve(index: int, want: int) returns (ghost k: nat)
      requires Linked() && 0 <= index < l && index !in order && Cached(index)
      requires len[index] < want <= l
      modifies this`order, this`size, prev, next, data, len
      ensures Linked() && Cached(index) && index !in order
      ensures k <= |old(order)| && order == old(order)[k..] && (old(order) != [] ==> k < |old(order)|)
      ensures len[index] == want && data[index][..old(len[index])] == old(data[index])
      ensures Dropped(old(data[..])[index := data[index]], data[..], old(order)[..k])
    {
      hide Linked, Dropped, IsRing, Distinct, Node, Sum;
      LinkedRing();
      ghost var d, w := data[..], order;
      k := Evict(index, want - len[index]);
      EvictFacts(index, want - len[index], w, d, k);
      FrugalEnds(old(size), size, d, w, k, want - len[index]);
      LinkedRing();
      ghost var mid := data[..];
      Grow(index, want - len[index]);
      DroppedGrown(d, mid, w[..k], index, data[index]);
    }

    /** Reallocates an entry with `more` further places, whose contents are not specified. */
    method Grow(index: int, more: int)
      requires Linked() && 0 <= index < l && 0 < more <= size && len[index] + more <= l
      modifies this`size, data, len
      ensures Linked()
      ensures len[index] == old(len[index]) + more && data[index][..old(len[index])] == old(data[index])
      ensures data[..] == old(data[..])[index := data[index]] && len[..] == old(len[..])[index := len[index]]
    {
      ghost var lens := len[..];
      SumUpdate(lens, index, len[index] + more);
      data[index] := data[index] + seq(more, _ => 0.0);
      size := size - more;
      len[index] := len[index] + more;
      assert len[..] == lens[index := len[index]];
    }

    /** While space is short there are at least two linked entries besides the one being grown. */
    lemma NotExhausted(index: int, more: int)
      requires Growable(index, more) && size < more
      ensures |order| >= 2
    {
      if |order| < 2 {
        var other := if order == [] then -1 else order[0];
        forall h | 0 <= h < l && h != index && h != other
          ensures len[..][h] == 0
        {
          assert h !in order;
        }
        SumToAtMostTwo(len[..], index, other, l);
      }
    }
  }
}
