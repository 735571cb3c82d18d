/** The permuted kernel matrix of the solver (class SVC_Q; ONE_CLASS_Q is the case of equal
    labels): columns are computed on demand into the LRU cache. */
module KernelMatrix {
  import opened KernelCache

  function EntryOf(kernel: (int, int) -> real, x: seq<int>, y: seq<int>, i: int, j: int): real
    requires |x| == |y| && 0 <= i < |x| && 0 <= j < |x|
  {
    (y[i] * y[j]) as real * kernel(x[i], x[j])
  }

  function Swap<T>(s: seq<T>, i: nat, j: nat): seq<T>
    requires i < |s| && j < |s|
  {
    s[i := s[j]][j := s[i]]
  }

  /** Every cached prefix agrees with the matrix, except row `but` from place `start` on. */
  ghost predicate Coherent(kernel: (int, int) -> real, x: seq<int>, y: seq<int>, data: seq<seq<real>>,
                           but: int, start: int)
    requires |x| == |y| == |data|
  {
    forall h, c :: 0 <= h < |data| && 0 <= c < |data[h]| && c < |x| && (h != but || c < start) ==>
      data[h][c] == EntryOf(kernel, x, y, h, c)
  }

  /** The matrix after an exchange is the old one with both coordinates relabelled. */
  lemma EntrySwapped(kernel: (int, int) -> real, x: seq<int>, y: seq<int>, i: nat, j: nat, h: nat, c: nat)
    requires |x| == |y| && i < |x| && j < |x| && h < |x| && c < |x|
    ensures EntryOf(kernel, Swap(x, i, j), Swap(y, i, j), h, c)
         == EntryOf(kernel, x, y, Transposed(i, j, h), Transposed(i, j, c))
  {
  }

  /** After other rows have been dropped and row i reallocated, its first `start` places are the old ones. */
  lemma CoherentAfterDrop(kernel: (int, int) -> real, x: seq<int>, y: seq<int>, was: seq<seq<real>>,
                          now: seq<seq<real>>, i: nat, gone: seq<int>, start: int)
    requires |x| == |y| == |was| == |now| && i < |was| && Coherent(kernel, x, y, was, -1, 0)
    requires Dropped(was[i := now[i]], now, gone) && start <= |was[i]| <= |now[i]| && now[i][..|was[i]|] == was[i]
    ensures Coherent(kernel, x, y, now, i, start)
  {
    hide EntryOf;
    forall c | 0 <= c < start
      ensures now[i][c] == was[i][c]
    {
      assert now[i][..|was[i]|][c] == now[i][c];
    }
  }

  lemma CoherentRow(kernel: (int, int) -> real, x: seq<int>, y: seq<int>, data: seq<seq<real>>, i: nat)
    requires |x| == |y| == |data| && i < |data| && Coherent(kernel, x, y, data, -1, 0) && |data[i]| <= |x|
    ensures forall c :: 0 <= c < |data[i]| ==> data[i][c] == EntryOf(kernel, x, y, i, c)
  {
    hide EntryOf;
  }

  /** Filling the next place of row i. */
  lemma CoherentCell(kernel: (int, int) -> real, x: seq<int>, y: seq<int>, data: seq<seq<real>>, i: nat, j: nat,
                     v: real)
    requires |x| == |y| == |data| && i < |data| && j < |data[i]| && Coherent(kernel, x, y, data, i, j)
    requires j < |x| ==> v == EntryOf(kernel, x, y, i, j)
    ensures Coherent(kernel, x, y, data[i := data[i][j := v]], i, j + 1)
  {
    hide EntryOf;
  }

  lemma PrefixSwapped(d: seq<real>, i: nat, j: nat, c: nat)
    requires i < j && c < |SwapPrefix(d, i, j)|
    ensures |SwapPrefix(d, i, j)| == |d| && Transposed(i, j, c) < |d|
    ensures SwapPrefix(d, i, j)[c] == d[Transposed(i, j, c)]
  {
  }

  /** Exchanging two positions of the matrix and patching the cache keeps them in agreement. */
  lemma SwapKeepsCoherence(kernel: (int, int) -> real, x: seq<int>, y: seq<int>,
                           was: seq<seq<real>>, now: seq<seq<real>>, i: nat, j: nat)
    requires |x| == |y| == |was| == |now| && i < |x| && j < |x|
    requires Coherent(kernel, x, y, was, -1, 0)
    requires forall h :: 0 <= h < |x| ==> |was[h]| <= |x|
    requires PrefixesSwapped(was, now, i, j)
    ensures Coherent(kernel, Swap(x, i, j), Swap(y, i, j), now, -1, 0)
  {
    if i == j {
      assert Swap(x, i, j) == x && Swap(y, i, j) == y;
    } else {
      forall h, c | 0 <= h < |now| && 0 <= c < |now[h]| && c < |x|
        ensures now[h][c] == EntryOf(kernel, Swap(x, i, j), Swap(y, i, j), h, c)
      {
        EntrySwapped(kernel, x, y, i, j, h, c);
        PrefixSwapped(was[Transposed(i, j, h)], if i < j then i else j, if i < j then j else i, c);
      }
    }
  }

  ghost predicate Diagonal(kernel: (int, int) -> real, x: seq<int>, d: seq<real>)
  {
    |d| == |x| && forall i :: 0 <= i < |x| ==> d[i] == kernel(x[i], x[i])
  }

  class SvcQ {
    const l: int
    const kernel: (int, int) -> real
    const x: array<int>   // the data item at each position
    const y: array<int>   // its label
    const QD: array<real> // the diagonal
    const cache: Cache

    /** The integer array a is none of the matrix's own. */
    ghost predicate Excludes(a: array<int>)
    {
      a != x && a != y && a != cache.prev && a != cache.next && a != cache.len
    }

    ghost predicate Shape()
    {
      && cache.Shape() && cache.l == l
      && x.Length == y.Length == QD.Length == l
      && x != y
      && x != cache.prev && x != cache.next && x != cache.len
      && y != cache.prev && y != cache.next && y != cache.len
    }

    /** Entry of the current matrix: the labels and the data items as they are placed now. */
    ghost function Entry(i: int, j: int): real
      requires Shape() && 0 <= i < l && 0 <= j < l
      reads x, y
    {
      EntryOf(kernel, x[..], y[..], i, j)
    }

    ghost predicate CoherentBut(but: int, start: int)
      requires Shape()
      reads x, y, cache.data
    {
      Coherent(kernel, x[..], y[..], cache.data[..], but, start)
    }

    ghost predicate Valid()
      reads this, x, y, QD, cache, cache.prev, cache.next, cache.data, cache.len
    {
      && Shape()
      && cache.Valid()
      && CoherentBut(-1, 0)
      && Diagonal(kernel, x[..], QD[..])
    }

    constructor (l: nat, kernel: (int, int) -> real, labels: seq<int>, bytes: int)
      requires |labels| == l
      ensures Valid() && this.l == l && this.kernel == kernel
      ensures fresh(x) && fresh(y) && fresh(QD) && fresh(cache) && fresh(cache.prev) && fresh(cache.next)
      ensures fresh(cache.data) && fresh(cache.len)
      ensures y[..] == labels && forall i :: 0 <= i < l ==> x[i] == i
    {
      hide IsRing, Cache.Linked;
      this.l := l;
      this.kernel := kernel;
      x := new int[l](i => i);
      y := new int[l](i requires 0 <= i < |labels| => labels[i]);
      QD := new real[l](i => kernel(i, i));
      cache := new Cache(l, bytes);
      new;
      cache.LinkedRing();
      assert y[..] == labels;
    }

    /** A row of the matrix, valid on at least its first `want` places. The storage of the row
        that was asked for last is still in place afterwards. */
    method GetQ(i: int, want: int) returns (row: seq<real>)
      requires Valid() && 0 <= i < l && 1 <= want <= l
      modifies cache`order, cache`size, cache.prev, cache.next, cache.data, cache.len
      ensures Valid()
      ensures want <= |row| <= l && forall c :: 0 <= c < |row| ==> row[c] == Entry(i, c)
      ensures Newest(cache.order) == i && cache.data[i] == row
      ensures old(Newest(cache.order)) in {-1, i}
           || cache.data[old(Newest(cache.order))] == old(cache.data[Newest(cache.order)])
    {
      hide IsRing, EntryOf, Diagonal, Coherent, Dropped, KernelCache.Without, Cache.Linked;
      cache.LinkedRing();
      ghost var was, order := cache.data[..], cache.order;
      var start, k := cache.GetData(i, want);
      cache.LinkedRing();
      ghost var now := cache.data[..];
      CoherentAfterDrop(kernel, x[..], y[..], was, now, i, KernelCache.Without(order, i)[..k], start);
      if start < want {
        Fill(i, start, want);
        cache.LinkedRing();
      }
      CoherentRow(kernel, x[..], y[..], cache.data[..], i);
      row := cache.data[i];
    }

    /** Computes the places [start, want) of a row that has just been made available. */
    method Fill(i: int, start: int, want: int)
      requires Shape() && cache.Valid() && 0 <= i < l && 0 <= start <= want == |cache.data[i]|
      requires CoherentBut(i, start)
      modifies cache.data
      ensures cache.Valid() && CoherentBut(-1, 0) && |cache.data[i]| == want
      ensures forall h :: 0 <= h < l && h != i ==> cache.data[h] == old(cache.data[h])
    {
      for j := start to want
        invariant cache.Valid() && |cache.data[i]| == want && CoherentBut(i, j)
        invariant forall h :: 0 <= h < l && h != i ==> cache.data[h] == old(cache.data[h])
      {
        FillCell(i, j);
      }
    }

    lemma EntryIs(i: int, j: int)
      requires Shape() && 0 <= i < l && 0 <= j < l
      ensures EntryOf(kernel, x[..], y[..], i, j) == (y[i] * y[j]) as real * kernel(x[i], x[j])
    {
    }

    method FillCell(i: int, j: int)
      requires Shape() && cache.Valid() && 0 <= i < l && 0 <= j < |cache.data[i]|
      requires CoherentBut(i, j)
      modifies cache.data
      ensures cache.Valid() && CoherentBut(i, j + 1) && |cache.data[i]| == old(|cache.data[i]|)
      ensures forall h :: 0 <= h < l && h != i ==> cache.data[h] == old(cache.data[h])
    {
      hide IsRing, EntryOf, Coherent;
      ghost var was := cache.data[..];
      var v := (y[i] * y[j]) as real * kernel(x[i], x[j]);
      EntryIs(i, j);
      CoherentCell(kernel, x[..], y[..], was, i, j, v);
      cache.data[i] := cache.data[i][j := v];
      assert cache.data[..] == was[i := was[i][j := v]];
    }

    /** Exchanges two positions of the matrix: data items, labels, diagonal and cached columns. */
    method SwapIndex(i: int, j: int)
      requires Valid() && 0 <= i < l && 0 <= j < l
      modifies x, y, QD, cache, cache.prev, cache.next, cache.data, cache.len
      ensures Valid()
      ensures x[..] == Swap(old(x[..]), i, j)
      ensures y[..] == Swap(old(y[..]), i, j)
      ensures QD[..] == Swap(old(QD[..]), i, j)
    {
      ghost var was := cache.data[..];
      cache.SwapIndex(i, j);
      SwapKeepsCoherence(kernel, x[..], y[..], was, cache.data[..], i, j);
      SwapLabels(i, j);
    }

    method SwapLabels(i: int, j: int)
      requires Shape() && 0 <= i < l && 0 <= j < l
      modifies x, y, QD
      ensures x[..] == Swap(old(x[..]), i, j)
      ensures y[..] == Swap(old(y[..]), i, j)
      ensures QD[..] == Swap(old(QD[..]), i, j)
      ensures Diagonal(kernel, old(x[..]), old(QD[..])) ==> Diagonal(kernel, x[..], QD[..])
    {
      x[i], x[j] := x[j], x[i];
      y[i], y[j] := y[j], y[i];
      QD[i], QD[j] := QD[j], QD[i];
    }
  }
}
