/** The nearest fingerprints to a signature, collected in a bounded heap. */
module NearestList {
  import opened Sequences
  import opened Fingerprints
  import opened DupScan

  /** A found item: its distance to the signature and its document. */
  datatype Hit = Hit(distance: nat, docid: int)

  /** The order of the heap: by distance, then by document. */
  predicate NotAfter(a: Hit, b: Hit)
  {
    a.distance < b.distance || (a.distance == b.distance && a.docid <= b.docid)
  }

  /** The largest entry comes first, and so on down. */
  ghost predicate Descending(hits: seq<Hit>)
  {
    forall i, j :: 0 <= i < j < |hits| ==> NotAfter(hits[j], hits[i])
  }

  ghost predicate Ascending(hits: seq<Hit>)
  {
    forall i, j :: 0 <= i < j < |hits| ==> NotAfter(hits[i], hits[j])
  }

  /** The items within the distance, in their order. */
  function Candidates(items: seq<FpItem>, signature: SimHash, limit: nat): seq<Hit>
    requires SameSize(items, |signature|)
  {
    if items == [] then [] else
      var last := items[|items| - 1];
      var distance := Hamming(last.fp, signature);
      Candidates(items[..|items| - 1], signature, limit) + if distance > limit then [] else [Hit(distance, last.docid)]
  }

  /** No hit of far is nearer than a hit of near. */
  ghost predicate NoNearer(near: multiset<Hit>, far: multiset<Hit>)
  {
    forall x, y :: x in near && y in far ==> x.distance <= y.distance
  }

  /** near are count nearest of all, or all of them if there are fewer. */
  ghost predicate Nearest(near: multiset<Hit>, all: multiset<Hit>, count: nat)
  {
    && near <= all && NoNearer(near, all - near)
    && |near| == if |all| < count then |all| else count
  }

  lemma InsertedDescends(heap: seq<Hit>, p: nat, x: Hit)
    requires Descending(heap) && p <= |heap| && (p < |heap| ==> !NotAfter(x, heap[p]))
    requires forall i :: 0 <= i < p ==> NotAfter(x, heap[i])
    ensures Descending(heap[..p] + [x] + heap[p..])
  {
    forall i | p <= i < |heap|
      ensures NotAfter(heap[i], x)
    {
      assert i > p ==> NotAfter(heap[i], heap[p]);
    }
    hide NotAfter;
  }

  /** An entry at its place in the heap. */
  method Push(heap: seq<Hit>, x: Hit) returns (more: seq<Hit>)
    requires Descending(heap)
    ensures Descending(more) && multiset(more) == multiset(heap) + multiset{x}
  {
    var p := 0;
    while p < |heap| && NotAfter(x, heap[p])
      invariant p <= |heap| && forall i :: 0 <= i < p ==> NotAfter(x, heap[i])
    {
      p := p + 1;
    }
    more := heap[..p] + [x] + heap[p..];
    InsertedItems(heap, p, x);
    InsertedDescends(heap, p, x);
    hide Descending, NotAfter;
  }

  /** The largest entry leaves the heap. */
  lemma PopKeeps(heap: seq<Hit>)
    requires Descending(heap) && heap != []
    ensures Descending(heap[1..]) && multiset(heap) == multiset(heap[1..]) + multiset{heap[0]}
    ensures forall x :: x in multiset(heap) ==> x.distance <= heap[0].distance
  {
    assert heap == [heap[0]] + heap[1..];
    forall x | x in multiset(heap)
      ensures x.distance <= heap[0].distance
    {
      var i :| 0 <= i < |heap| && heap[i] == x;
      assert NotAfter(heap[i], heap[0]);
    }
  }

  lemma JoinNearest(near: multiset<Hit>, all: multiset<Hit>, count: nat, x: Hit)
    requires Nearest(near, all, count) && |near| < count
    ensures Nearest(near + multiset{x}, all + multiset{x}, count)
  {
    SameSizeIsAll(near, all);
    assert near + multiset{x} == all + multiset{x};
  }

  lemma SameSizeIsAll(near: multiset<Hit>, all: multiset<Hit>)
    requires near <= all && |near| == |all|
    ensures near == all
  {
    assert all == near + (all - near);
    assert |all - near| == 0;
  }

  lemma ReplaceNearest(near: multiset<Hit>, all: multiset<Hit>, count: nat, top: Hit, x: Hit)
    requires Nearest(near, all, count) && |near| == count && top in near && x.distance < top.distance
    requires forall y :: y in near ==> y.distance <= top.distance
    ensures Nearest(near - multiset{top} + multiset{x}, all + multiset{x}, count)
  {
    ReplacedRest(near, all, top, x);
    var now, rest := near - multiset{top} + multiset{x}, all - near;
    forall a, b | a in now && b in rest + multiset{top}
      ensures a.distance <= b.distance
    {
      assert a == x || a in near;
      assert b == top || b in rest;
    }
  }

  lemma ReplacedRest(near: multiset<Hit>, all: multiset<Hit>, top: Hit, x: Hit)
    requires near <= all && top in near
    ensures var now := near - multiset{top} + multiset{x};
      now <= all + multiset{x} && all + multiset{x} - now == all - near + multiset{top} && |now| == |near|
  {
    var now, rest := near - multiset{top} + multiset{x}, all - near;
    assert all == near + rest;
    assert all + multiset{x} == now + (rest + multiset{top});
  }

  lemma KeepNearest(near: multiset<Hit>, all: multiset<Hit>, count: nat, top: Hit, x: Hit)
    requires Nearest(near, all, count) && |near| == count && top in near && x.distance >= top.distance
    requires forall y :: y in near ==> y.distance <= top.distance
    ensures Nearest(near, all + multiset{x}, count)
  {
    var rest := all - near;
    assert all + multiset{x} - near == rest + multiset{x};
  }

  lemma CandidatesNext(items: seq<FpItem>, signature: SimHash, limit: nat, i: nat)
    requires SameSize(items, |signature|) && i < |items|
    ensures var all := Candidates(items[..i], signature, limit);
            var distance := Hamming(items[i].fp, signature);
            Candidates(items[..i + 1], signature, limit)
            == if distance > limit then all else all + [Hit(distance, items[i].docid)]
  {
    assert items[..i + 1][..i] == items[..i];
    hide Hamming;
  }

  /** One candidate enters the bounded heap, or not. */
  method Offer(heap: seq<Hit>, count: nat, x: Hit, ghost all: multiset<Hit>) returns (more: seq<Hit>)
    requires count >= 1 && Descending(heap) && Nearest(multiset(heap), all, count)
    ensures Descending(more) && Nearest(multiset(more), all + multiset{x}, count)
    ensures multiset(more) ==
      if |heap| < count then multiset(heap) + multiset{x}
      else if x.distance < heap[0].distance then multiset(heap[1..]) + multiset{x}
      else multiset(heap)
  {
    assert |multiset(heap)| == |heap|;
    if |heap| < count {
      more := Push(heap, x);
      JoinNearest(multiset(heap), all, count, x);
    } else {
      PopKeeps(heap);
      if x.distance < heap[0].distance {
        more := Push(heap[1..], x);
        ReplaceNearest(multiset(heap), all, count, heap[0], x);
        assert multiset(heap) - multiset{heap[0]} == multiset(heap[1..]);
      } else {
        more := heap;
        KeepNearest(multiset(heap), all, count, heap[0], x);
      }
    }
  }

  /** sort_heap: from the largest-first order to ascending order. */
  method SortHeap(heap: seq<Hit>) returns (sorted: seq<Hit>)
    requires Descending(heap)
    ensures Ascending(sorted) && multiset(sorted) == multiset(heap)
  {
    sorted := [];
    for i := 0 to |heap|
      invariant |sorted| == i && forall k :: 0 <= k < i ==> sorted[k] == heap[i - 1 - k]
      invariant multiset(sorted) == multiset(heap[..i])
    {
      sorted := [heap[i]] + sorted;
      assert heap[..i + 1] == heap[..i] + [heap[i]];
    }
    assert heap[..|heap|] == heap;
  }

  /** An item within the distance is a candidate. */
  lemma {:induction false} CloseIsCandidate(items: seq<FpItem>, signature: SimHash, limit: nat, i: nat)
    requires SameSize(items, |signature|) && i < |items| && Hamming(items[i].fp, signature) <= limit
    ensures Candidates(items, signature, limit) != []
    decreases |items|
  {
    hide Hamming;
    if i < |items| - 1 {
      CloseIsCandidate(items[..|items| - 1], signature, limit, i);
    }
  }

  /** The count nearest of the items within the distance, nearest first. With a count of zero no item may
      be that close: the front of an empty heap would be read. */
  method GetKNNListBySignature(items: seq<FpItem>, signature: SimHash, count: nat, limit: nat) returns (knn: seq<Hit>)
    requires SameSize(items, |signature|) && (count >= 1 || Candidates(items, signature, limit) == [])
    ensures Ascending(knn) && Nearest(multiset(knn), multiset(Candidates(items, signature, limit)), count)
    ensures forall i, j :: 0 <= i < j < |knn| ==>
              knn[i].distance < knn[j].distance
              || (knn[i].distance == knn[j].distance && knn[i].docid <= knn[j].docid)
  {
    hide Hamming, Candidates, Nearest, Descending;
    knn := [];
    NothingYet(signature, limit, count);
    for i := 0 to |items|
      invariant Descending(knn) && Nearest(multiset(knn), multiset(Candidates(items[..i], signature, limit)), count)
    {
      var distance := CalcHammingDist(items[i].fp, signature);
      CandidatesNext(items, signature, limit, i);
      if distance <= limit {
        CloseIsCandidate(items, signature, limit, i);
        knn := Offer(knn, count, Hit(distance, items[i].docid), multiset(Candidates(items[..i], signature, limit)));
      }
    }
    assert items[..|items|] == items;
    knn := SortHeap(knn);
  }

  lemma NothingYet(signature: SimHash, limit: nat, count: nat)
    ensures Descending([]) && Nearest(multiset([]), multiset(Candidates([], signature, limit)), count)
  {
  }
}
