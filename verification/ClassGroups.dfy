/** svm_group_classes: the points are numbered class by class, classes in order of first appearance,
    points of a class in their original order. */
module ClassGroups {
  import opened OneVsOne

  /** Number of occurrences of c among the first n labels. */
  function Occurrences(s: seq<nat>, c: nat, n: nat): (k: nat)
    requires n <= |s|
    ensures k <= n
  {
    if n == 0 then 0 else Occurrences(s, c, n - 1) + if s[n - 1] == c then 1 else 0
  }

  lemma {:induction false} OccurrencesGrow(s: seq<nat>, c: nat, m: nat, n: nat)
    requires m <= n <= |s|
    ensures Occurrences(s, c, m) <= Occurrences(s, c, n)
    ensures m < n && s[m] == c ==> Occurrences(s, c, m) < Occurrences(s, c, n)
    decreases n
  {
    if m < n {
      OccurrencesGrow(s, c, m, n - 1);
    }
  }

  /** The k-th occurrence of c. */
  lemma {:induction false} OccurrenceAt(s: seq<nat>, c: nat, k: nat, n: nat) returns (i: nat)
    requires n <= |s| && k < Occurrences(s, c, n)
    ensures i < n && s[i] == c && Occurrences(s, c, i) == k
  {
    if s[n - 1] == c && Occurrences(s, c, n - 1) == k {
      i := n - 1;
    } else {
      i := OccurrenceAt(s, c, k, n - 1);
    }
  }

  /** The class numbers of the points are those of the first point with the same label. */
  ghost predicate Labelled(y: seq<int>, labels: seq<int>, dataLabel: seq<nat>, n: nat)
    requires n <= |y|
  {
    && |dataLabel| == n && (forall i :: 0 <= i < n ==> dataLabel[i] < |labels| && labels[dataLabel[i]] == y[i])
    && (forall c, d :: 0 <= c < d < |labels| ==> labels[c] != labels[d])
    && (forall c :: 0 <= c < |labels| ==> 0 < Occurrences(dataLabel, c, n))
  }

  ghost predicate Counted(dataLabel: seq<nat>, count: seq<nat>)
  {
    forall c :: 0 <= c < |count| ==> count[c] == Occurrences(dataLabel, c, |dataLabel|)
  }

  lemma OccurrencesAppend(s: seq<nat>, x: nat, c: nat)
    ensures Occurrences(s + [x], c, |s| + 1) == Occurrences(s, c, |s|) + if x == c then 1 else 0
  {
    OccurrencesSame(s, x, c, |s|);
  }

  lemma {:induction false} OccurrencesSame(s: seq<nat>, x: nat, c: nat, n: nat)
    requires n <= |s|
    ensures Occurrences(s + [x], c, n) == Occurrences(s, c, n)
  {
    if n > 0 {
      OccurrencesSame(s, x, c, n - 1);
    }
  }

  /** Classes, counts and class numbers of the first n points. */
  ghost predicate Found(y: seq<int>, labels: seq<int>, count: seq<nat>, dataLabel: seq<nat>, n: nat)
    requires n <= |y|
  {
    && |count| == |labels| && Labelled(y, labels, dataLabel, n) && Counted(dataLabel, count)
    && forall c: nat :: c >= |labels| ==> Occurrences(dataLabel, c, n) == 0
  }

  lemma FoundNext(y: seq<int>, labels: seq<int>, count: seq<nat>, dataLabel: seq<nat>, i: nat, j: nat)
    requires i < |y| && Found(y, labels, count, dataLabel, i) && j <= |labels|
    requires j < |labels| ==> labels[j] == y[i]
    requires j == |labels| ==> forall c :: 0 <= c < j ==> labels[c] != y[i]
    ensures if j == |labels| then Found(y, labels + [y[i]], count + [1], dataLabel + [j], i + 1)
            else Found(y, labels, count[j := count[j] + 1], dataLabel + [j], i + 1)
  {
    var next := dataLabel + [j];
    forall c: nat
      ensures Occurrences(next, c, |next|) == Occurrences(dataLabel, c, i) + if j == c then 1 else 0
    {
      OccurrencesAppend(dataLabel, j, c);
    }
    hide Occurrences;
    assert forall k :: 0 <= k < i ==> next[k] == dataLabel[k];
    assert next[i] == j && |next| == i + 1;
  }

  /** The first loop: classes, their counts, and the class of every point. */
  method FindClasses(y: seq<int>) returns (labels: seq<int>, count: seq<nat>, dataLabel: seq<nat>)
    ensures Found(y, labels, count, dataLabel, |y|)
  {
    labels, count, dataLabel := [], [], [];
    for i := 0 to |y|
      invariant Found(y, labels, count, dataLabel, i)
    {
      var j := 0;
      while j < |labels|
        invariant 0 <= j <= |labels| && forall c :: 0 <= c < j ==> labels[c] != y[i]
      {
        if y[i] == labels[j] {
          break;
        }
        j := j + 1;
      }
      FoundNext(y, labels, count, dataLabel, i, j);
      dataLabel := dataLabel + [j];
      if j == |labels| {
        labels := labels + [y[i]];
        count := count + [1];
      } else {
        count := count[j := count[j] + 1];
      }
      hide Found;
    }
  }

  /** Where point i goes: after the earlier points of its class. */
  function Place(dataLabel: seq<nat>, count: seq<nat>, i: nat): nat
    requires i < |dataLabel| && dataLabel[i] < |count|
  {
    StartOf(count, dataLabel[i]) + Occurrences(dataLabel, dataLabel[i], i)
  }

  lemma {:induction false} OccurrencesTotal(dataLabel: seq<nat>, count: seq<nat>, n: nat)
    requires n <= |dataLabel| && forall i :: 0 <= i < |dataLabel| ==> dataLabel[i] < |count|
    requires forall c :: 0 <= c < |count| ==> count[c] == Occurrences(dataLabel, c, n)
    ensures StartOf(count, |count|) == n
    decreases n
  {
    if n == 0 {
      AllZero(count, |count|);
    } else {
      var c := dataLabel[n - 1];
      var less := count[c := count[c] - 1];
      OccurrencesTotal(dataLabel, less, n - 1);
      StartsUpdate(less, c, count[c], |count|);
      assert less[c := count[c]] == count;
    }
  }

  lemma {:induction false} AllZero(count: seq<nat>, n: nat)
    requires n <= |count| && forall c :: 0 <= c < |count| ==> count[c] == 0
    ensures StartOf(count, n) == 0
  {
    if n > 0 {
      AllZero(count, n - 1);
    }
  }

  lemma {:induction false} StartsUpdate(count: seq<nat>, c: nat, x: nat, n: nat)
    requires n <= |count| && c < |count|
    ensures StartOf(count[c := x], n) == StartOf(count, n) + if c < n then x - count[c] else 0
  {
    if n > 0 {
      StartsUpdate(count, c, x, n - 1);
    }
  }

  lemma PlaceBounds(dataLabel: seq<nat>, count: seq<nat>, i: nat)
    requires Counted(dataLabel, count) && (forall k :: 0 <= k < |dataLabel| ==> dataLabel[k] < |count|)
    requires i < |dataLabel|
    ensures var c := dataLabel[i];
            StartOf(count, c) <= Place(dataLabel, count, i) < StartOf(count, c) + count[c] <= |dataLabel|
  {
    var c := dataLabel[i];
    OccurrencesGrow(dataLabel, c, i, |dataLabel|);
    OccurrencesTotal(dataLabel, count, |dataLabel|);
    StartsGrow(count, c, |count|);
  }

  lemma PlacesDiffer(dataLabel: seq<nat>, count: seq<nat>, i: nat, k: nat)
    requires Counted(dataLabel, count) && (forall k :: 0 <= k < |dataLabel| ==> dataLabel[k] < |count|)
    requires i < k < |dataLabel|
    ensures Place(dataLabel, count, i) != Place(dataLabel, count, k)
    ensures dataLabel[i] == dataLabel[k] ==> Place(dataLabel, count, i) < Place(dataLabel, count, k)
  {
    PlaceBounds(dataLabel, count, i);
    PlaceBounds(dataLabel, count, k);
    var c, d := dataLabel[i], dataLabel[k];
    if c < d {
      StartsGrow(count, c, d);
    } else if d < c {
      StartsGrow(count, d, c);
    } else {
      OccurrencesGrow(dataLabel, c, i, k);
    }
  }

  ghost predicate Listed(perm: seq<nat>, i: nat)
  {
    exists q :: 0 <= q < |perm| && perm[q] == i
  }

  /** Position q of class c holds a point of that class, later than those at the positions before. */
  ghost predicate Holds(y: seq<int>, labels: seq<int>, start: seq<nat>, perm: seq<nat>, c: nat, q: nat)
  {
    && c < |labels| && c < |start| && q < |perm| && perm[q] < |y| && y[perm[q]] == labels[c]
    && forall r :: start[c] <= r < q ==> perm[r] < perm[q]
  }

  /** perm lists the points class by class, each once, in their original order. */
  ghost predicate Grouped(y: seq<int>, labels: seq<int>, start: seq<nat>, count: seq<nat>, perm: seq<nat>)
  {
    && |start| == |count| == |labels| && |perm| == |y| == StartOf(count, |count|)
    && (forall c, d :: 0 <= c < d < |labels| ==> labels[c] != labels[d])
    && (forall c :: 0 <= c < |labels| ==> start[c] == StartOf(count, c) && count[c] > 0)
    && (forall i :: 0 <= i < |y| ==> Listed(perm, i))
    && forall c, q :: 0 <= c < |labels| && start[c] <= q < start[c] + count[c] ==> Holds(y, labels, start, perm, c, q)
  }

  method GroupClasses(y: seq<int>) returns (labels: seq<int>, start: seq<nat>, count: seq<nat>, perm: seq<nat>)
    requires |y| >= 1
    ensures Grouped(y, labels, start, count, perm)
  {
    var dataLabel;
    labels, count, dataLabel := FindClasses(y);
    assert dataLabel[0] < |labels|;
    start := Starts(count);
    OccurrencesTotal(dataLabel, count, |y|);
    perm := PlacePoints(dataLabel, count, start);
    PlacedIsGrouped(y, labels, start, count, dataLabel, perm);
  }

  /** The third loop: every point goes to the next free position of its class. */
  method PlacePoints(dataLabel: seq<nat>, count: seq<nat>, start: seq<nat>) returns (perm: seq<nat>)
    requires Counted(dataLabel, count) && forall k :: 0 <= k < |dataLabel| ==> dataLabel[k] < |count|
    requires |start| == |count| && forall c :: 0 <= c < |count| ==> start[c] == StartOf(count, c)
    ensures |perm| == |dataLabel| && PlacedTo(dataLabel, count, perm, |dataLabel|)
  {
    var cursor := start;
    perm := seq(|dataLabel|, _ => 0);
    for i := 0 to |dataLabel|
      invariant |perm| == |dataLabel| && |cursor| == |count|
      invariant forall c :: 0 <= c < |count| ==> cursor[c] == start[c] + Occurrences(dataLabel, c, i)
      invariant PlacedTo(dataLabel, count, perm, i)
    {
      var c := dataLabel[i];
      PlaceNext(dataLabel, count, perm, i);
      perm := perm[cursor[c] := i];
      cursor := cursor[c := cursor[c] + 1];
      hide PlacedTo;
    }
  }

  /** The first n points are where they belong. */
  ghost predicate PlacedTo(dataLabel: seq<nat>, count: seq<nat>, perm: seq<nat>, n: nat)
  {
    n <= |dataLabel| && forall i :: 0 <= i < n ==>
      dataLabel[i] < |count| && Place(dataLabel, count, i) < |perm| && perm[Place(dataLabel, count, i)] == i
  }

  lemma PlaceNext(dataLabel: seq<nat>, count: seq<nat>, perm: seq<nat>, n: nat)
    requires Counted(dataLabel, count) && (forall k :: 0 <= k < |dataLabel| ==> dataLabel[k] < |count|)
    requires n < |dataLabel| == |perm| && PlacedTo(dataLabel, count, perm, n)
    ensures Place(dataLabel, count, n) < |perm|
    ensures PlacedTo(dataLabel, count, perm[Place(dataLabel, count, n) := n], n + 1)
  {
    PlaceBounds(dataLabel, count, n);
    forall i | 0 <= i < n
      ensures Place(dataLabel, count, i) != Place(dataLabel, count, n)
    {
      PlacesDiffer(dataLabel, count, i, n);
    }
    hide Place;
  }

  /** Every position of a class holds a point of that class. */
  lemma PointInClass(dataLabel: seq<nat>, count: seq<nat>, perm: seq<nat>, c: nat, q: nat) returns (i: nat)
    requires Counted(dataLabel, count) && PlacedTo(dataLabel, count, perm, |dataLabel|)
    requires c < |count| && StartOf(count, c) <= q < StartOf(count, c) + count[c]
    ensures i < |dataLabel| && dataLabel[i] == c && Place(dataLabel, count, i) == q && q < |perm| && perm[q] == i
  {
    i := OccurrenceAt(dataLabel, c, q - StartOf(count, c), |dataLabel|);
  }

  lemma PositionHolds(y: seq<int>, labels: seq<int>, start: seq<nat>, count: seq<nat>, dataLabel: seq<nat>,
                      perm: seq<nat>, c: nat, q: nat)
    requires |start| == |count| == |labels| && Labelled(y, labels, dataLabel, |y|) && Counted(dataLabel, count)
    requires PlacedTo(dataLabel, count, perm, |y|) && c < |labels|
    requires start[c] == StartOf(count, c) && start[c] <= q < start[c] + count[c]
    ensures Holds(y, labels, start, perm, c, q)
  {
    LabelledFacts(y, labels, dataLabel, |y|);
    hide *;
    var i := PointInClass(dataLabel, count, perm, c, q);
    forall r | start[c] <= r < q
      ensures r < |perm| && perm[r] < perm[q]
    {
      OrderInClass(dataLabel, count, perm, c, r, q);
    }
    HoldsParts(y, labels, start, perm, c, q);
  }

  lemma OrderInClass(dataLabel: seq<nat>, count: seq<nat>, perm: seq<nat>, c: nat, r: nat, q: nat)
    requires Counted(dataLabel, count) && PlacedTo(dataLabel, count, perm, |dataLabel|)
    requires forall k :: 0 <= k < |dataLabel| ==> dataLabel[k] < |count|
    requires c < |count| && StartOf(count, c) <= r < q < StartOf(count, c) + count[c]
    ensures q < |perm| && perm[r] < perm[q]
  {
    hide *;
    var i := PointInClass(dataLabel, count, perm, c, q);
    var k := PointInClass(dataLabel, count, perm, c, r);
    if i < k {
      PlacesDiffer(dataLabel, count, i, k);
    }
  }

  lemma LabelledFacts(y: seq<int>, labels: seq<int>, dataLabel: seq<nat>, n: nat)
    requires n <= |y| && Labelled(y, labels, dataLabel, n)
    ensures |dataLabel| == n && forall i :: 0 <= i < n ==> dataLabel[i] < |labels| && labels[dataLabel[i]] == y[i]
  {
    hide Occurrences;
  }

  lemma HoldsParts(y: seq<int>, labels: seq<int>, start: seq<nat>, perm: seq<nat>, c: nat, q: nat)
    requires c < |labels| && c < |start| && q < |perm| && perm[q] < |y| && y[perm[q]] == labels[c]
    requires forall r :: start[c] <= r < q ==> r < |perm| && perm[r] < perm[q]
    ensures Holds(y, labels, start, perm, c, q)
  {
  }

  lemma PlacedIsGrouped(y: seq<int>, labels: seq<int>, start: seq<nat>, count: seq<nat>, dataLabel: seq<nat>,
                        perm: seq<nat>)
    requires |start| == |count| == |labels| && Labelled(y, labels, dataLabel, |y|) && Counted(dataLabel, count)
    requires forall c :: 0 <= c < |labels| ==> start[c] == StartOf(count, c)
    requires |perm| == |y| && PlacedTo(dataLabel, count, perm, |y|) && StartOf(count, |count|) == |y|
    ensures Grouped(y, labels, start, count, perm)
  {
    hide Labelled, Counted, PlacedTo, Holds, Listed, StartOf, Occurrences;
    forall c, q | 0 <= c < |labels| && start[c] <= q < start[c] + count[c]
      ensures Holds(y, labels, start, perm, c, q)
    {
      PositionHolds(y, labels, start, count, dataLabel, perm, c, q);
    }
    forall i: nat | i < |y|
      ensures Listed(perm, i)
    {
      PlacedIsListed(dataLabel, count, perm, |y|, i);
    }
    LabelsDiffer(y, labels, count, dataLabel);
  }

  lemma PlacedIsListed(dataLabel: seq<nat>, count: seq<nat>, perm: seq<nat>, n: nat, i: nat)
    requires PlacedTo(dataLabel, count, perm, n) && i < n
    ensures Listed(perm, i)
  {
    assert perm[Place(dataLabel, count, i)] == i;
  }

  lemma LabelsDiffer(y: seq<int>, labels: seq<int>, count: seq<nat>, dataLabel: seq<nat>)
    requires Labelled(y, labels, dataLabel, |y|) && Counted(dataLabel, count) && |count| == |labels|
    ensures forall c, d :: 0 <= c < d < |labels| ==> labels[c] != labels[d]
    ensures forall c :: 0 <= c < |labels| ==> count[c] > 0
  {
    hide Occurrences;
  }
}
