/** genProbeSequence: a heap-driven walk of the probe tree that emits every offset vector at most once,
    best first among those available, until the recall or the count is reached or none is left. */
module ProbeSequence {
  import opened Sequences
  import opened ProbeTree
  import opened ProbeScores

  ghost predicate AllFit(prs: seq<seq<real>>, done: seq<Probe>)
  {
    forall i :: 0 <= i < |done| ==> Fits(prs, done[i].off)
  }

  /** The probability of the zero vector and the emitted ones. */
  ghost function Mass(prs: seq<seq<real>>, done: seq<Probe>): real
    requires AllFit(prs, done) && Fits(prs, Zero(|prs|))
  {
    if done == [] then Score(prs, Zero(|prs|))
    else Mass(prs, done[..|done| - 1]) + Score(prs, done[|done| - 1].off)
  }

  // ---- sorting the components ----

  /** The comparator of the components, on their probability lists. */
  predicate Precedes(a: seq<real>, b: seq<real>)
  {
    if |a| <= 1 then false else if |b| <= 1 then true else a[1] > b[1]
  }

  /** A component of the hash: its number and the probabilities of its choices. */
  datatype Component = Component(m: nat, prs: seq<real>)

  ghost predicate InOrder(pl: seq<Component>)
  {
    forall i, j :: 0 <= i < j < |pl| ==> !Precedes(pl[j].prs, pl[i].prs)
  }

  lemma NotBeforeTransitive(a: seq<real>, b: seq<real>, c: seq<real>)
    requires !Precedes(b, a) && !Precedes(c, b)
    ensures !Precedes(c, a)
  {
  }

  lemma InsertedInOrder(pl: seq<Component>, p: nat, x: Component)
    requires InOrder(pl) && p <= |pl| && (forall i :: p <= i < |pl| ==> Precedes(x.prs, pl[i].prs))
    requires p > 0 ==> !Precedes(x.prs, pl[p - 1].prs)
    ensures InOrder(pl[..p] + [x] + pl[p..])
  {
    forall i | 0 <= i < p
      ensures !Precedes(x.prs, pl[i].prs)
    {
      if i < p - 1 {
        NotBeforeTransitive(pl[i].prs, pl[p - 1].prs, x.prs);
      }
    }
  }

  /** std::sort with the comparator: any order of the components in which none precedes an earlier one. */
  method SortComponents(pl: seq<Component>) returns (sorted: seq<Component>)
    ensures multiset(sorted) == multiset(pl) && InOrder(sorted) && BySecond(sorted)
  {
    sorted := [];
    assert InOrder(sorted);
    hide InOrder, Precedes;
    for i := 0 to |pl|
      invariant multiset(sorted) == multiset(pl[..i]) && InOrder(sorted)
    {
      var p, x := |sorted|, pl[i];
      while p > 0 && Precedes(x.prs, sorted[p - 1].prs)
        invariant 0 <= p <= |sorted| && forall k :: p <= k < |sorted| ==> Precedes(x.prs, sorted[k].prs)
      {
        p := p - 1;
      }
      InsertedInOrder(sorted, p, x);
      InsertedItems(sorted, p, x);
      NextItem(pl, i);
      sorted := sorted[..p] + [x] + sorted[p..];
    }
    assert pl[..|pl|] == pl;
    InOrderIsBySecond(sorted);
  }

  /** Components with a second choice come first, by falling probability of that choice. */
  ghost predicate BySecond(pl: seq<Component>)
  {
    forall i, j :: 0 <= i < j < |pl| && |pl[j].prs| >= 2 ==> |pl[i].prs| >= 2 && pl[i].prs[1] >= pl[j].prs[1]
  }

  /** What the comparator sorts by. */
  lemma InOrderIsBySecond(pl: seq<Component>)
    ensures InOrder(pl) <==> BySecond(pl)
  {
  }

  /** Where the first two choices of every component share the same total, sorting by the second choice also
      sorts by what it loses against the first. */
  lemma SortedByRatio(pl: seq<Component>, total: real)
    requires BySecond(pl) && total >= 0.0
    requires forall i :: 0 <= i < |pl| && |pl[i].prs| >= 2 ==> pl[i].prs[0] + pl[i].prs[1] == total
    ensures RatiosFall(Lists(pl))
  {
    forall l: nat | l < |pl| - 1 && |pl[l + 1].prs| > 1
      ensures RatioFalls(Lists(pl), l)
    {
      SecondsByRatio(total, pl[l].prs[1], pl[l + 1].prs[1], pl[l].prs[0], pl[l + 1].prs[0]);
    }
  }

  lemma SecondsByRatio(total: real, a: real, b: real, a0: real, b0: real)
    requires total >= 0.0 && b <= a && a0 == total - a && b0 == total - b
    ensures a0 * b <= a * b0
  {
    assert total * (a - b) >= 0.0;
  }

  /** Otherwise it need not: here the second component's choices are nearly even, but it comes second. */
  lemma SortedNotByRatio()
    ensures var pl := [Component(0, [0.5, 0.3, 0.2]), Component(1, [0.29, 0.29, 0.21, 0.21])];
            BySecond(pl) && Falling(Lists(pl)) && !RatiosFall(Lists(pl))
  {
    var pl := [Component(0, [0.5, 0.3, 0.2]), Component(1, [0.29, 0.29, 0.21, 0.21])];
    assert Lists(pl) == [pl[0].prs, pl[1].prs];
    hide Lists;
    NotByRatio();
  }

  lemma NotByRatio()
    ensures var prs := [[0.5, 0.3, 0.2], [0.29, 0.29, 0.21, 0.21]]; Falling(prs) && !RatiosFall(prs)
  {
    assert !RatioFalls([[0.5, 0.3, 0.2], [0.29, 0.29, 0.21, 0.21]], 0);
  }

  function Lists(pl: seq<Component>): (prs: seq<seq<real>>)
    ensures |prs| == |pl|
  {
    seq(|pl|, i requires 0 <= i < |pl| => pl[i].prs)
  }

  function Ranges(pl: seq<Component>): (range: seq<nat>)
    ensures |range| == |pl|
  {
    seq(|pl|, i requires 0 <= i < |pl| => |pl[i].prs|)
  }

  /** Every component has a choice. */
  ghost predicate Choices(pl: seq<Component>)
  {
    |pl| >= 1 && forall c :: c in pl ==> |c.prs| >= 1
  }

  lemma ReorderedChoices(pl: seq<Component>, sorted: seq<Component>)
    requires Choices(pl) && multiset(sorted) == multiset(pl)
    ensures Choices(sorted) && forall c :: c in sorted <==> c in pl
  {
    assert |multiset(sorted)| == |sorted| && |multiset(pl)| == |pl|;
    forall c
      ensures c in sorted <==> c in pl
    {
      assert c in sorted <==> c in multiset(sorted);
      assert c in pl <==> c in multiset(pl);
    }
  }

  /** Sorting puts components with one choice last: the walk has its box exactly when the first
      component, and so any component at all, has two choices. */
  lemma SortedIsBox(pl: seq<Component>)
    requires Choices(pl) && InOrder(pl)
    ensures Model(Lists(pl), Ranges(pl))
    ensures Box(Ranges(pl)) <==> |pl[0].prs| >= 2
    ensures |pl[0].prs| >= 2 <==> exists c :: c in pl && |c.prs| >= 2
  {
    var range := Ranges(pl);
    forall i | 0 <= i < |pl|
      ensures range[i] >= 1 && (|pl[0].prs| <= 1 ==> range[i] <= 1)
    {
      assert pl[i] in pl;
      assert i > 0 ==> !Precedes(pl[i].prs, pl[0].prs);
    }
    forall i, j | 0 <= i < j < |pl| && range[i] <= 1
      ensures range[j] <= 1
    {
      assert !Precedes(pl[j].prs, pl[i].prs);
    }
    assert pl[0] in pl;
  }

  // ---- the state of the walk ----

  datatype Scored = Scored(probe: Probe, pr: real)

  ghost function Probes(heap: seq<Scored>): (ps: seq<Probe>)
    ensures |ps| == |heap|
  {
    seq(|heap|, i requires 0 <= i < |heap| => heap[i].probe)
  }

  /** done has been emitted, open waits in the heap. */
  ghost predicate Walk(range: seq<nat>, done: seq<Probe>, open: seq<Probe>)
    requires |range| >= 1
  {
    && (forall p :: p in done || p in open ==> p.Valid(range))
    && Distinct(done) && Distinct(open) && (forall p :: p in done ==> p !in open)
    && (First(|range|) in done || First(|range|) in open)
    && (forall c :: c in done || c in open ==> c == First(|range|) || Parent(c) in done)
    && (forall p, c :: p in done && Child(range, p, c) ==> c in done || c in open)
  }

  /** The children a probe pushes, in the order of the code. */
  function Children(range: seq<nat>, p: Probe): seq<Probe>
    requires |p.off| == |range| && p.last < |p.off|
  {
    (if p.CanShift(range) then [p.Shift()] else [])
    + (if p.CanExpand(range) then [p.Expand()] else [])
    + (if p.CanExtend(range) then [p.Extend()] else [])
  }

  lemma ChildrenAreChildren(range: seq<nat>, p: Probe)
    requires Box(range) && p.Valid(range)
    ensures forall c :: c in Children(range, p) <==> Child(range, p, c)
    ensures Distinct(Children(range, p))
  {
    assert p.CanShift(range) ==> p.Shift().off[p.last] == 0;
    assert p.CanExpand(range) ==> p.Expand().off[p.last] > 0;
  }

  ghost predicate Removed(open: seq<Probe>, p: Probe, rest: seq<Probe>)
  {
    p in open && (forall c :: c in rest <==> c in open && c != p) && Distinct(rest)
  }

  /** The children of a waiting probe are new to the walk. */
  lemma ChildIsNew(range: seq<nat>, done: seq<Probe>, open: seq<Probe>, p: Probe, c: Probe)
    requires Box(range) && Walk(range, done, open) && p in open && Child(range, p, c)
    ensures c.Valid(range) && c != First(|range|) && Parent(c) == p && c !in done && c !in open
  {
    ChildHasParent(range, p, c);
  }

  lemma DistinctJoin(a: seq<Probe>, b: seq<Probe>)
    requires Distinct(a) && Distinct(b) && forall c :: c in b ==> c !in a
    ensures Distinct(a + b)
  {
    assert forall j :: |a| <= j < |a + b| ==> (a + b)[j] in b;
  }

  /** The new children of a probe, as far as the walk is concerned. */
  ghost predicate NewChildren(range: seq<nat>, done: seq<Probe>, open: seq<Probe>, p: Probe, kids: seq<Probe>)
    requires |range| >= 1
  {
    && Distinct(kids) && (forall c :: c in kids <==> Child(range, p, c))
    && forall c :: c in kids ==> c.Valid(range) && c != First(|range|) && Parent(c) == p && c !in done && c !in open
  }

  lemma ChildrenAreNew(range: seq<nat>, done: seq<Probe>, open: seq<Probe>, p: Probe)
    requires Box(range) && Walk(range, done, open) && p in open
    ensures p.Valid(range) && NewChildren(range, done, open, p, Children(range, p))
  {
    assert p.Valid(range);
    ChildrenAreChildren(range, p);
    forall c | c in Children(range, p)
      ensures c.Valid(range) && c != First(|range|) && Parent(c) == p && c !in done && c !in open
    {
      ChildIsNew(range, done, open, p, c);
    }
    hide Child, Children, Probe.Valid, Parent, Walk, Box;
  }

  /** Emitting a waiting probe and pushing its children keeps the walk sound. */
  lemma WalkStep(range: seq<nat>, done: seq<Probe>, open: seq<Probe>, p: Probe, rest: seq<Probe>, kids: seq<Probe>)
    requires |range| >= 1 && Walk(range, done, open) && Removed(open, p, rest)
    requires NewChildren(range, done, open, p, kids)
    ensures p !in done && Walk(range, done + [p], rest + kids)
  {
    hide Child, Parent, First, Probe.Valid;
    var done', open' := done + [p], rest + kids;
    DistinctJoin(done, [p]);
    DistinctJoin(rest, kids);
    hide Distinct;
    assert forall c :: c in open' <==> c in rest || c in kids;
    assert forall c :: c in done' <==> c in done || c == p;
  }

  /** When nothing waits, every probe of the box has been emitted. */
  lemma EmptyHeapIsComplete(range: seq<nat>, done: seq<Probe>, c: Probe)
    requires Box(range) && Walk(range, done, []) && c.Valid(range)
    ensures c in done
  {
    var found := set p | p in done;
    ClosedIsComplete(range, found, c);
  }

  // ---- best first ----

  /** c could have been emitted as number i: its parent was emitted before. */
  ghost predicate Available(done: seq<Probe>, i: nat, c: Probe)
    requires i <= |done| && c.last < |c.off| && c.off[c.last] > 0
  {
    c == First(|c.off|) || Parent(c) in done[..i]
  }

  ghost predicate Positive(s: seq<Probe>)
  {
    forall i :: 0 <= i < |s| ==> s[i].last < |s[i].off| && s[i].off[s[i].last] > 0
  }

  /** Every emitted probe was a most probable one among those available at its time. */
  ghost predicate BestFirst(prs: seq<seq<real>>, done: seq<Probe>)
    requires AllFit(prs, done) && Positive(done)
  {
    forall i, j :: 0 <= i < j < |done| && Available(done, i, done[j])
      ==> Score(prs, done[i].off) >= Score(prs, done[j].off)
  }

  /** The waiting probes are no more probable than what was emitted while they were available. */
  ghost predicate Awaits(prs: seq<seq<real>>, done: seq<Probe>, open: seq<Probe>)
    requires AllFit(prs, done) && AllFit(prs, open) && Positive(open)
  {
    forall i, k :: 0 <= i < |done| && 0 <= k < |open| && Available(done, i, open[k])
      ==> Score(prs, done[i].off) >= Score(prs, open[k].off)
  }

  /** Every emitted probe was a most probable one among all probes of the box that were available at its time,
      emitted later or not. */
  ghost predicate BestAvailable(prs: seq<seq<real>>, range: seq<nat>, done: seq<Probe>)
    requires |range| >= 1 && Model(prs, range) && forall p :: p in done ==> p.Valid(range)
  {
    forall i: nat, c: Probe :: i < |done| && c.Valid(range) && Available(done, i, c) && c !in done[..i] ==>
      done[i] in done && Fits(prs, c.off) && Fits(prs, done[i].off) && Score(prs, done[i].off) >= Score(prs, c.off)
  }

  lemma BestFromWalk(prs: seq<seq<real>>, range: seq<nat>, done: seq<Probe>, open: seq<Probe>)
    requires Box(range) && Model(prs, range) && Walk(range, done, open)
    requires AllFit(prs, done) && AllFit(prs, open) && Positive(done) && Positive(open)
    requires BestFirst(prs, done) && Awaits(prs, done, open)
    ensures BestAvailable(prs, range, done)
  {
    forall i: nat, c: Probe | i < |done| && c.Valid(range) && Available(done, i, c) && c !in done[..i]
      ensures done[i] in done && Fits(prs, c.off) && Fits(prs, done[i].off)
      ensures Score(prs, done[i].off) >= Score(prs, c.off)
    {
      ProbesFit(prs, range, c);
      BestAgainst(prs, range, done, open, i, c);
    }
  }

  lemma BestAgainst(prs: seq<seq<real>>, range: seq<nat>, done: seq<Probe>, open: seq<Probe>, i: nat, c: Probe)
    requires Box(range) && Model(prs, range) && Walk(range, done, open)
    requires AllFit(prs, done) && AllFit(prs, open) && Positive(done) && Positive(open)
    requires BestFirst(prs, done) && Awaits(prs, done, open)
    requires i < |done| && c.Valid(range) && Available(done, i, c) && c !in done[..i] && Fits(prs, c.off)
    ensures Score(prs, done[i].off) >= Score(prs, c.off)
  {
    hide Score, Fits, AllFit, Positive, Walk, Model, Box, Available, Probe.Valid;
    AvailableIsMet(range, done, open, i, c);
    assert c.last < |c.off| && c.off[c.last] > 0 by { ProbeIsPositive(range, c); }
    if c in done {
      var k :| 0 <= k < |done| && done[k] == c;
      LaterIn(done, i, k);
      assert Available(done, i, done[k]);
    } else {
      var k :| 0 <= k < |open| && open[k] == c;
      assert Available(done, i, open[k]);
    }
  }

  lemma ProbeIsPositive(range: seq<nat>, c: Probe)
    requires c.Valid(range)
    ensures c.last < |c.off| && c.off[c.last] > 0
  {
  }

  lemma LaterIn(done: seq<Probe>, i: nat, k: nat)
    requires i <= |done| && k < |done| && done[k] !in done[..i]
    ensures i <= k
  {
    assert forall m :: 0 <= m < i ==> done[..i][m] == done[m];
  }

  lemma AvailableIsMet(range: seq<nat>, done: seq<Probe>, open: seq<Probe>, i: nat, c: Probe)
    requires Box(range) && Walk(range, done, open) && i < |done| && c.Valid(range) && Available(done, i, c)
    ensures c in done || c in open
  {
    hide Child, Parent, Distinct;
    if c != First(|range|) {
      ParentHasChild(range, c);
      assert Parent(c) in done[..i] && Parent(c) in done;
    }
  }

  /** The emitted vectors are the most probable ones of the box, in falling order: none is less probable than
      any nonzero vector not emitted before it. */
  ghost predicate TopFirst(prs: seq<seq<real>>, range: seq<nat>, done: seq<Probe>)
    requires |range| >= 1 && Model(prs, range) && forall p :: p in done ==> p.Valid(range)
  {
    forall i: nat, c: Probe :: i < |done| && c.Valid(range) && c !in done[..i] ==>
      done[i] in done && Fits(prs, c.off) && Fits(prs, done[i].off) && Score(prs, done[i].off) >= Score(prs, c.off)
  }

  /** If probability falls down the tree, the best available probe is the best of all. */
  lemma BestIsTop(prs: seq<seq<real>>, range: seq<nat>, done: seq<Probe>)
    requires Box(range) && Model(prs, range) && NeverRises(prs, range)
    requires (forall p :: p in done ==> p.Valid(range)) && BestAvailable(prs, range, done)
    ensures TopFirst(prs, range, done)
  {
    forall i: nat, c: Probe | i < |done| && c.Valid(range) && c !in done[..i]
      ensures done[i] in done && Fits(prs, c.off) && Fits(prs, done[i].off)
      ensures Score(prs, done[i].off) >= Score(prs, c.off)
    {
      BestOverAncestors(prs, range, done, i, c);
    }
  }

  lemma {:induction false} BestOverAncestors(prs: seq<seq<real>>, range: seq<nat>, done: seq<Probe>, i: nat, c: Probe)
    requires Box(range) && Model(prs, range) && NeverRises(prs, range)
    requires (forall p :: p in done ==> p.Valid(range)) && BestAvailable(prs, range, done)
    requires i < |done| && c.Valid(range) && c !in done[..i]
    ensures done[i] in done && Fits(prs, c.off) && Fits(prs, done[i].off)
    ensures Score(prs, done[i].off) >= Score(prs, c.off)
    decreases Level(c)
  {
    hide Score, Fits, Child, Parent, Model, Box, Level;
    if c != First(|range|) && Parent(c) !in done[..i] {
      ParentHasChild(range, c);
      BestOverAncestors(prs, range, done, i, Parent(c));
    } else {
      assert Available(done, i, c);
    }
  }

  lemma BestStep(prs: seq<seq<real>>, range: seq<nat>, done: seq<Probe>, open: seq<Probe>, p: Probe, rest: seq<Probe>,
                 kids: seq<Probe>)
    requires |range| >= 1 && AllFit(prs, done) && AllFit(prs, open) && Positive(done) && Positive(open)
    requires AllFit(prs, rest + kids) && Positive(rest + kids)
    requires Removed(open, p, rest) && NewChildren(range, done, open, p, kids) && p !in done
    requires BestFirst(prs, done) && Awaits(prs, done, open)
    requires Fits(prs, p.off) && forall c :: c in rest ==> Fits(prs, c.off) && Score(prs, p.off) >= Score(prs, c.off)
    ensures AllFit(prs, done + [p]) && Positive(done + [p])
    ensures BestFirst(prs, done + [p]) && Awaits(prs, done + [p], rest + kids)
  {
    hide Fits, Score, Parent, First, Child;
    var done', open' := done + [p], rest + kids;
    var at :| 0 <= at < |open| && open[at] == p;
    forall i | 0 <= i <= |done|
      ensures done'[..i] == done[..i]
    {
    }
    assert forall k :: |rest| <= k < |open'| ==> open'[k] in kids;
    forall i, k | 0 <= i < |done'| && 0 <= k < |open'| && Available(done', i, open'[k])
      ensures Score(prs, done'[i].off) >= Score(prs, open'[k].off)
    {
      var c := open'[k];
      if k < |rest| {
        assert c in rest && c in open;
        if i < |done| {
          var m :| 0 <= m < |open| && open[m] == c;
          assert Available(done, i, open[m]);
        }
      }
    }
    forall i, j | 0 <= i < j < |done'| && Available(done', i, done'[j])
      ensures Score(prs, done'[i].off) >= Score(prs, done'[j].off)
    {
      if j == |done| {
        assert Available(done, i, open[at]);
      } else {
        assert Available(done, i, done[j]);
      }
    }
  }

  // ---- the loop ----

  /** Every heap entry carries the probability of its vector. */
  ghost predicate HeapOk(prs: seq<seq<real>>, heap: seq<Scored>)
  {
    forall i :: 0 <= i < |heap| ==> Fits(prs, heap[i].probe.off) && heap[i].pr == Score(prs, heap[i].probe.off)
  }

  /** pop_heap: an entry of largest probability leaves the heap. */
  method PopHeap(heap: seq<Scored>) returns (top: Scored, rest: seq<Scored>, ghost at: nat)
    requires heap != []
    ensures at < |heap| && heap[at] == top && rest == heap[..at] + heap[at + 1..]
    ensures forall i :: 0 <= i < |heap| ==> heap[i].pr <= top.pr
  {
    var best := 0;
    for i := 1 to |heap|
      invariant best < |heap| && forall k :: 0 <= k < i ==> heap[k].pr <= heap[best].pr
    {
      if heap[best].pr < heap[i].pr {
        best := i;
      }
    }
    return heap[best], heap[..best] + heap[best + 1..], best;
  }

  lemma PoppedIsRemoved(open: seq<Probe>, at: nat, left: seq<Probe>)
    requires at < |open| && left == open[..at] + open[at + 1..] && Distinct(open)
    ensures Removed(open, open[at], left)
  {
    forall c | c in left
      ensures c in open && c != open[at]
    {
      var i :| 0 <= i < |left| && left[i] == c;
      assert open[if i < at then i else i + 1] == c;
    }
    forall c | c in open && c != open[at]
      ensures c in left
    {
      var k :| 0 <= k < |open| && open[k] == c;
      assert left[if k < at then k else k - 1] == c;
    }
    assert forall i :: 0 <= i < |left| ==> left[i] == open[if i < at then i else i + 1];
  }

  lemma PoppedIsBest(prs: seq<seq<real>>, heap: seq<Scored>, at: nat, rest: seq<Scored>)
    requires at < |heap| && rest == heap[..at] + heap[at + 1..] && HeapOk(prs, heap)
    requires forall i :: 0 <= i < |heap| ==> heap[i].pr <= heap[at].pr
    ensures HeapOk(prs, rest) && Probes(rest) == Probes(heap)[..at] + Probes(heap)[at + 1..]
    ensures Fits(prs, heap[at].probe.off) && heap[at].pr == Score(prs, heap[at].probe.off)
    ensures forall c :: c in Probes(rest) ==> Fits(prs, c.off) && Score(prs, heap[at].probe.off) >= Score(prs, c.off)
  {
    hide Fits, Score;
    assert forall i :: 0 <= i < |rest| ==> rest[i] == heap[if i < at then i else i + 1];
  }

  /** Pushes one probe with its probability. */
  method Push(prs: seq<seq<real>>, heap: seq<Scored>, p: Probe) returns (more: seq<Scored>)
    requires HeapOk(prs, heap) && Fits(prs, p.off)
    ensures HeapOk(prs, more) && Probes(more) == Probes(heap) + [p]
  {
    var pr := SetPr(prs, p.off);
    more := heap + [Scored(p, pr)];
  }

  /** Pushes the children of a probe. */
  method PushChildren(prs: seq<seq<real>>, range: seq<nat>, heap: seq<Scored>, p: Probe) returns (more: seq<Scored>)
    requires Box(range) && Model(prs, range) && p.Valid(range) && HeapOk(prs, heap)
    ensures HeapOk(prs, more) && Probes(more) == Probes(heap) + Children(range, p)
  {
    ChildrenFit(prs, range, p);
    more := heap;
    if p.CanShift(range) {
      more := Push(prs, more, p.Shift());
    }
    if p.CanExpand(range) {
      more := Push(prs, more, p.Expand());
    }
    if p.CanExtend(range) {
      more := Push(prs, more, p.Extend());
    }
    hide HeapOk, Fits;
  }

  lemma ChildrenFit(prs: seq<seq<real>>, range: seq<nat>, p: Probe)
    requires Box(range) && Model(prs, range) && p.Valid(range)
    ensures p.CanShift(range) ==> Fits(prs, p.Shift().off)
    ensures p.CanExpand(range) ==> Fits(prs, p.Expand().off)
    ensures p.CanExtend(range) ==> Fits(prs, p.Extend().off)
  {
  }

  /** The walk with its order and its probability mass. */
  ghost predicate Sequence(prs: seq<seq<real>>, range: seq<nat>, done: seq<Probe>, open: seq<Probe>, mass: real)
    requires |range| >= 1
  {
    && Walk(range, done, open)
    && AllFit(prs, done) && AllFit(prs, open) && Positive(done) && Positive(open) && Fits(prs, Zero(|prs|))
    && BestFirst(prs, done) && Awaits(prs, done, open) && mass == Mass(prs, done)
  }

  lemma ValidAreFit(prs: seq<seq<real>>, range: seq<nat>, s: seq<Probe>)
    requires Model(prs, range) && forall p :: p in s ==> p.Valid(range)
    ensures AllFit(prs, s) && Positive(s)
  {
    forall i | 0 <= i < |s|
      ensures Fits(prs, s[i].off) && s[i].last < |s[i].off| && s[i].off[s[i].last] > 0
    {
      assert s[i] in s;
    }
  }

  /** Emitting a most probable waiting probe and pushing its children. */
  lemma SequenceStep(prs: seq<seq<real>>, range: seq<nat>, done: seq<Probe>, open: seq<Probe>, mass: real,
                     p: Probe, rest: seq<Probe>)
    requires Box(range) && Model(prs, range) && Sequence(prs, range, done, open, mass) && Removed(open, p, rest)
    requires Fits(prs, p.off) && forall c :: c in rest ==> Fits(prs, c.off) && Score(prs, p.off) >= Score(prs, c.off)
    ensures p.Valid(range) && Sequence(prs, range, done + [p], rest + Children(range, p), mass + Score(prs, p.off))
  {
    var kids := Children(range, p);
    ChildrenAreNew(range, done, open, p);
    WalkStep(range, done, open, p, rest, kids);
    WalkIsValid(range, done + [p], rest + kids);
    ValidAreFit(prs, range, done + [p]);
    ValidAreFit(prs, range, rest + kids);
    assert (done + [p])[..|done|] == done;
    hide Walk, Removed, Children, NewChildren, Probe.Valid, Box, Awaits, BestFirst, Score, Fits, Model, Positive,
      AllFit;
    BestStep(prs, range, done, open, p, rest, kids);
  }

  lemma WalkIsValid(range: seq<nat>, done: seq<Probe>, open: seq<Probe>)
    requires |range| >= 1 && Walk(range, done, open)
    ensures forall p :: p in done || p in open ==> p.Valid(range)
  {
  }

  lemma SequenceStarts(prs: seq<seq<real>>, range: seq<nat>)
    requires Box(range) && Model(prs, range)
    ensures Fits(prs, Zero(|prs|)) && First(|range|).Valid(range) && Fits(prs, First(|range|).off)
    ensures Sequence(prs, range, [], [First(|range|)], Score(prs, Zero(|prs|)))
  {
    var first := First(|range|);
    assert first.Valid(range);
    ValidAreFit(prs, range, [first]);
    hide Score;
  }

  /** The hashes emitted: the zero vector's, then those of the probes. */
  ghost predicate Hashes(hash: Offsets -> nat, n: nat, done: seq<Probe>, emitted: seq<nat>)
  {
    && |emitted| == |done| + 1 && emitted[0] == hash(Zero(n))
    && forall i :: 0 <= i < |done| ==> emitted[i + 1] == hash(done[i].off)
  }

  /** The walk had reason to go on after each of its vectors but the last. */
  ghost predicate KeptGoing(prs: seq<seq<real>>, done: seq<Probe>, recall: real, T: nat)
    requires AllFit(prs, done) && Fits(prs, Zero(|prs|))
  {
    forall n :: 0 <= n < |done| ==> Mass(prs, done[..n]) < recall && n + 1 < T
  }

  /** Every nonzero vector of the box has been emitted. */
  ghost predicate Exhausted(range: seq<nat>, done: seq<Probe>)
  {
    forall p: Probe :: p.Valid(range) ==> p in done
  }

  /** The state of the loop. */
  ghost predicate Looping(prs: seq<seq<real>>, range: seq<nat>, done: seq<Probe>, heap: seq<Scored>, pr: real,
                          emitted: seq<nat>, recall: real, T: nat, hash: Offsets -> nat)
    requires |range| >= 1
  {
    && Sequence(prs, range, done, Probes(heap), pr) && HeapOk(prs, heap) && Hashes(hash, |range|, done, emitted)
    && KeptGoing(prs, done, recall, T)
  }

  lemma KeepsGoing(prs: seq<seq<real>>, done: seq<Probe>, p: Probe, recall: real, T: nat)
    requires AllFit(prs, done) && Fits(prs, Zero(|prs|)) && Fits(prs, p.off) && KeptGoing(prs, done, recall, T)
    requires Mass(prs, done) < recall && |done| + 1 < T
    ensures AllFit(prs, done + [p]) && KeptGoing(prs, done + [p], recall, T)
  {
    var more := done + [p];
    hide Mass, Fits;
    forall n | 0 <= n < |more|
      ensures Mass(prs, more[..n]) < recall && n + 1 < T
    {
      assert more[..n] == done[..n];
      assert n == |done| ==> done[..n] == done;
    }
  }

  lemma WalkFacts(range: seq<nat>, done: seq<Probe>, open: seq<Probe>)
    requires |range| >= 1 && Walk(range, done, open)
    ensures Distinct(done) && Distinct(open) && forall p :: p in done ==> p.Valid(range)
  {
    hide Distinct, Child, Parent, Probe.Valid;
  }

  lemma LoopFacts(prs: seq<seq<real>>, range: seq<nat>, done: seq<Probe>, heap: seq<Scored>, pr: real,
                  emitted: seq<nat>, recall: real, T: nat, hash: Offsets -> nat)
    requires |range| >= 1 && Looping(prs, range, done, heap, pr, emitted, recall, T, hash)
    ensures Sequence(prs, range, done, Probes(heap), pr) && HeapOk(prs, heap) && |emitted| == |done| + 1
    ensures Hashes(hash, |range|, done, emitted) && Walk(range, done, Probes(heap))
    ensures AllFit(prs, done) && Fits(prs, Zero(|prs|)) && Positive(done) && BestFirst(prs, done)
    ensures pr == Mass(prs, done) && KeptGoing(prs, done, recall, T)
  {
    hide Walk, AllFit, Fits, Score, Mass, BestFirst, Awaits, KeptGoing, HeapOk, Positive, Zero, Probes;
  }

  /** One turn: the most probable waiting vector is emitted and its children wait in its place. */
  method EmitNext(prs: seq<seq<real>>, range: seq<nat>, pr: real, emitted: seq<nat>, heap: seq<Scored>,
                  ghost done: seq<Probe>, recall: real, T: nat, hash: Offsets -> nat)
    returns (pr': real, emitted': seq<nat>, heap': seq<Scored>, ghost done': seq<Probe>)
    requires Box(range) && Model(prs, range) && Looping(prs, range, done, heap, pr, emitted, recall, T, hash)
    requires pr < recall && |emitted| < T && |heap| > 0
    ensures Looping(prs, range, done', heap', pr', emitted', recall, T, hash)
    ensures |emitted'| == |emitted| + 1
  {
    assert |range| >= 1;
    hide *;
    LoopFacts(prs, range, done, heap, pr, emitted, recall, T, hash);
    WalkFacts(range, done, Probes(heap));
    var p, rest;
    ghost var at;
    p, rest, at := PopHeap(heap);
    PoppedIsBest(prs, heap, at, rest);
    PoppedProbe(heap, at);
    PoppedIsRemoved(Probes(heap), at, Probes(rest));
    SequenceStep(prs, range, done, Probes(heap), pr, p.probe, Probes(rest));
    KeepsGoing(prs, done, p.probe, recall, T);
    emitted' := emitted + [hash(p.probe.off)];
    pr' := pr + p.pr;
    done' := done + [p.probe];
    heap' := PushChildren(prs, range, rest, p.probe);
    NextLoop(prs, range, done, p.probe, heap', pr', emitted, recall, T, hash);
  }

  lemma PoppedProbe(heap: seq<Scored>, at: nat)
    requires at < |heap|
    ensures Probes(heap)[at] == heap[at].probe
  {
  }

  lemma NextLoop(prs: seq<seq<real>>, range: seq<nat>, done: seq<Probe>, p: Probe, heap: seq<Scored>, pr: real,
                 emitted: seq<nat>, recall: real, T: nat, hash: Offsets -> nat)
    requires |range| >= 1 && Hashes(hash, |range|, done, emitted) && HeapOk(prs, heap)
    requires Sequence(prs, range, done + [p], Probes(heap), pr) && AllFit(prs, done + [p]) && Fits(prs, Zero(|prs|))
    requires KeptGoing(prs, done + [p], recall, T)
    ensures Looping(prs, range, done + [p], heap, pr, emitted + [hash(p.off)], recall, T, hash)
  {
    hide Sequence, KeptGoing, HeapOk, Fits, Zero;
  }

  lemma EmptyHeapIsExhausted(range: seq<nat>, done: seq<Probe>, heap: seq<Scored>)
    requires Box(range) && Walk(range, done, Probes(heap)) && heap == []
    ensures Exhausted(range, done)
  {
    assert Probes(heap) == [];
    forall p: Probe | p.Valid(range)
      ensures p in done
    {
      EmptyHeapIsComplete(range, done, p);
    }
  }

  // ---- the vectors behind the probes ----

  ghost function Vectors(done: seq<Probe>): (vs: seq<Offsets>)
    ensures |vs| == |done|
  {
    seq(|done|, i requires 0 <= i < |done| => done[i].off)
  }

  /** Different probes have different vectors, none of them zero. */
  lemma VectorsDistinct(range: seq<nat>, done: seq<Probe>)
    requires Distinct(done) && forall p :: p in done ==> p.Valid(range)
    ensures Distinct(Vectors(done)) && forall v :: v in Vectors(done) ==> Inside(range, v) && v != Zero(|range|)
  {
    var vs := Vectors(done);
    forall i | 0 <= i < |done|
      ensures Inside(range, vs[i]) && vs[i] != Zero(|range|)
    {
      assert done[i] in done;
      assert vs[i][done[i].last] != Zero(|range|)[done[i].last];
    }
    forall i, j | 0 <= i < j < |done|
      ensures vs[i] != vs[j]
    {
      assert done[i] in done && done[j] in done;
      if vs[i] == vs[j] {
        LastIsUnique(range, done[i], done[j]);
      }
    }
  }

  /** Every vector of the box but zero has been emitted. */
  ghost predicate AllEmitted(range: seq<nat>, vs: seq<Offsets>)
  {
    forall off: Offsets :: Inside(range, off) && off != Zero(|range|) ==> off in vs
  }

  lemma ZeroOrPositive(off: Offsets)
    ensures off == Zero(|off|) || exists i :: 0 <= i < |off| && off[i] > 0
  {
    if forall i :: 0 <= i < |off| ==> off[i] == 0 {
      assert off == Zero(|off|);
    }
  }

  lemma ExhaustedIsAll(range: seq<nat>, done: seq<Probe>)
    requires Exhausted(range, done)
    ensures AllEmitted(range, Vectors(done))
  {
    forall off: Offsets | Inside(range, off) && off != Zero(|range|)
      ensures off in Vectors(done)
    {
      ZeroOrPositive(off);
      var p := ProbeOf(range, off, |off|);
      var i :| 0 <= i < |done| && done[i] == p;
      assert Vectors(done)[i] == off;
    }
  }

  /** Best first among the available vectors, adding up to mass, and no longer than asked for. */
  ghost predicate Emission(prs: seq<seq<real>>, range: seq<nat>, done: seq<Probe>, mass: real, recall: real, T: nat)
  {
    && (forall p :: p in done ==> p.Valid(range)) && AllFit(prs, done) && Positive(done) && Fits(prs, Zero(|prs|))
    && |range| >= 1 && Model(prs, range) && BestAvailable(prs, range, done)
    && BestFirst(prs, done) && mass == Mass(prs, done) && KeptGoing(prs, done, recall, T)
  }

  lemma NothingEmitted(prs: seq<seq<real>>, range: seq<nat>, recall: real, T: nat)
    requires Fits(prs, Zero(|prs|)) && |range| >= 1 && Model(prs, range)
    ensures Emission(prs, range, [], Score(prs, Zero(|prs|)), recall, T)
  {
  }

  lemma EmissionFromLoop(prs: seq<seq<real>>, range: seq<nat>, done: seq<Probe>, heap: seq<Scored>, pr: real,
                         emitted: seq<nat>, recall: real, T: nat, hash: Offsets -> nat)
    requires Box(range) && Model(prs, range) && Looping(prs, range, done, heap, pr, emitted, recall, T, hash)
    ensures Emission(prs, range, done, pr, recall, T) && Hashes(hash, |range|, done, emitted)
    ensures Distinct(done) && (forall p :: p in done ==> p.Valid(range)) && Walk(range, done, Probes(heap))
  {
    LoopFacts(prs, range, done, heap, pr, emitted, recall, T, hash);
    WalkFacts(range, done, Probes(heap));
    SequenceIsBest(prs, range, done, Probes(heap), pr);
    hide BestAvailable, AllFit, Positive, Fits, BestFirst, Mass, KeptGoing, Looping, Walk, Distinct, Probe.Valid,
      Hashes;
  }

  lemma SequenceIsBest(prs: seq<seq<real>>, range: seq<nat>, done: seq<Probe>, open: seq<Probe>, mass: real)
    requires Box(range) && Model(prs, range) && Sequence(prs, range, done, open, mass)
    ensures (forall p :: p in done ==> p.Valid(range)) && BestAvailable(prs, range, done)
  {
    WalkFacts(range, done, open);
    hide BestAvailable, AllFit, Positive, Fits, BestFirst, Awaits, Mass, Walk;
    BestFromWalk(prs, range, done, open);
  }

  lemma EmissionIsValid(prs: seq<seq<real>>, range: seq<nat>, done: seq<Probe>, mass: real, recall: real, T: nat)
    requires Emission(prs, range, done, mass, recall, T)
    ensures |range| >= 1 && Model(prs, range) && BestAvailable(prs, range, done)
    ensures forall p :: p in done ==> p.Valid(range)
  {
  }

  /** Nothing is emitted beyond the zero vector, or the emission is that of a box. */
  lemma EmissionIsTop(prs: seq<seq<real>>, range: seq<nat>, done: seq<Probe>, mass: real, recall: real, T: nat)
    requires Emission(prs, range, done, mass, recall, T) && (Box(range) || done == [])
    requires Falling(prs) && RatiosFall(prs)
    ensures |range| >= 1 && Model(prs, range) && (forall p :: p in done ==> p.Valid(range))
    ensures TopFirst(prs, range, done)
  {
    EmissionIsValid(prs, range, done, mass, recall, T);
    hide Emission, BestAvailable, Falling, RatiosFall, NeverRises;
    if done != [] {
      RatiosExactly(prs, range);
      BestIsTop(prs, range, done);
    }
  }

  lemma ZeroFits(pl: seq<Component>)
    requires Choices(pl)
    ensures Fits(Lists(pl), Zero(|pl|))
  {
    forall i | 0 <= i < |pl|
      ensures 0 < |Lists(pl)[i]|
    {
      assert pl[i] in pl;
    }
  }

  /** With one choice each, zero is the only vector. */
  lemma OnlyZero(pl: seq<Component>)
    requires Choices(pl) && forall c :: c in pl ==> |c.prs| == 1
    ensures AllEmitted(Ranges(pl), [])
  {
    forall off: Offsets | Inside(Ranges(pl), off)
      ensures off == Zero(|Ranges(pl)|)
    {
      forall i | 0 <= i < |off|
        ensures off[i] == 0
      {
        assert pl[i] in pl;
      }
    }
  }

  /** The loop over the heap, from the vector 1, 0, 0, ... on. */
  method Explore(prs: seq<seq<real>>, range: seq<nat>, pr0: real, recall: real, T: nat, hash: Offsets -> nat)
    returns (emitted: seq<nat>, ghost done: seq<Probe>, ghost mass: real)
    requires Box(range) && Model(prs, range) && Fits(prs, Zero(|prs|)) && pr0 == Score(prs, Zero(|prs|))
    ensures Emission(prs, range, done, mass, recall, T) && Hashes(hash, |range|, done, emitted)
    ensures Distinct(done) && (mass >= recall || |emitted| >= T || Exhausted(range, done))
  {
    SequenceStarts(prs, range);
    var n := |range|;
    var pr := pr0;
    emitted, done := [hash(Zero(n))], [];
    var heap := Push(prs, [], First(n));
    assert Probes(heap) == [First(n)];
    hide *;
    while true
      invariant Looping(prs, range, done, heap, pr, emitted, recall, T, hash)
      decreases T - |emitted|
    {
      if pr >= recall || |emitted| >= T || |heap| == 0 {
        break;
      }
      pr, emitted, heap, done := EmitNext(prs, range, pr, emitted, heap, done, recall, T, hash);
    }
    mass := pr;
    EmissionFromLoop(prs, range, done, heap, pr, emitted, recall, T, hash);
    if |heap| == 0 {
      EmptyHeapIsExhausted(range, done, heap);
    }
  }

  /** The probe sequence of the sorted components: the zero vector, then distinct other vectors, best
      first among those available, and best first among all where the components are also sorted by the ratio of
      their first two choices; it ends with enough probability mass, enough vectors, or all of them.
      If no component has a second choice and one is asked for, the access to it throws. */
  method GenProbeSequence(pl: seq<Component>, recall: real, T: nat, hash: (seq<Component>, Offsets) -> nat)
    returns (emitted: seq<nat>, outOfRange: bool, ghost sorted: seq<Component>, ghost done: seq<Probe>,
             ghost mass: real)
    requires Choices(pl)
    ensures multiset(sorted) == multiset(pl) && InOrder(sorted) && BySecond(sorted) && |sorted| == |pl|
    ensures Emission(Lists(sorted), Ranges(sorted), done, mass, recall, T)
    ensures Falling(Lists(sorted)) && RatiosFall(Lists(sorted)) ==> TopFirst(Lists(sorted), Ranges(sorted), done)
    ensures Hashes(off => hash(sorted, off), |pl|, done, emitted)
    ensures Distinct(Vectors(done))
    ensures forall v :: v in Vectors(done) ==> Inside(Ranges(sorted), v) && v != Zero(|pl|)
    ensures outOfRange <==> mass < recall && 1 < T && forall c :: c in pl ==> |c.prs| == 1
    ensures mass >= recall || |emitted| >= T || AllEmitted(Ranges(sorted), Vectors(done))
  {
    var order := SortComponents(pl);
    sorted, outOfRange := order, false;
    ReorderedChoices(pl, order);
    SortedIsBox(order);
    var prs, range := Lists(order), Ranges(order);
    var n, at := |order|, off => hash(order, off);
    assert n == |multiset(order)| == |multiset(pl)| == |pl|;
    ZeroFits(order);
    var pr := SetPr(prs, Zero(n));
    emitted, done := [hash(order, Zero(n))], [];
    mass := pr;
    hide InOrder, BySecond, Precedes, Box, Choices, Lists, Ranges, Emission, Falling, RatiosFall, TopFirst;
    NothingEmitted(prs, range, recall, T);
    if Falling(prs) && RatiosFall(prs) {
      EmissionIsTop(prs, range, [], mass, recall, T);
    }
    VectorsDistinct(range, []);
    if pr >= recall {
      return;
    }
    if |emitted| >= T {
      return;
    }
    if |order[0].prs| <= 1 {
      outOfRange := true;
      OnlyZero(order);
      return;
    }
    emitted, done, mass := Explore(prs, range, pr, recall, T, at);
    EmissionIsValid(prs, range, done, mass, recall, T);
    VectorsDistinct(range, done);
    if Falling(prs) && RatiosFall(prs) {
      EmissionIsTop(prs, range, done, mass, recall, T);
    }
    if Exhausted(range, done) {
      ExhaustedIsAll(range, done);
    }
  }
}
