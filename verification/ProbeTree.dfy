/** The tree of offset vectors behind the probe sequence: shift, expand and extend give every vector but
    the first exactly one parent. */
module ProbeTree {
  type Offsets = seq<nat>

  /** Numbers of choices per component: the first has two, components with one choice come last. */
  ghost predicate Box(range: seq<nat>)
  {
    && |range| >= 1 && range[0] >= 2
    && (forall i :: 0 <= i < |range| ==> range[i] >= 1)
    && (forall i, j :: 0 <= i < j < |range| && range[i] <= 1 ==> range[j] <= 1)
  }

  ghost predicate Inside(range: seq<nat>, off: Offsets)
  {
    |off| == |range| && forall i :: 0 <= i < |off| ==> off[i] < range[i]
  }

  /** A vector with the position of its last positive offset. */
  datatype Probe = Probe(off: Offsets, last: nat) {
    predicate CanShift(range: seq<nat>)
      requires |off| == |range| && last < |off|
    {
      off[last] == 1 && last + 1 < |off| && range[last + 1] > 1
    }

    function Shift(): Probe
      requires last + 1 < |off|
    {
      Probe(off[last := 0][last + 1 := 1], last + 1)
    }

    predicate CanExpand(range: seq<nat>)
      requires |off| == |range| && last < |off|
    {
      last + 1 < |off| && range[last + 1] > 1
    }

    function Expand(): Probe
      requires last + 1 < |off|
    {
      Probe(off[last + 1 := 1], last + 1)
    }

    predicate CanExtend(range: seq<nat>)
      requires |off| == |range| && last < |off|
    {
      off[last] + 1 < range[last]
    }

    function Extend(): Probe
      requires last < |off|
    {
      Probe(off[last := off[last] + 1], last)
    }

    /** last is where the last positive offset is, and the vector lies in the box. */
    ghost predicate Valid(range: seq<nat>)
    {
      && Inside(range, off) && last < |off| && off[last] > 0
      && forall i :: last < i < |off| ==> off[i] == 0
    }
  }

  /** The probe whose vector is 1, 0, 0, ... */
  function First(n: nat): Probe
    requires n >= 1
  {
    Probe(seq(n, i => if i == 0 then 1 else 0), 0)
  }

  function Zero(n: nat): Offsets
  {
    seq(n, _ => 0)
  }

  /** The probe that shift, expand or extend produced p from. */
  ghost function Parent(p: Probe): Probe
    requires p.last < |p.off| && p.off[p.last] > 0 && p != First(|p.off|)
  {
    if p.off[p.last] > 1 then Probe(p.off[p.last := p.off[p.last] - 1], p.last)
    else if p.last == 0 then p
    else if p.off[p.last - 1] > 0 then Probe(p.off[p.last := 0], p.last - 1)
    else Probe(p.off[p.last := 0][p.last - 1 := 1], p.last - 1)
  }

  /** c is produced from p. */
  ghost predicate Child(range: seq<nat>, p: Probe, c: Probe)
  {
    && p.Valid(range)
    && ((p.CanShift(range) && c == p.Shift()) || (p.CanExpand(range) && c == p.Expand())
        || (p.CanExtend(range) && c == p.Extend()))
  }

  /** Children stay in the box, and their parent is the probe they came from. */
  lemma ChildHasParent(range: seq<nat>, p: Probe, c: Probe)
    requires Box(range) && Child(range, p, c)
    ensures c.Valid(range) && c != First(|range|) && Parent(c) == p
  {
    if p.CanExtend(range) && c == p.Extend() {
      assert c.off[c.last := c.off[c.last] - 1] == p.off;
      assert c.off[c.last] >= 2;
    } else if p.CanExpand(range) && c == p.Expand() {
      assert c.off[c.last := 0] == p.off;
    } else {
      assert c.off[c.last := 0][c.last - 1 := 1] == p.off;
    }
  }

  lemma FirstByEntries(range: seq<nat>, p: Probe)
    requires p.Valid(range) && p.last == 0 && p.off[0] == 1
    ensures p == First(|range|)
  {
    assert p.off == First(|range|).off;
  }

  /** The parent of any other probe of the box is in the box, one step away. */
  lemma ParentHasChild(range: seq<nat>, c: Probe)
    requires Box(range) && c.Valid(range) && c != First(|range|)
    ensures Parent(c).Valid(range) && Child(range, Parent(c), c) && Level(Parent(c)) < Level(c)
  {
    var p := Parent(c);
    if c.off[c.last] > 1 {
      assert p.off[p.last := p.off[p.last] + 1] == c.off;
      TotalUpdate(c.off, c.last, c.off[c.last] - 1, |c.off|);
    } else if c.last == 0 {
      FirstByEntries(range, c);
    } else if c.off[c.last - 1] > 0 {
      assert p.off[p.last + 1 := 1] == c.off;
      TotalUpdate(c.off, c.last, 0, |c.off|);
    } else {
      assert p.off[p.last := 0][p.last + 1 := 1] == c.off;
      TotalUpdate(c.off, c.last, 0, |c.off|);
      TotalUpdate(c.off[c.last := 0], c.last - 1, 1, |c.off|);
    }
  }

  function Total(off: Offsets, n: nat): nat
    requires n <= |off|
  {
    if n == 0 then 0 else Total(off, n - 1) + off[n - 1]
  }

  lemma {:induction false} TotalUpdate(off: Offsets, i: nat, x: nat, n: nat)
    requires n <= |off| && i < |off|
    ensures Total(off[i := x], n) == Total(off, n) + if i < n then x - off[i] else 0
  {
    if n > 0 {
      TotalUpdate(off, i, x, n - 1);
    }
  }

  /** Grows with every step down the tree. */
  ghost function Level(p: Probe): nat
  {
    p.last + Total(p.off, |p.off|)
  }

  /** A set that contains the first probe and the children of its probes contains all of them. */
  lemma {:induction false} ClosedIsComplete(range: seq<nat>, found: set<Probe>, c: Probe)
    requires Box(range) && First(|range|) in found && c.Valid(range)
    requires forall p, d :: p in found && Child(range, p, d) ==> d in found
    ensures c in found
    decreases Level(c)
  {
    if c != First(|range|) {
      ParentHasChild(range, c);
      ClosedIsComplete(range, found, Parent(c));
    }
  }

  /** Every nonzero vector of the box belongs to exactly one probe. */
  lemma {:induction false} ProbeOf(range: seq<nat>, off: Offsets, n: nat) returns (p: Probe)
    requires Inside(range, off) && n <= |off| && (exists i :: 0 <= i < n && off[i] > 0)
    requires forall i :: n <= i < |off| ==> off[i] == 0
    ensures p.off == off && p.Valid(range)
  {
    if off[n - 1] > 0 {
      p := Probe(off, n - 1);
    } else {
      p := ProbeOf(range, off, n - 1);
    }
  }

  lemma LastIsUnique(range: seq<nat>, p: Probe, q: Probe)
    requires p.Valid(range) && q.Valid(range) && p.off == q.off
    ensures p == q
  {
  }
}
