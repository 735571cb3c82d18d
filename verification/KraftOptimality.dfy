/** Optimality of depth assignments under the Kraft inequality, and the merge step of Huffman's
    construction: an optimal assignment for the merged weights gives one for the split weights.
    Items are the live indices of a fixed range, so that merging only flips masks. */
module KraftOptimality {
  import opened Powers
  import opened Sums

  /** A weighted choice of indices: item k takes part when live[k]. */
  ghost predicate Shaped(live: seq<bool>, w: seq<int>, d: seq<nat>)
  {
    |live| == |w| == |d|
  }

  ghost function CostTerms(live: seq<bool>, w: seq<int>, d: seq<nat>): (t: seq<int>)
    requires Shaped(live, w, d)
    ensures |t| == |live|
  {
    seq(|live|, k requires 0 <= k < |live| => if live[k] then w[k] * d[k] else 0)
  }

  /** Σ w_k d_k over the live items. */
  ghost function Cost(live: seq<bool>, w: seq<int>, d: seq<nat>): int
    requires Shaped(live, w, d)
  {
    Sum(CostTerms(live, w, d))
  }

  ghost predicate Within(live: seq<bool>, d: seq<nat>, D: nat)
    requires |live| == |d|
  {
    forall k :: 0 <= k < |live| && live[k] ==> d[k] <= D
  }

  ghost function KraftTerms(live: seq<bool>, d: seq<nat>, D: nat): (t: seq<int>)
    requires |live| == |d| && Within(live, d, D)
    ensures |t| == |live|
  {
    seq(|live|, k requires 0 <= k < |live| => if live[k] then Pow2(D - d[k]) else 0)
  }

  /** 2^D Σ 2^-d_k over the live items. */
  ghost function Kraft(live: seq<bool>, d: seq<nat>, D: nat): int
    requires |live| == |d| && Within(live, d, D)
  {
    Sum(KraftTerms(live, d, D))
  }

  /** The depths can be the lengths of a prefix code. */
  ghost predicate Feasible(live: seq<bool>, d: seq<nat>, D: nat)
    requires |live| == |d|
  {
    Within(live, d, D) && Kraft(live, d, D) <= Pow2(D)
  }

  /** d is feasible and no feasible assignment costs less. */
  ghost predicate Optimal(live: seq<bool>, w: seq<int>, d: seq<nat>)
    requires Shaped(live, w, d)
  {
    && (exists D: nat :: Feasible(live, d, D))
    && forall e: seq<nat>, D: nat :: |e| == |d| && Feasible(live, e, D) ==> Cost(live, w, d) <= Cost(live, w, e)
  }

  // ---- changing one item ----

  lemma CostChange(live: seq<bool>, w: seq<int>, d: seq<nat>, k: nat, v: nat)
    requires Shaped(live, w, d) && k < |d| && live[k]
    ensures Cost(live, w, d[k := v]) == Cost(live, w, d) + w[k] * (v - d[k])
  {
    SumUpdate(CostTerms(live, w, d), k, w[k] * v);
    assert CostTerms(live, w, d[k := v]) == CostTerms(live, w, d)[k := w[k] * v];
  }

  lemma KraftChange(live: seq<bool>, d: seq<nat>, D: nat, k: nat, v: nat)
    requires |live| == |d| && Within(live, d, D) && k < |d| && live[k] && v <= D
    ensures Within(live, d[k := v], D)
    ensures Kraft(live, d[k := v], D) == Kraft(live, d, D) + Pow2(D - v) - Pow2(D - d[k])
  {
    SumUpdate(KraftTerms(live, d, D), k, Pow2(D - v));
    assert KraftTerms(live, d[k := v], D) == KraftTerms(live, d, D)[k := Pow2(D - v)];
  }

  // ---- the scale D ----

  lemma {:induction false} SumDoubles(s: seq<int>, t: seq<int>, n: nat)
    requires n <= |s| && n <= |t| && forall k :: 0 <= k < n ==> t[k] == 2 * s[k]
    ensures SumTo(t, n) == 2 * SumTo(s, n)
  {
    if n > 0 {
      SumDoubles(s, t, n - 1);
    }
  }

  lemma KraftScales(live: seq<bool>, d: seq<nat>, D: nat)
    requires |live| == |d| && Within(live, d, D)
    ensures Within(live, d, D + 1) && Kraft(live, d, D + 1) == 2 * Kraft(live, d, D)
  {
    assert Within(live, d, D + 1);
    SumDoubles(KraftTerms(live, d, D), KraftTerms(live, d, D + 1), |d|);
  }

  // ---- two siblings at the bottom ----

  /** Exchanging the depths of two live items. */
  lemma ExchangeDepths(live: seq<bool>, w: seq<int>, d: seq<nat>, D: nat, x: nat, u: nat) returns (e: seq<nat>)
    requires Shaped(live, w, d) && Feasible(live, d, D) && x < |d| && u < |d| && x != u && live[x] && live[u]
    requires d[x] <= d[u] && w[x] <= w[u]
    ensures e == d[x := d[u]][u := d[x]]
    ensures Feasible(live, e, D) && Cost(live, w, e) <= Cost(live, w, d)
  {
    var m := d[x := d[u]];
    e := m[u := d[x]];
    CostChange(live, w, d, x, d[u]);
    CostChange(live, w, m, u, d[x]);
    KraftChange(live, d, D, x, d[u]);
    KraftChange(live, m, D, u, d[x]);
    ExchangePays(w[x], w[u], d[x], d[u]);
    hide Cost, Kraft, Within;
  }

  lemma ExchangePays(light: int, heavy: int, high: nat, low: nat)
    requires light <= heavy && high <= low
    ensures light * (low - high) + heavy * (high - low) <= 0
  {
    assert (heavy - light) * (low - high) >= 0;
  }

  /** Terms of items above the bottom level are even. */
  lemma {:induction false} SumOdd(s: seq<int>, n: nat, k: nat)
    requires n <= |s| && forall m :: 0 <= m < n && m != k ==> s[m] % 2 == 0
    requires k < n ==> s[k] == 1
    ensures SumTo(s, n) % 2 == (if k < n then 1 else 0)
  {
    if n > 0 {
      SumOdd(s, n - 1, k);
    }
  }

  /** A lone item on the bottom level can be raised. */
  lemma RaiseLoneItem(live: seq<bool>, w: seq<int>, d: seq<nat>, D: nat, k: nat) returns (e: seq<nat>)
    requires Shaped(live, w, d) && Feasible(live, d, D) && D >= 1 && k < |d| && live[k] && d[k] == D && 0 <= w[k]
    requires forall m :: 0 <= m < |d| && live[m] && m != k ==> d[m] < D
    ensures e == d[k := D - 1] && Feasible(live, e, D) && Cost(live, w, e) <= Cost(live, w, d)
  {
    e := d[k := D - 1];
    var t := KraftTerms(live, d, D);
    forall m | 0 <= m < |d| && m != k
      ensures t[m] % 2 == 0
    {
      if live[m] {
        assert Pow2(D - d[m]) == 2 * Pow2(D - d[m] - 1);
      }
    }
    SumOdd(t, |t|, k);
    assert Pow2(D) == 2 * Pow2(D - 1);
    KraftChange(live, d, D, k, D - 1);
    CostChange(live, w, d, k, D - 1);
  }

  /** Nothing on the bottom level: the scale can be lowered. */
  lemma LowerScale(live: seq<bool>, d: seq<nat>, D: nat)
    requires |live| == |d| && Feasible(live, d, D) && D >= 1
    requires forall m :: 0 <= m < |d| && live[m] ==> d[m] < D
    ensures Feasible(live, d, D - 1)
  {
    KraftScales(live, d, D - 1);
  }

  lemma {:induction false} SumAtLeastTwo(s: seq<int>, n: nat, x: nat, y: nat)
    requires n <= |s| && x != y && forall k :: 0 <= k < |s| ==> 0 <= s[k]
    ensures SumTo(s, n) >= (if x < n then s[x] else 0) + (if y < n then s[y] else 0)
  {
    if n > 0 {
      SumAtLeastTwo(s, n - 1, x, y);
    }
  }

  /** Two items cannot both sit at depth 0. */
  lemma ScaleIsPositive(live: seq<bool>, d: seq<nat>, D: nat, x: nat, y: nat)
    requires |live| == |d| && Feasible(live, d, D) && x < |d| && y < |d| && x != y && live[x] && live[y]
    ensures D >= 1
  {
    SumAtLeastTwo(KraftTerms(live, d, D), |d|, x, y);
  }

  ghost predicate SmallestPair(live: seq<bool>, w: seq<int>, x: nat, y: nat)
    requires |live| == |w|
  {
    && x < |w| && y < |w| && x != y && live[x] && live[y]
    && forall k :: 0 <= k < |w| && live[k] && k != x && k != y ==> w[x] <= w[k] && w[y] <= w[k]
  }

  /** Every feasible assignment can be improved to one with the two lightest items side by side at
      the bottom. */
  lemma {:induction false} SiblingsAtBottom(live: seq<bool>, w: seq<int>, d: seq<nat>, D: nat, x: nat, y: nat)
    returns (e: seq<nat>, E: nat)
    requires Shaped(live, w, d) && Feasible(live, d, D) && SmallestPair(live, w, x, y)
    requires forall k :: 0 <= k < |w| ==> 0 <= w[k]
    ensures |e| == |d| && E >= 1 && Feasible(live, e, E) && e[x] == E == e[y]
    ensures Cost(live, w, e) <= Cost(live, w, d)
    decreases D
  {
    ScaleIsPositive(live, d, D, x, y);
    if u :| 0 <= u < |d| && live[u] && d[u] == D {
      if v :| 0 <= v < |d| && live[v] && d[v] == D && v != u {
        e := BringDown(live, w, d, D, x, y, u, v);
        E := D;
      } else {
        var raised := RaiseLoneItem(live, w, d, D, u);
        LowerScale(live, raised, D);
        e, E := SiblingsAtBottom(live, w, raised, D - 1, x, y);
      }
    } else {
      LowerScale(live, d, D);
      e, E := SiblingsAtBottom(live, w, d, D - 1, x, y);
    }
  }

  /** With two items u, v on the bottom level, x and y can take their places. */
  lemma BringDown(live: seq<bool>, w: seq<int>, d: seq<nat>, D: nat, x: nat, y: nat, u: nat, v: nat)
    returns (e: seq<nat>)
    requires Shaped(live, w, d) && Feasible(live, d, D) && SmallestPair(live, w, x, y)
    requires u < |d| && v < |d| && u != v && live[u] && live[v] && d[u] == D == d[v]
    ensures |e| == |d| && Feasible(live, e, D) && e[x] == D == e[y] && Cost(live, w, e) <= Cost(live, w, d)
  {
    var p, q := if u == y then v else u, if u == y then u else v;
    e := d;
    if e[x] != D {
      e := ExchangeDepths(live, w, e, D, x, p);
    }
    if e[y] != D {
      q := if q == x then p else q;
      e := ExchangeDepths(live, w, e, D, y, q);
    }
  }

  // ---- the merge step ----

  /** x and y leave, z enters with their joint weight. */
  ghost function Merged(live: seq<bool>, x: nat, y: nat, z: nat): (m: seq<bool>)
    requires x < |live| && y < |live| && z < |live|
    ensures |m| == |live|
  {
    live[x := false][y := false][z := true]
  }

  ghost predicate MergeStep(live: seq<bool>, w: seq<int>, x: nat, y: nat, z: nat)
    requires |live| == |w|
  {
    x < |w| && y < |w| && z < |w| && x != y && x != z && y != z
    && live[x] && live[y] && !live[z] && w[z] == w[x] + w[y]
  }

  lemma CostMerged(live: seq<bool>, w: seq<int>, d: seq<nat>, x: nat, y: nat, z: nat)
    requires Shaped(live, w, d) && MergeStep(live, w, x, y, z) && d[x] == d[z] + 1 == d[y]
    ensures Cost(live, w, d) == Cost(Merged(live, x, y, z), w, d) + w[z]
  {
    var t := CostTerms(live, w, d);
    SumUpdate(t, x, 0);
    SumUpdate(t[x := 0], y, 0);
    SumUpdate(t[x := 0][y := 0], z, w[z] * d[z]);
    assert CostTerms(Merged(live, x, y, z), w, d) == t[x := 0][y := 0][z := w[z] * d[z]];
    assert w[x] * d[x] + w[y] * d[y] == w[z] * d[z] + w[z];
  }

  lemma KraftMerged(live: seq<bool>, w: seq<int>, d: seq<nat>, D: nat, x: nat, y: nat, z: nat)
    requires Shaped(live, w, d) && MergeStep(live, w, x, y, z) && d[x] == d[z] + 1 == d[y]
    requires Within(live, d, D)
    ensures Within(Merged(live, x, y, z), d, D) && Kraft(Merged(live, x, y, z), d, D) == Kraft(live, d, D)
  {
    var m, t := Merged(live, x, y, z), KraftTerms(live, d, D);
    assert Within(m, d, D);
    SumUpdate(t, x, 0);
    SumUpdate(t[x := 0], y, 0);
    SumUpdate(t[x := 0][y := 0], z, Pow2(D - d[z]));
    assert KraftTerms(m, d, D) == t[x := 0][y := 0][z := Pow2(D - d[z])];
    assert Pow2(D - d[z]) == 2 * Pow2(D - d[z] - 1);
  }

  lemma WithinSplit(live: seq<bool>, w: seq<int>, d: seq<nat>, D: nat, x: nat, y: nat, z: nat)
    requires Shaped(live, w, d) && MergeStep(live, w, x, y, z) && d[x] == d[z] + 1 == d[y]
    requires Within(Merged(live, x, y, z), d, D)
    ensures Within(live, d, D + 1)
  {
    var m := Merged(live, x, y, z);
    forall k | 0 <= k < |live| && live[k]
      ensures d[k] <= D + 1
    {
      assert m[z] && (k != x && k != y ==> m[k]);
    }
  }

  /** Merging the two lightest items: optimality of the merged problem carries over to the split one. */
  lemma MergeKeepsOptimality(live: seq<bool>, w: seq<int>, d: seq<nat>, x: nat, y: nat, z: nat)
    requires Shaped(live, w, d) && MergeStep(live, w, x, y, z) && d[x] == d[z] + 1 == d[y]
    requires SmallestPair(live, w, x, y) && forall k :: 0 <= k < |w| ==> 0 <= w[k]
    requires Optimal(Merged(live, x, y, z), w, d)
    ensures Optimal(live, w, d)
  {
    var m := Merged(live, x, y, z);
    var D: nat :| Feasible(m, d, D);
    WithinSplit(live, w, d, D, x, y, z);
    KraftScales(m, d, D);
    KraftMerged(live, w, d, D + 1, x, y, z);
    assert Feasible(live, d, D + 1);
    CostMerged(live, w, d, x, y, z);
    forall e: seq<nat>, E: nat | |e| == |d| && Feasible(live, e, E)
      ensures Cost(live, w, d) <= Cost(live, w, e)
    {
      NoBetterSplit(live, w, d, e, E, x, y, z);
    }
  }

  lemma NoBetterSplit(live: seq<bool>, w: seq<int>, d: seq<nat>, e: seq<nat>, E: nat, x: nat, y: nat, z: nat)
    requires Shaped(live, w, d) && MergeStep(live, w, x, y, z) && d[x] == d[z] + 1 == d[y]
    requires SmallestPair(live, w, x, y) && forall k :: 0 <= k < |w| ==> 0 <= w[k]
    requires Optimal(Merged(live, x, y, z), w, d) && |e| == |d| && Feasible(live, e, E)
    ensures Cost(live, w, d) <= Cost(live, w, e)
  {
    var f, F := SiblingsAtBottom(live, w, e, E, x, y);
    var g := f[z := F - 1];
    IgnoresDead(live, w, f, F, z, F - 1);
    KraftMerged(live, w, g, F, x, y, z);
    CostMerged(live, w, g, x, y, z);
    CostMerged(live, w, d, x, y, z);
    assert Feasible(Merged(live, x, y, z), g, F);
  }

  /** The depth of an item that is not live plays no part. */
  lemma IgnoresDead(live: seq<bool>, w: seq<int>, d: seq<nat>, D: nat, z: nat, v: nat)
    requires Shaped(live, w, d) && z < |d| && !live[z] && Within(live, d, D)
    ensures Cost(live, w, d[z := v]) == Cost(live, w, d)
    ensures Within(live, d[z := v], D) && Kraft(live, d[z := v], D) == Kraft(live, d, D)
  {
    assert CostTerms(live, w, d[z := v]) == CostTerms(live, w, d);
    assert KraftTerms(live, d[z := v], D) == KraftTerms(live, d, D);
  }
}
