/** What the arrays of CreateBinaryTree mean: a binary tree over nodes 0..2n-2, of which the first
    n are the words, the others the merges in order, and 2n-2 is the root. */
module HuffmanTree {
  import opened Powers
  import opened Sums
  import opened KraftOptimality

  /** left[a] and right[a] are the two nodes merged into node n + a. */
  datatype Tree = Tree(n: nat, count: seq<int>, parent: seq<int>, binary: seq<int>, left: seq<int>, right: seq<int>) {
    function Nodes(): int
    {
      2 * n - 1
    }

    function Root(): int
    {
      2 * n - 2
    }

    /** Merge a joins two distinct earlier nodes of which n + a is the parent. */
    ghost predicate MergeOk(a: int)
      requires 0 <= a < n - 1 && |left| == |right| == n - 1 && |count| == |parent| == |binary| == Nodes()
    {
      && 0 <= left[a] < n + a && 0 <= right[a] < n + a && left[a] != right[a]
      && parent[left[a]] == n + a == parent[right[a]]
      && binary[left[a]] == 0 && binary[right[a]] == 1
      && count[n + a] == count[left[a]] + count[right[a]]
    }

    ghost predicate Valid()
    {
      && n >= 2
      && |count| == |parent| == |binary| == Nodes()
      && |left| == |right| == n - 1
      && (forall a :: 0 <= a < n - 1 ==> 0 <= left[a] < n + a)
      && (forall a :: 0 <= a < n - 1 ==> 0 <= right[a] < n + a)
      && (forall a :: 0 <= a < n - 1 ==> MergeOk(a))
      && (forall k :: 0 <= k < Root() ==>
            k < parent[k] < Nodes() && n <= parent[k] && (k == left[parent[k] - n] || k == right[parent[k] - n]))
    }

    /** The nodes that wait to be merged after a merges. */
    ghost predicate LiveAt(a: int, k: int)
      requires Valid() && 0 <= k < Nodes()
    {
      k < n + a && (k == Root() || parent[k] >= n + a)
    }

    ghost function Live(a: int): (live: seq<bool>)
      requires Valid()
      ensures |live| == Nodes()
    {
      seq(Nodes(), k requires 0 <= k < Nodes() => LiveAt(a, k))
    }

    /** Every merge takes two lightest of the waiting nodes. */
    ghost predicate Greedy()
      requires Valid()
    {
      forall a :: 0 <= a < n - 1 ==> SmallestPair(Live(a), count, left[a], right[a])
    }

    /** Merges get heavier in the order they are made. */
    ghost predicate Ascending()
      requires Valid()
    {
      forall i, j :: n <= i <= j < Nodes() ==> count[i] <= count[j]
    }

    /** Number of steps from a node up to the root. */
    ghost function Depth(k: int): (d: nat)
      requires Valid() && 0 <= k < Nodes()
      decreases Nodes() - k
    {
      if k == Root() then 0 else 1 + Depth(parent[k])
    }

    ghost function Depths(): (d: seq<nat>)
      requires Valid()
      ensures |d| == Nodes()
    {
      seq(Nodes(), k requires 0 <= k < Nodes() => Depth(k))
    }

    /** The bits on the way from the root down to a node. */
    ghost function Code(k: int): (c: seq<int>)
      requires Valid() && 0 <= k < Nodes()
      ensures |c| == Depth(k)
      ensures forall i :: 0 <= i < |c| ==> c[i] == 0 || c[i] == 1
      decreases Nodes() - k
    {
      if k == Root() then [] else
        assert MergeOk(parent[k] - n);
        Code(parent[k]) + [binary[k]]
    }

    /** The nodes on that way, from the root to the node itself. */
    ghost function Path(k: int): (p: seq<int>)
      requires Valid() && 0 <= k < Nodes()
      ensures |p| == Depth(k) + 1 && p[0] == Root() && p[Depth(k)] == k
      ensures forall i :: 0 <= i < |p| ==> k <= p[i] < Nodes() && (i < Depth(k) ==> n <= p[i])
      decreases Nodes() - k
    {
      if k == Root() then [k] else Path(parent[k]) + [k]
    }

    /** The child an inner node has on the side of a bit. */
    function Child(k: int, bit: int): int
      requires n <= k < Nodes() && |left| == |right| == n - 1
    {
      if bit == 0 then left[k - n] else right[k - n]
    }

    /** Decoding: where the bits lead from a node; -1 once a leaf is left behind. */
    ghost function Walk(k: int, bits: seq<int>): int
      requires Valid() && 0 <= k < Nodes()
      decreases |bits|
    {
      if bits == [] then k
      else if k < n then -1
      else
        assert MergeOk(k - n);
        Walk(Child(k, bits[0]), bits[1..])
    }
  }

  // ---- codes ----

  /** Each step of the path follows the bit of the code. */
  lemma {:induction false} PathFollowsCode(t: Tree, k: int, i: nat)
    requires t.Valid() && 0 <= k < t.Nodes() && i < t.Depth(k)
    ensures t.Child(t.Path(k)[i], t.Code(k)[i]) == t.Path(k)[i + 1]
    decreases t.Nodes() - k
  {
    var q := t.parent[k];
    if i < t.Depth(q) {
      PathFollowsCode(t, q, i);
    } else {
      assert t.MergeOk(q - t.n);
      assert t.Path(k)[i] == q && t.Code(k)[i] == t.binary[k];
    }
  }

  lemma {:induction false} WalkPath(t: Tree, k: int, i: nat)
    requires t.Valid() && 0 <= k < t.Nodes() && i <= t.Depth(k)
    ensures t.Walk(t.Path(k)[i], t.Code(k)[i..]) == k
    decreases t.Depth(k) - i
  {
    if i < t.Depth(k) {
      PathFollowsCode(t, k, i);
      WalkPath(t, k, i + 1);
      assert t.Code(k)[i..][1..] == t.Code(k)[i + 1..];
    }
  }

  /** Decoding the code of a node from the root leads back to the node. */
  lemma DecodesToNode(t: Tree, k: int)
    requires t.Valid() && 0 <= k < t.Nodes()
    ensures t.Walk(t.Root(), t.Code(k)) == k
  {
    WalkPath(t, k, 0);
    assert t.Code(k)[0..] == t.Code(k);
  }

  lemma {:induction false} WalkAppends(t: Tree, k: int, a: seq<int>, b: seq<int>)
    requires t.Valid() && 0 <= k < t.Nodes()
    ensures t.Walk(k, a) == -1 ==> t.Walk(k, a + b) == -1
    ensures 0 <= t.Walk(k, a) < t.Nodes() ==> t.Walk(k, a + b) == t.Walk(t.Walk(k, a), b)
    ensures -1 <= t.Walk(k, a) < t.Nodes()
    decreases |a|
  {
    if a == [] {
      assert a + b == b;
    } else {
      assert (a + b)[1..] == a[1..] + b && (a + b)[0] == a[0];
      if k >= t.n {
        assert t.MergeOk(k - t.n);
        WalkAppends(t, t.Child(k, a[0]), a[1..], b);
      }
    }
  }

  /** No code is a prefix of another word's code. */
  lemma PrefixFree(t: Tree, v: int, w: int)
    requires t.Valid() && 0 <= v < t.n && 0 <= w < t.n && t.Code(v) <= t.Code(w)
    ensures v == w
  {
    var rest := t.Code(w)[|t.Code(v)|..];
    assert t.Code(w) == t.Code(v) + rest;
    DecodesToNode(t, v);
    DecodesToNode(t, w);
    WalkAppends(t, t.Root(), t.Code(v), rest);
  }

  // ---- merging, seen through the masks ----

  lemma LiveMerges(t: Tree, a: int)
    requires t.Valid() && 0 <= a < t.n - 1
    ensures MergeStep(t.Live(a), t.count, t.left[a], t.right[a], t.n + a)
    ensures t.Live(a + 1) == Merged(t.Live(a), t.left[a], t.right[a], t.n + a)
  {
    assert t.MergeOk(a);
    var m := Merged(t.Live(a), t.left[a], t.right[a], t.n + a);
    forall k | 0 <= k < t.Nodes()
      ensures t.Live(a + 1)[k] == m[k]
    {
    }
  }

  lemma DepthOfChildren(t: Tree, a: int)
    requires t.Valid() && 0 <= a < t.n - 1
    ensures t.Depths()[t.left[a]] == t.Depths()[t.n + a] + 1 == t.Depths()[t.right[a]]
  {
    assert t.MergeOk(a);
  }

  /** The depths of the waiting nodes meet the Kraft inequality with equality, at every stage. */
  lemma {:induction false} KraftEquality(t: Tree, a: int, D: nat)
    requires t.Valid() && 0 <= a <= t.n - 1
    requires Within(t.Live(a), t.Depths(), D)
    ensures Kraft(t.Live(a), t.Depths(), D) == Pow2(D)
    decreases t.n - a
  {
    if a == t.n - 1 {
      RootMeetsKraft(t, D);
    } else {
      LiveMerges(t, a);
      DepthOfChildren(t, a);
      StageSizes(t, a);
      hide *;
      KraftMerged(t.Live(a), t.count, t.Depths(), D, t.left[a], t.right[a], t.n + a);
      KraftEquality(t, a + 1, D);
    }
  }

  lemma RootMeetsKraft(t: Tree, D: nat)
    requires t.Valid()
    ensures Within(t.Live(t.n - 1), t.Depths(), D) && Kraft(t.Live(t.n - 1), t.Depths(), D) == Pow2(D)
  {
    var s := KraftTerms(t.Live(t.n - 1), t.Depths(), D);
    SumToOne(s, t.Root(), |s|);
    hide Pow2;
  }

  lemma StageSizes(t: Tree, a: int)
    requires t.Valid() && 0 <= a < t.n - 1
    ensures Shaped(t.Live(a), t.count, t.Depths()) && |t.left| == |t.right| == t.n - 1 && t.left[a] >= 0
    ensures t.right[a] >= 0
  {
  }

  /** The code lengths of the words satisfy the Kraft equality. */
  lemma CodesMeetKraft(t: Tree, D: nat)
    requires t.Valid() && forall k :: 0 <= k < t.n ==> t.Depth(k) <= D
    ensures Within(t.Live(0), t.Depths(), D) && Kraft(t.Live(0), t.Depths(), D) == Pow2(D)
  {
    KraftEquality(t, 0, D);
  }

  ghost predicate OptimalAfter(t: Tree, a: int)
    requires t.Valid()
  {
    Optimal(t.Live(a), t.count, t.Depths())
  }

  /** Everything the merge step asks of the masks before and after merge a. */
  ghost predicate Splits(live: seq<bool>, next: seq<bool>, w: seq<int>, d: seq<nat>, x: nat, y: nat, z: nat)
  {
    && Shaped(live, w, d) && MergeStep(live, w, x, y, z) && d[x] == d[z] + 1 == d[y]
    && SmallestPair(live, w, x, y) && next == Merged(live, x, y, z)
  }

  lemma MergeSplits(t: Tree, a: int)
    requires t.Valid() && t.Greedy() && 0 <= a < t.n - 1
    ensures |t.left| == |t.right| == t.n - 1 && 0 <= t.left[a] && 0 <= t.right[a] && |t.Live(a)| == |t.Live(a + 1)|
    ensures Splits(t.Live(a), t.Live(a + 1), t.count, t.Depths(), t.left[a], t.right[a], t.n + a)
  {
    LiveMerges(t, a);
    DepthOfChildren(t, a);
    assert SmallestPair(t.Live(a), t.count, t.left[a], t.right[a]);
    assert |t.count| == t.Nodes();
    hide Tree.Valid, Tree.Greedy, Tree.Live, Tree.Depths, Tree.Depth, MergeStep, SmallestPair, Merged;
  }

  lemma SplitOptimal(live: seq<bool>, next: seq<bool>, w: seq<int>, d: seq<nat>, x: nat, y: nat, z: nat)
    requires Splits(live, next, w, d, x, y, z) && |next| == |live| && forall k :: 0 <= k < |w| ==> 0 <= w[k]
    requires Optimal(next, w, d)
    ensures Shaped(live, w, d) && Optimal(live, w, d)
  {
    MergeKeepsOptimality(live, w, d, x, y, z);
  }

  /** A tree whose merges are all greedy, over weights that are not negative. */
  ghost predicate Huffman(t: Tree)
  {
    t.Valid() && t.Greedy() && forall k :: 0 <= k < |t.count| ==> 0 <= t.count[k]
  }

  lemma SplitKeepsOptimality(t: Tree, a: int)
    requires Huffman(t) && 0 <= a < t.n - 1 && OptimalAfter(t, a + 1)
    ensures OptimalAfter(t, a)
  {
    hide *;
    HuffmanFacts(t);
    AfterIs(t, a + 1);
    MergeSplits(t, a);
    SplitOptimal(t.Live(a), t.Live(a + 1), t.count, t.Depths(), t.left[a], t.right[a], t.n + a);
    AfterIs(t, a);
  }

  lemma HuffmanFacts(t: Tree)
    requires Huffman(t)
    ensures t.Valid() && t.Greedy() && forall k :: 0 <= k < |t.count| ==> 0 <= t.count[k]
  {
  }

  lemma AfterIs(t: Tree, a: int)
    requires t.Valid() && 0 <= a <= t.n - 1
    ensures OptimalAfter(t, a) <==> Optimal(t.Live(a), t.count, t.Depths())
  {
  }

  /** Stage by stage from the root down, the depths are optimal for the waiting nodes. */
  lemma {:induction false} OptimalAt(t: Tree, a: int)
    requires Huffman(t) && 0 <= a <= t.n - 1
    ensures OptimalAfter(t, a)
    decreases t.n - a
  {
    if a == t.n - 1 {
      OptimalRoot(t);
    } else {
      OptimalAt(t, a + 1);
      SplitKeepsOptimality(t, a);
    }
  }

  lemma OptimalRoot(t: Tree)
    requires t.Valid() && forall k :: 0 <= k < |t.count| ==> 0 <= t.count[k]
    ensures Optimal(t.Live(t.n - 1), t.count, t.Depths())
  {
    var live, d := t.Live(t.n - 1), t.Depths();
    assert Within(live, d, 0);
    SumToOne(KraftTerms(live, d, 0), t.Root(), |d|);
    assert Feasible(live, d, 0);
    SumToOne(CostTerms(live, t.count, d), t.Root(), |d|);
    forall e: seq<nat>, D: nat | |e| == |d| && Feasible(live, e, D)
      ensures Cost(live, t.count, d) <= Cost(live, t.count, e)
    {
      SumToOne(CostTerms(live, t.count, e), t.Root(), |e|);
    }
  }
}
