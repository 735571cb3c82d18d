/** The code lengths of a greedy tree against those of every other binary tree on the same words. */
module HuffmanOptimality {
  import opened Powers
  import opened Sums
  import opened KraftOptimality
  import opened HuffmanTree

  /** Any binary tree with words at its leaves. */
  datatype Shape = Leaf(word: nat) | Node(left: Shape, right: Shape) {
    ghost function Words(): (w: set<nat>)
      ensures w != {}
    {
      match this
      case Leaf(k) => {k}
      case Node(l, r) => assert l.Words() <= l.Words() + r.Words(); l.Words() + r.Words()
    }

    /** Every word sits at one leaf only. */
    ghost predicate Proper()
    {
      Node? ==> left.Proper() && right.Proper() && left.Words() !! right.Words()
    }

    /** The words of the tree are 0 to n - 1, each at one leaf. */
    ghost predicate Over(n: nat)
    {
      Proper() && forall k: nat :: k in Words() <==> k < n
    }

    ghost function Height(): nat
    {
      match this
      case Leaf(_) => 0
      case Node(l, r) => 1 + if l.Height() < r.Height() then r.Height() else l.Height()
    }

    ghost function DepthOf(k: nat): (d: nat)
      ensures d <= Height()
    {
      match this
      case Leaf(_) => 0
      case Node(l, r) => 1 + if k in l.Words() then l.DepthOf(k) else r.DepthOf(k)
    }

    ghost function Lengths(n: nat): (d: seq<nat>)
      ensures |d| == n
    {
      seq(n, k requires 0 <= k < n => DepthOf(k))
    }

    ghost function Mask(n: nat): (m: seq<bool>)
      ensures |m| == n
    {
      seq(n, k requires 0 <= k < n => k in Words())
    }
  }

  /** The leaf depths of any binary tree meet the Kraft inequality with equality. */
  lemma {:induction false} ShapeMeetsKraft(s: Shape, n: nat, D: nat)
    requires s.Proper() && (forall k: nat :: k in s.Words() ==> k < n) && s.Height() <= D
    ensures Within(s.Mask(n), s.Lengths(n), D) && Kraft(s.Mask(n), s.Lengths(n), D) == Pow2(D)
    decreases s
  {
    match s
    case Leaf(w) =>
      assert w in s.Words();
      LeafMeetsKraft(w, n, D);
    case Node(l, r) =>
      NodeFacts(l, r, n, D);
      hide Shape.Proper, Shape.Words, Shape.Mask, Shape.Lengths, Shape.Height, KraftTerms, Within, Pow2;
      ShapeMeetsKraft(l, n, D - 1);
      ShapeMeetsKraft(r, n, D - 1);
      NodeTerms(l, r, n, D);
      SumPlus(KraftTerms(l.Mask(n), l.Lengths(n), D - 1), KraftTerms(r.Mask(n), r.Lengths(n), D - 1),
              KraftTerms(s.Mask(n), s.Lengths(n), D), n);
  }

  /** A word keeps its share when the tree becomes a subtree one level down. */
  lemma NodeTerms(l: Shape, r: Shape, n: nat, D: nat)
    requires Node(l, r).Proper() && D >= 1
    requires Within(l.Mask(n), l.Lengths(n), D - 1) && Within(r.Mask(n), r.Lengths(n), D - 1)
    ensures Within(Node(l, r).Mask(n), Node(l, r).Lengths(n), D)
    ensures forall k :: 0 <= k < n ==>
              KraftTerms(Node(l, r).Mask(n), Node(l, r).Lengths(n), D)[k]
              == KraftTerms(l.Mask(n), l.Lengths(n), D - 1)[k] + KraftTerms(r.Mask(n), r.Lengths(n), D - 1)[k]
  {
    var s := Node(l, r);
    forall k: nat | k < n
      ensures Beside(s.Mask(n)[k], s.Lengths(n)[k], l.Mask(n)[k], l.Lengths(n)[k], r.Mask(n)[k], r.Lengths(n)[k])
    {
      NodeWord(l, r, k);
      hide Shape.Words, Shape.DepthOf, Shape.Proper;
    }
    hide *;
    TermsBeside(s.Mask(n), s.Lengths(n), l.Mask(n), l.Lengths(n), r.Mask(n), r.Lengths(n), D, n);
  }

  /** An item of a node is an item of exactly one side, one level deeper. */
  ghost predicate Beside(live: bool, e: nat, a: bool, d: nat, b: bool, f: nat)
  {
    live == (a || b) && !(a && b) && (a ==> e == 1 + d) && (b ==> e == 1 + f)
  }

  lemma TermsBeside(live: seq<bool>, e: seq<nat>, a: seq<bool>, d: seq<nat>, b: seq<bool>, f: seq<nat>, D: nat, n: nat)
    requires |live| == |e| == |a| == |d| == |b| == |f| == n && D >= 1 && Within(a, d, D - 1) && Within(b, f, D - 1)
    requires forall k :: 0 <= k < n ==> Beside(live[k], e[k], a[k], d[k], b[k], f[k])
    ensures Within(live, e, D)
    ensures forall k :: 0 <= k < n ==>
              KraftTerms(live, e, D)[k] == KraftTerms(a, d, D - 1)[k] + KraftTerms(b, f, D - 1)[k]
  {
    hide Pow2;
    forall k | 0 <= k < n && live[k]
      ensures e[k] <= D
    {
      assert Beside(live[k], e[k], a[k], d[k], b[k], f[k]);
    }
    forall k | 0 <= k < n
      ensures KraftTerms(live, e, D)[k] == KraftTerms(a, d, D - 1)[k] + KraftTerms(b, f, D - 1)[k]
    {
      assert Beside(live[k], e[k], a[k], d[k], b[k], f[k]);
    }
  }

  lemma NodeWord(l: Shape, r: Shape, k: nat)
    requires Node(l, r).Proper()
    ensures k in Node(l, r).Words() <==> k in l.Words() || k in r.Words()
    ensures k in l.Words() ==> Node(l, r).DepthOf(k) == 1 + l.DepthOf(k) && k !in r.Words()
    ensures k in r.Words() ==> Node(l, r).DepthOf(k) == 1 + r.DepthOf(k) && k !in l.Words()
  {
  }

  lemma LeafMeetsKraft(w: nat, n: nat, D: nat)
    requires w < n
    ensures Within(Leaf(w).Mask(n), Leaf(w).Lengths(n), D) && Kraft(Leaf(w).Mask(n), Leaf(w).Lengths(n), D) == Pow2(D)
  {
    hide Pow2;
    var s := Leaf(w);
    assert s.Words() == {w} && s.DepthOf(w) == 0;
    assert forall k :: 0 <= k < n ==> s.Mask(n)[k] == (k == w);
    SumToOne(KraftTerms(s.Mask(n), s.Lengths(n), D), w, n);
  }

  lemma NodeFacts(l: Shape, r: Shape, n: nat, D: nat)
    requires Node(l, r).Proper() && (forall k: nat :: k in Node(l, r).Words() ==> k < n) && Node(l, r).Height() <= D
    ensures l.Proper() && r.Proper() && D >= 1 && l.Height() <= D - 1 && r.Height() <= D - 1
    ensures (forall k: nat :: k in l.Words() ==> k < n) && (forall k: nat :: k in r.Words() ==> k < n)
    ensures Pow2(D) == Pow2(D - 1) + Pow2(D - 1)
  {
    assert Node(l, r).Words() == l.Words() + r.Words();
  }

  ghost function AllOf(n: nat): (m: seq<bool>)
    ensures |m| == n
  {
    seq(n, k => true)
  }

  /** Lengths for the words, seen as depths for all nodes of which only the words are waiting. */
  lemma WordsOnly(t: Tree, e: seq<nat>, d: seq<nat>, D: nat)
    requires t.Valid() && |e| == t.n && |d| == t.Nodes() && e == d[..t.n]
    ensures Cost(AllOf(t.n), t.count[..t.n], e) == Cost(t.Live(0), t.count, d)
    ensures Within(AllOf(t.n), e, D) <==> Within(t.Live(0), d, D)
    ensures Within(AllOf(t.n), e, D) ==> Kraft(AllOf(t.n), e, D) == Kraft(t.Live(0), d, D)
  {
    WordsLive(t);
    hide Tree.Valid, Tree.Live, AllOf;
    PrefixOnly(AllOf(t.n), t.Live(0), t.count[..t.n], t.count, e, d, D, t.n);
  }

  lemma WordsLive(t: Tree)
    requires t.Valid()
    ensures t.n <= t.Nodes() == |t.count| == |t.Live(0)| && |AllOf(t.n)| == t.n
    ensures forall k :: 0 <= k < t.Nodes() ==> (t.Live(0)[k] <==> k < t.n)
    ensures forall k :: 0 <= k < t.n ==> AllOf(t.n)[k]
  {
  }

  /** Only the first n items are waiting: the others add nothing. */
  lemma PrefixOnly(all: seq<bool>, live: seq<bool>, w: seq<int>, count: seq<int>, e: seq<nat>, d: seq<nat>, D: nat,
                   n: nat)
    requires |all| == |e| == n <= |live| == |d| == |count| && w == count[..n] && e == d[..n]
    requires (forall k :: 0 <= k < n ==> all[k]) && forall k :: 0 <= k < |live| ==> (live[k] <==> k < n)
    ensures Cost(all, w, e) == Cost(live, count, d)
    ensures Within(all, e, D) <==> Within(live, d, D)
    ensures Within(all, e, D) ==> Kraft(all, e, D) == Kraft(live, d, D)
  {
    ZeroTail(CostTerms(live, count, d), n, |live|);
    SumToSame(CostTerms(all, w, e), CostTerms(live, count, d), n);
    assert Within(live, d, D) ==> forall k :: 0 <= k < n ==> live[k] && e[k] == d[k];
    if Within(all, e, D) {
      ZeroTail(KraftTerms(live, d, D), n, |live|);
      SumToSame(KraftTerms(all, e, D), KraftTerms(live, d, D), n);
    }
  }

  lemma HuffmanFacts(t: Tree)
    requires Huffman(t)
    ensures t.Valid() && t.n >= 2 && t.Nodes() == 2 * t.n - 1 == |t.count|
  {
  }

  lemma OptimalBeats(live: seq<bool>, w: seq<int>, d: seq<nat>, e: seq<nat>, D: nat)
    requires Shaped(live, w, d) && Optimal(live, w, d) && |e| == |d| && Feasible(live, e, D)
    ensures Cost(live, w, d) <= Cost(live, w, e)
  {
  }

  /** The code lengths of a greedy tree cost no more than any lengths that satisfy the Kraft inequality. */
  lemma GreedyBeatsLengths(t: Tree, e: seq<nat>, D: nat)
    requires Huffman(t) && |e| == t.n && Feasible(AllOf(t.n), e, D)
    ensures Cost(AllOf(t.n), t.count[..t.n], t.Depths()[..t.n]) <= Cost(AllOf(t.n), t.count[..t.n], e)
  {
    hide *;
    HuffmanFacts(t);
    var padded := e + seq(t.n - 1, k => 0);
    assert padded[..t.n] == e;
    PaddedFeasible(t, e, padded, D);
    WordsOnly(t, t.Depths()[..t.n], t.Depths(), D);
    OptimalAt(t, 0);
    StageZero(t);
    OptimalBeats(t.Live(0), t.count, t.Depths(), padded, D);
  }

  lemma StageZero(t: Tree)
    requires t.Valid() && OptimalAfter(t, 0)
    ensures Shaped(t.Live(0), t.count, t.Depths()) && Optimal(t.Live(0), t.count, t.Depths())
  {
    assert |t.count| == t.Nodes();
    hide *;
  }

  /** Feasible lengths for the words are feasible depths for the waiting nodes, at the same cost. */
  lemma PaddedFeasible(t: Tree, e: seq<nat>, d: seq<nat>, D: nat)
    requires t.Valid() && |e| == t.n && |d| == t.Nodes() && e == d[..t.n] && Feasible(AllOf(t.n), e, D)
    ensures Feasible(t.Live(0), d, D) && Cost(AllOf(t.n), t.count[..t.n], e) == Cost(t.Live(0), t.count, d)
  {
    WordsOnly(t, e, d, D);
  }

  /** The code lengths of a greedy tree cost no more than the leaf depths of any binary tree over the
      same words. */
  lemma GreedyBeatsShapes(t: Tree, s: Shape)
    requires Huffman(t) && s.Over(t.n)
    ensures Cost(AllOf(t.n), t.count[..t.n], t.Depths()[..t.n]) <= Cost(AllOf(t.n), t.count[..t.n], s.Lengths(t.n))
  {
    ShapeMeetsKraft(s, t.n, s.Height());
    assert s.Mask(t.n) == AllOf(t.n);
    GreedyBeatsLengths(t, s.Lengths(t.n), s.Height());
  }

  /** Codes of minimal total length over all binary trees on the words. */
  ghost predicate Minimal(cn: seq<int>, codelen: seq<nat>)
  {
    && |cn| == |codelen|
    && forall s: Shape :: s.Over(|cn|) ==>
         Cost(AllOf(|cn|), cn, codelen) <= Cost(AllOf(|cn|), cn, s.Lengths(|cn|))
  }

  /** The code lengths of a greedy tree are minimal. */
  lemma LengthsAreMinimal(t: Tree)
    requires Huffman(t)
    ensures t.Valid() && Minimal(t.count[..t.n], t.Depths()[..t.n])
  {
    HuffmanFacts(t);
    var cn, codelen := t.count[..t.n], t.Depths()[..t.n];
    hide Huffman, Tree.Valid, Tree.Depths, Cost, AllOf, Shape.Over, Shape.Lengths;
    forall s: Shape | s.Over(t.n)
      ensures Cost(AllOf(t.n), cn, codelen) <= Cost(AllOf(t.n), cn, s.Lengths(t.n))
    {
      GreedyBeatsShapes(t, s);
    }
  }
}
