/** The loop of CreateBinaryTree as a function of the word counts, and what the tree it ends with is:
    optimal for sorted counts, and deep only for heavy ones. */
module HuffmanRun {
  import opened Sums
  import opened KraftOptimality
  import opened HuffmanTree
  import opened HuffmanDepth
  import opened HuffmanOptimality
  import opened HuffmanBuild

  const MAX_CODE_LENGTH := 40

  /** What the sentinel asks of the counts. */
  ghost predicate Countable(cn: seq<int>)
  {
    forall k :: 0 <= k < |cn| ==> cn[k] < SENTINEL
  }

  /** Falling counts, none negative. */
  ghost predicate Descending(cn: seq<int>)
  {
    && (forall k :: 0 <= k < |cn| ==> 0 <= cn[k])
    && (forall i, j :: 0 <= i <= j < |cn| ==> cn[i] >= cn[j])
  }

  /** The counts array before the first merge. */
  function InitialCounts(cn: seq<int>): (count: seq<int>)
    ensures |count| == 2 * |cn| + 1
  {
    seq(2 * |cn| + 1, k requires 0 <= k => if k < |cn| then cn[k] else if k < 2 * |cn| then SENTINEL else 0)
  }

  function Start(cn: seq<int>): (r: Run)
  {
    var zeros := seq(2 * |cn| + 1, _ => 0);
    Run(|cn|, 0, |cn| - 1, |cn|, InitialCounts(cn), zeros, zeros, [], [], [], [])
  }

  lemma StartIsRun(cn: seq<int>)
    requires |cn| >= 2 && Countable(cn)
    ensures Start(cn).Inv() && Start(cn).count[..|cn|] == cn
    ensures Descending(cn) ==> Ordered(Start(cn), 0)
  {
  }

  /** The first pick leaves both positions where a second pick can start. */
  lemma FirstPick(r: Run, x: int, mid1: int, mid2: int)
    requires r.Inv() && r.a < r.n - 1 && Picks(r.count, r.n, r.pos1, r.pos2, x, mid1, mid2)
    ensures -1 <= mid1 < r.n && r.n <= mid2 <= r.n + r.a
  {
  }

  lemma PairKeepsRun(r: Run, x: int, y: int, mid1: int, mid2: int, pos1: int, pos2: int)
    requires r.Inv() && r.a < r.n - 1
    requires Picks(r.count, r.n, r.pos1, r.pos2, x, mid1, mid2) && -1 <= mid1 < r.n && r.n <= mid2 <= r.n + r.a
    requires Picks(r.count, r.n, mid1, mid2, y, pos1, pos2)
    ensures PicksPair(r, x, y, pos1, pos2) && Pair(r, x, y, pos1, pos2) && After(r, x, y, pos1, pos2).Inv()
    ensures 0 <= x < r.n + r.a && 0 <= y < r.n + r.a
  {
    assert PicksPair(r, x, y, pos1, pos2);
    PicksWait(r, x, y, pos1, pos2);
    MergeKeepsLinks(r, x, y, pos1, pos2);
  }

  lemma RunSizes(r: Run)
    requires r.Inv()
    ensures r.Sized()
  {
  }

  lemma AfterCounts(r: Run, x: int, y: int, pos1: int, pos2: int)
    requires r.Sized() && r.a < r.n - 1 && 0 <= x < 2 * r.n && 0 <= y < 2 * r.n
    ensures After(r, x, y, pos1, pos2).count[..r.n] == r.count[..r.n]
  {
  }

  /** The two nodes the next turn merges, and the positions behind them. */
  ghost function NextPair(r: Run): (p: (int, int, int, int))
    requires r.Inv() && r.a < r.n - 1
    ensures PicksPair(r, p.0, p.1, p.2, p.3) && Pair(r, p.0, p.1, p.2, p.3)
    ensures 0 <= p.0 < r.n + r.a && 0 <= p.1 < r.n + r.a && After(r, p.0, p.1, p.2, p.3).Inv()
  {
    var (x, mid1, mid2) := Pick(r.count, r.n, r.pos1, r.pos2);
    FirstPick(r, x, mid1, mid2);
    var (y, pos1, pos2) := Pick(r.count, r.n, mid1, mid2);
    PairKeepsRun(r, x, y, mid1, mid2, pos1, pos2);
    (x, y, pos1, pos2)
  }

  /** One turn of the loop. */
  ghost function Turn(r: Run): (s: Run)
    requires r.Inv() && r.a < r.n - 1
    ensures s.Inv() && s.n == r.n && s.a == r.a + 1 && s.count[..r.n] == r.count[..r.n]
  {
    var p := NextPair(r);
    AfterCounts(r, p.0, p.1, p.2, p.3);
    After(r, p.0, p.1, p.2, p.3)
  }

  lemma TurnKeepsOrder(r: Run, lo: int)
    requires r.Inv() && r.a < r.n - 1 && Ordered(r, lo)
    ensures Ordered(Turn(r), r.count[NextPair(r).1])
  {
    var p := NextPair(r);
    PicksAreLightest(r, p.0, p.1, p.2, p.3);
    hide *;
    MergeKeepsOrder(r, p.0, p.1, p.2, p.3, lo);
    TurnIs(r);
  }

  lemma TurnIs(r: Run)
    requires r.Inv() && r.a < r.n - 1
    ensures Turn(r) == After(r, NextPair(r).0, NextPair(r).1, NextPair(r).2, NextPair(r).3)
  {
  }

  /** The run after a turns. */
  ghost function Built(cn: seq<int>, a: nat): (r: Run)
    requires |cn| >= 2 && Countable(cn) && a <= |cn| - 1
    ensures r.Inv() && r.n == |cn| && r.a == a && |r.count| == 2 * |cn| + 1 && r.count[..|cn|] == cn
  {
    if a == 0 then
      StartIsRun(cn);
      Start(cn)
    else
      Turn(Built(cn, a - 1))
  }

  /** The tree the loop builds. */
  ghost function TreeFor(cn: seq<int>): (t: Tree)
    requires |cn| >= 2 && Countable(cn)
    ensures t.Valid() && t.n == |cn| && |t.count| == 2 * |cn| - 1 && t.count[..|cn|] == cn
  {
    var r := Built(cn, |cn| - 1);
    FinishedIsTree(r);
    assert TreeOf(r).count[..r.n] == r.count[..r.n];
    TreeOf(r)
  }

  // ---- sorted counts ----

  ghost predicate InOrder(r: Run)
  {
    r.Sized() && exists lo :: Ordered(r, lo)
  }

  lemma {:induction false} BuiltInOrder(cn: seq<int>, a: nat)
    requires |cn| >= 2 && Countable(cn) && Descending(cn) && a <= |cn| - 1
    ensures InOrder(Built(cn, a))
    decreases a
  {
    hide Run.Inv, Ordered, Run.Sized, Turn, NextPair;
    if a == 0 {
      StartIsRun(cn);
      RunSizes(Start(cn));
    } else {
      BuiltInOrder(cn, a - 1);
      var r := Built(cn, a - 1);
      var lo :| Ordered(r, lo);
      TurnKeepsOrder(r, lo);
      RunSizes(Turn(r));
    }
  }

  /** Sorted counts, zero or not, give a tree built by greedy merges. */
  lemma SortedIsHuffman(cn: seq<int>)
    requires |cn| >= 2 && Countable(cn) && Descending(cn)
    ensures Huffman(TreeFor(cn)) && TreeFor(cn).Ascending()
  {
    hide *;
    TreeForIs(cn);
    BuiltInOrder(cn, |cn| - 1);
    FinishedInOrder(Built(cn, |cn| - 1));
    DescendingCounts(cn);
    NodesWeighAtLeast(TreeFor(cn), 0);
    HuffmanFromParts(TreeFor(cn));
  }

  lemma TreeForIs(cn: seq<int>)
    requires |cn| >= 2 && Countable(cn)
    ensures TreeFor(cn) == TreeOf(Built(cn, |cn| - 1))
  {
  }

  lemma FinishedInOrder(r: Run)
    requires r.Inv() && r.a == r.n - 1 && InOrder(r)
    ensures TreeOf(r).Valid() && TreeOf(r).Greedy() && TreeOf(r).Ascending()
  {
    hide Run.Inv, Ordered, Tree.Valid, Tree.Greedy, Tree.Ascending, TreeOf;
    var lo :| Ordered(r, lo);
    FinishedIsTree(r);
    FinishedIsGreedy(r, lo);
  }

  lemma DescendingCounts(cn: seq<int>)
    requires Descending(cn)
    ensures forall k :: 0 <= k < |cn| ==> 0 <= cn[k]
  {
  }

  /** If no word is lighter than least, no node is. */
  lemma NodesWeighAtLeast(t: Tree, least: nat)
    requires t.Valid() && forall k :: 0 <= k < t.n ==> least <= t.count[..t.n][k]
    ensures forall k :: 0 <= k < |t.count| ==> least <= t.count[k]
  {
    WeighAtLeastUpTo(t, least, t.n - 1);
  }

  lemma {:induction false} WeighAtLeastUpTo(t: Tree, least: nat, a: nat)
    requires t.Valid() && (forall k :: 0 <= k < t.n ==> least <= t.count[..t.n][k]) && a <= t.n - 1
    ensures forall k :: 0 <= k < t.n + a ==> least <= t.count[k]
  {
    if a == 0 {
      assert forall k :: 0 <= k < t.n ==> t.count[k] == t.count[..t.n][k];
    } else {
      WeighAtLeastUpTo(t, least, a - 1);
      assert t.MergeOk(a - 1);
    }
  }

  lemma HuffmanFromParts(t: Tree)
    requires t.Valid() && t.Greedy() && forall k :: 0 <= k < |t.count| ==> 0 <= t.count[k]
    ensures Huffman(t)
  {
  }

  /** The code lengths the loop arrives at for sorted counts are minimal over all binary trees,
      however large the counts are below the sentinel and whether or not some are zero. */
  lemma SortedIsMinimal(cn: seq<int>)
    requires |cn| >= 2 && Countable(cn) && Descending(cn)
    ensures Minimal(cn, TreeFor(cn).Depths()[..|cn|])
  {
    SortedIsHuffman(cn);
    LengthsAreMinimal(TreeFor(cn));
  }

  lemma OneTerm(t: seq<int>)
    requires |t| == 1
    ensures Sum(t) == t[0]
  {
    assert SumTo(t, 0) == 0;
  }

  lemma SingleCost(c: nat, d: nat)
    ensures Cost(AllOf(1), [c], [d]) == c * d
  {
    OneTerm(CostTerms(AllOf(1), [c], [d]));
  }

  /** With a single word the climb still takes one step, so its code is one bit too long, which is
      no loss exactly when the word never occurs. */
  lemma SingleWord(c: nat)
    ensures Minimal([c], [1]) <==> c == 0
  {
    var one: seq<nat> := [1];
    SingleCost(c, 1);
    forall s: Shape
      ensures Cost(AllOf(1), [c], s.Lengths(1)) == c * s.DepthOf(0)
    {
      assert s.Lengths(1) == [s.DepthOf(0)];
      SingleCost(c, s.DepthOf(0));
    }
    var s := Leaf(0);
    assert s.Over(1);
    hide Cost, AllOf;
    assert |[c]| == 1;
    assert Minimal([c], one) ==> Cost(AllOf(1), [c], one) <= Cost(AllOf(1), [c], s.Lengths(1));
  }

  // ---- which of two siblings gets bit 1 ----

  /** Of two merged nodes x was picked before y: two words from the end of the list on, two merges in the order
      they were made, and a word only before a merge that is heavier. */
  ghost predicate PickedFirst(count: seq<int>, n: nat, x: int, y: int)
    requires 0 <= x < |count| && 0 <= y < |count|
  {
    if x < n && y < n then x == y + 1
    else if x >= n && y >= n then y == x + 1
    else if x < n then count[x] < count[y]
    else count[x] <= count[y]
  }

  lemma PicksInOrder(count: seq<int>, n: nat, pos1: int, pos2: int)
    requires |count| == 2 * n + 1 && pos1 < n <= pos2 < 2 * n
    ensures var (x, mid1, mid2) := Pick(count, n, pos1, pos2);
      mid1 < n <= mid2 < 2 * n ==>
        var (y, _, _) := Pick(count, n, mid1, mid2);
        0 <= x < |count| && 0 <= y < |count| && PickedFirst(count, n, x, y)
  {
  }

  lemma TurnPicks(r: Run)
    requires r.Inv() && r.a < r.n - 1
    ensures var p := NextPair(r);
      && 0 <= p.0 < r.n + r.a && 0 <= p.1 < r.n + r.a && r.n + r.a <= |r.count| && PickedFirst(r.count, r.n, p.0, p.1)
  {
    var p := NextPair(r);
    hide *;
    NextPairIs(r);
    RunSpans(r);
    PicksInOrder(r.count, r.n, r.pos1, r.pos2);
  }

  lemma RunSpans(r: Run)
    requires r.Inv() && r.a < r.n - 1
    ensures var p := NextPair(r);
            0 <= p.0 < r.n + r.a && 0 <= p.1 < r.n + r.a && r.n + r.a < |r.count| == 2 * r.n + 1
  {
    var p := NextPair(r);
    hide Pick, Pair, After;
  }

  /** The merges so far have all taken their nodes in the order of the picks. */
  ghost predicate AllPicked(r: Run)
    requires r.Sized()
  {
    forall b :: 0 <= b < r.a ==>
      && 0 <= r.left[b] < r.n + r.a && 0 <= r.right[b] < r.n + r.a
      && PickedFirst(r.count, r.n, r.left[b], r.right[b])
  }

  lemma TurnKeepsPicks(r: Run)
    requires r.Inv() && r.a < r.n - 1 && AllPicked(r)
    ensures Turn(r).Sized() && AllPicked(Turn(r))
  {
    hide *;
    RunSizes(r);
    RunSizes(Turn(r));
    RunSpans(r);
    TurnPicks(r);
    TurnIs(r);
    var p := NextPair(r);
    PicksStay(r, p.0, p.1, p.2, p.3);
  }

  lemma PicksStay(r: Run, x: int, y: int, pos1: int, pos2: int)
    requires r.Sized() && AllPicked(r) && 0 <= x < r.n + r.a && 0 <= y < r.n + r.a && r.a < r.n - 1
    requires PickedFirst(r.count, r.n, x, y) && After(r, x, y, pos1, pos2).Sized()
    ensures AllPicked(After(r, x, y, pos1, pos2))
  {
    var s := After(r, x, y, pos1, pos2);
    assert forall k :: 0 <= k < r.n + r.a ==> s.count[k] == r.count[k];
    forall b | 0 <= b < s.a
      ensures 0 <= s.left[b] < s.n + s.a && 0 <= s.right[b] < s.n + s.a
      ensures PickedFirst(s.count, s.n, s.left[b], s.right[b])
    {
      assert if b < r.a then s.left[b] == r.left[b] && s.right[b] == r.right[b] else s.left[b] == x && s.right[b] == y;
      assert b < r.a ==> PickedFirst(r.count, r.n, r.left[b], r.right[b]);
    }
  }

  lemma {:induction false} BuiltPicked(cn: seq<int>, a: nat)
    requires |cn| >= 2 && Countable(cn) && a <= |cn| - 1
    ensures Built(cn, a).Sized() && AllPicked(Built(cn, a))
  {
    hide *;
    RunSizes(Built(cn, a));
    if a == 0 {
      StartPicked(cn);
    } else {
      BuiltPicked(cn, a - 1);
      BuiltTurns(cn, a);
      TurnKeepsPicks(Built(cn, a - 1));
    }
  }

  lemma StartPicked(cn: seq<int>)
    requires |cn| >= 2 && Countable(cn)
    ensures Built(cn, 0).Sized() && AllPicked(Built(cn, 0))
  {
    RunSizes(Built(cn, 0));
  }

  /** Bit 1 marks the second pick, ties included, whatever the counts. */
  lemma BitsByPick(cn: seq<int>, k: int)
    requires |cn| >= 2 && Countable(cn) && 0 <= k < TreeFor(cn).Root()
    ensures var t := TreeFor(cn);
      var s := Sibling(t, k);
      && 0 <= s < |t.count| && 0 <= k < |t.count|
      && (if t.binary[k] == 1 then PickedFirst(t.count, t.n, s, k) else PickedFirst(t.count, t.n, k, s))
  {
    hide *;
    SiblingBits(TreeFor(cn), k);
    BuiltPicked(cn, |cn| - 1);
    TreeForIs(cn);
    PickedInTree(Built(cn, |cn| - 1));
  }

  /** The bit tells the two children of a merge apart. */
  lemma SiblingBits(t: Tree, k: int)
    requires t.Valid() && 0 <= k < t.Root()
    ensures |t.parent| == |t.binary| == |t.count| == t.Nodes() && |t.left| == |t.right| == t.n - 1
    ensures 0 <= k < t.Nodes() && 0 <= t.parent[k] - t.n < t.n - 1
    ensures var a, s := t.parent[k] - t.n, Sibling(t, k);
      if t.binary[k] == 1 then k == t.right[a] && s == t.left[a] else k == t.left[a] && s == t.right[a]
  {
    var a := t.parent[k] - t.n;
    assert t.MergeOk(a);
  }

  lemma PickedInTree(r: Run)
    requires r.Inv() && r.a == r.n - 1 && AllPicked(r)
    ensures var t := TreeOf(r);
      && |t.left| == |t.right| == t.n - 1 && |t.count| == 2 * t.n - 1
      && forall b :: 0 <= b < t.n - 1 ==>
           0 <= t.left[b] < |t.count| && 0 <= t.right[b] < |t.count| && PickedFirst(t.count, t.n, t.left[b], t.right[b])
  {
    hide Run.Linked, Run.Blank;
  }

  /** Over falling counts the heavier of two siblings carries bit 1. */
  lemma HeavierGetsOne(cn: seq<int>, k: int)
    requires |cn| >= 2 && Countable(cn) && Descending(cn) && 0 <= k < TreeFor(cn).Root()
    ensures var t := TreeFor(cn);
      var s := Sibling(t, k);
      if t.binary[k] == 1 then t.count[s] <= t.count[k] else t.count[k] <= t.count[s]
  {
    hide *;
    BitsByPick(cn, k);
    SortedIsHuffman(cn);
    SiblingBits(TreeFor(cn), k);
    PickedIsLighter(cn, TreeFor(cn), if TreeFor(cn).binary[k] == 1 then Sibling(TreeFor(cn), k) else k,
                    if TreeFor(cn).binary[k] == 1 then k else Sibling(TreeFor(cn), k));
  }

  lemma PickedIsLighter(cn: seq<int>, t: Tree, x: int, y: int)
    requires Descending(cn) && t.Valid() && t.Ascending() && t.n == |cn| && |t.count| == 2 * |cn| - 1
    requires t.count[..|cn|] == cn && 0 <= x < |t.count| && 0 <= y < |t.count| && PickedFirst(t.count, t.n, x, y)
    ensures t.count[x] <= t.count[y]
  {
    assert forall i :: 0 <= i < t.n ==> t.count[i] == cn[i];
    hide Tree.Valid;
  }

  // ---- codes that fit their arrays ----

  /** No climb leaves the arrays of 40. */
  ghost predicate Fits(cn: seq<int>)
    requires Countable(cn)
  {
    |cn| >= 2 ==> forall a :: 0 <= a < |cn| ==> TreeFor(cn).Depth(a) < MAX_CODE_LENGTH
  }

  /** Positive sorted counts that total less than F(42) fit. */
  lemma SmallTotalsFit(cn: seq<int>)
    requires Descending(cn) && (forall k :: 0 <= k < |cn| ==> 1 <= cn[k]) && Sum(cn) < TOTAL_LIMIT
    ensures Countable(cn) && Fits(cn)
  {
    SumToNonNegative(cn, |cn|);
    assert Countable(cn);
    if |cn| >= 2 {
      GreedyFor(cn);
      hide GreedyTree, TreeFor, Countable, Descending;
      var t := TreeFor(cn);
      forall a | 0 <= a < t.n
        ensures t.Valid() && t.Depth(a) < MAX_CODE_LENGTH
      {
        hide Tree.Valid, Tree.Depth;
        CodesFit(t, a);
      }
    }
  }

  /** With every count at least 1, the tree of sorted counts is one to which the bound on depths applies. */
  lemma GreedyFor(cn: seq<int>)
    requires |cn| >= 2 && Descending(cn) && Countable(cn) && forall k :: 0 <= k < |cn| ==> 1 <= cn[k]
    ensures GreedyTree(TreeFor(cn)) && TreeFor(cn).n == |cn| && SumTo(TreeFor(cn).count, |cn|) == Sum(cn)
  {
    var t := TreeFor(cn);
    SortedIsHuffman(cn);
    SumToSame(cn, t.count, t.n);
    NodesWeighAtLeast(t, 1);
    hide Tree.Valid, Tree.Greedy, Tree.Ascending, Tree.Depth;
  }

  // ---- no sum exceeds the total ----

  lemma {:induction false} LighterThanRoot(t: Tree, k: int)
    requires t.Valid() && 0 <= k < t.Nodes() && forall j :: 0 <= j < |t.count| ==> 0 <= t.count[j]
    ensures 0 <= t.Root() < |t.count| && t.count[k] <= t.count[t.Root()]
    decreases t.Nodes() - k
  {
    if k < t.Root() {
      LighterThanRoot(t, t.parent[k]);
      assert t.count[Sibling(t, k)] >= 0;
    }
  }

  /** For counts that are not negative no node outweighs the total, so sums of 64 bits never wrap when
      the total fits them. */
  lemma NodesWithinTotal(cn: seq<int>, k: int)
    requires |cn| >= 2 && Countable(cn) && (forall j :: 0 <= j < |cn| ==> 0 <= cn[j]) && 0 <= k < 2 * |cn| - 1
    ensures k < |TreeFor(cn).count| && 0 <= TreeFor(cn).count[k] <= Sum(cn)
  {
    hide TreeFor, Built, Tree.Valid;
    var t := TreeFor(cn);
    TotalIsRoot(t, cn);
    NodesWeighAtLeast(t, 0);
    SizeOf(t);
    LighterThanRoot(t, k);
  }

  lemma SizeOf(t: Tree)
    requires t.Valid()
    ensures |t.count| == t.Nodes() == 2 * t.n - 1
  {
  }

  // ---- Fibonacci counts are the worst ----

  /** F(n - 1), ..., F(3), F(2), F(1), and another 1. */
  function FibCounts(n: nat): (cn: seq<int>)
    ensures |cn| == n
  {
    seq(n, k requires 0 <= k < n => if k == n - 1 then 1 else Fib(n - 1 - k))
  }

  /** Entry k is F(j) for the larger of 1 and n - 1 - k. */
  function FibIndex(n: nat, k: nat): nat
    requires k < n
  {
    if k == n - 1 then 1 else n - 1 - k
  }

  lemma FibCountsDescend(n: nat)
    requires n >= 2
    ensures Descending(FibCounts(n)) && forall k :: 0 <= k < n ==> 1 <= FibCounts(n)[k] <= Fib(n - 1)
  {
    var cn := FibCounts(n);
    assert Fib(1) == 1;
    hide Fib;
    forall i, j | 0 <= i <= j < n
      ensures cn[i] >= cn[j] && 1 <= cn[i] <= Fib(n - 1)
    {
      FibGrows(FibIndex(n, j), FibIndex(n, i));
      FibGrows(FibIndex(n, i), n - 1);
    }
  }

  /** Every merge joins the last merge with the next word. */
  ghost predicate Comb(r: Run)
  {
    && r.Sized() && r.a >= 1 && r.pos1 == r.n - 2 - r.a && r.pos2 == r.n + r.a - 1
    && r.count[r.n + r.a - 1] == Fib(r.a + 2)
    && r.parent[r.n - 1] == r.n && forall b :: r.n <= b < r.n + r.a - 1 ==> r.parent[b] == b + 1
  }

  lemma CombStarts(n: nat)
    requires n >= 2 && Countable(FibCounts(n))
    ensures Comb(Built(FibCounts(n), 1))
  {
    var r := Start(FibCounts(n));
    StartIsRun(FibCounts(n));
    assert Built(FibCounts(n), 0) == r;
    assert NextPair(r) == (n - 1, n - 2, n - 3, n);
    assert Fib(1) == 1 && Fib(2) == 1 && Fib(3) == 2;
  }

  lemma CombPair(r: Run)
    requires r.Inv() && Comb(r) && r.a < r.n - 1 && r.count[..r.n] == FibCounts(r.n)
    ensures NextPair(r) == (r.n - 2 - r.a, r.n + r.a - 1, r.n - 3 - r.a, r.n + r.a)
    ensures r.count[r.n - 2 - r.a] == Fib(r.a + 1)
  {
    hide *;
    RunSizes(r);
    CombCounts(r);
    NextPairIs(r);
    CombPicks(r.count, r.n, r.a, r.pos1, r.pos2);
  }

  lemma CombCounts(r: Run)
    requires r.Sized() && Comb(r) && r.a < r.n - 1 && r.count[..r.n] == FibCounts(r.n)
    ensures 1 <= r.a < r.n - 1 && |r.count| == 2 * r.n + 1 && r.pos1 == r.n - 2 - r.a && r.pos2 == r.n + r.a - 1
    ensures r.count[r.pos1] == Fib(r.a + 1) < Fib(r.a + 2) == r.count[r.pos2]
    ensures r.pos1 > 0 ==> r.count[r.pos1 - 1] == Fib(r.a + 2)
  {
    var k := r.pos1;
    assert r.count[k] == FibCounts(r.n)[k];
    assert k > 0 ==> r.count[k - 1] == FibCounts(r.n)[k - 1];
    FibUnfolds(r.a);
    FibGrows(1, r.a);
    hide Fib;
  }

  lemma NextPairIs(r: Run)
    requires r.Inv() && r.a < r.n - 1
    ensures |r.count| == 2 * r.n + 1 && r.pos1 < r.n <= r.pos2 < 2 * r.n
    ensures var (x, mid1, mid2) := Pick(r.count, r.n, r.pos1, r.pos2);
            && mid1 < r.n <= mid2 < 2 * r.n
            && var (y, pos1, pos2) := Pick(r.count, r.n, mid1, mid2); NextPair(r) == (x, y, pos1, pos2)
  {
    var p := NextPair(r);
    hide Pair, Pick, After, Run.Inv;
  }

  lemma CombPicks(count: seq<int>, n: nat, a: nat, pos1: int, pos2: int)
    requires |count| == 2 * n + 1 && 1 <= a < n - 1 && pos1 == n - 2 - a && pos2 == n + a - 1
    requires count[pos1] < count[pos2] && (pos1 > 0 ==> count[pos1 - 1] == count[pos2])
    ensures Pick(count, n, pos1, pos2) == (pos1, pos1 - 1, pos2)
    ensures Pick(count, n, pos1 - 1, pos2) == (pos2, pos1 - 1, pos2 + 1)
  {
  }

  lemma CombTurns(r: Run)
    requires r.Inv() && Comb(r) && r.a < r.n - 1 && r.count[..r.n] == FibCounts(r.n)
    ensures Comb(Turn(r))
  {
    hide Run.Inv, NextPair, Turn, Fib;
    CombPair(r);
    TurnIs(r);
    FibUnfolds(r.a + 1);
    RunSizes(Turn(r));
  }

  lemma {:induction false} CombBuilt(n: nat, a: nat)
    requires n >= 2 && Countable(FibCounts(n)) && 1 <= a <= n - 1
    ensures Comb(Built(FibCounts(n), a))
  {
    hide *;
    if a == 1 {
      CombStarts(n);
    } else {
      CombBuilt(n, a - 1);
      BuiltTurns(FibCounts(n), a);
      CombTurns(Built(FibCounts(n), a - 1));
    }
  }

  lemma BuiltTurns(cn: seq<int>, a: nat)
    requires |cn| >= 2 && Countable(cn) && 1 <= a <= |cn| - 1
    ensures Built(cn, a) == Turn(Built(cn, a - 1))
  {
  }

  lemma {:induction false} CombDepth(t: Tree, k: int)
    requires t.Valid() && t.n <= k < t.Nodes() && forall b :: t.n <= b < t.Root() ==> t.parent[b] == b + 1
    ensures t.Depth(k) == t.Root() - k
    decreases t.Nodes() - k
  {
    if k < t.Root() {
      CombDepth(t, k + 1);
    }
  }

  lemma CombIsDeep(r: Run, t: Tree)
    requires r.Inv() && r.a == r.n - 1 && Comb(r) && t == TreeOf(r) && t.Valid()
    ensures t.Depth(t.n - 1) == t.n - 1 && t.count[t.Root()] == Fib(t.n + 1)
  {
    CombDepth(t, t.n);
    hide Run.Inv, Fib;
  }

  lemma FibCountsCountable(n: nat)
    requires n >= 2 && Fib(n - 1) < SENTINEL
    ensures Countable(FibCounts(n))
  {
    FibCountsDescend(n);
    hide Fib, FibCounts;
  }

  /** Fibonacci counts total a Fibonacci number and give their last word a code as long as it can be:
      the bound of LongCodesNeedWeight is attained at every length. */
  lemma FibCountsAreDeep(n: nat)
    requires n >= 2 && Fib(n - 1) < SENTINEL
    ensures Countable(FibCounts(n)) && Sum(FibCounts(n)) == Fib(n + 1)
    ensures TreeFor(FibCounts(n)).Depth(n - 1) == n - 1
  {
    hide *;
    FibCountsCountable(n);
    var cn := FibCounts(n);
    CombBuilt(n, n - 1);
    TreeForIs(cn);
    CombIsDeep(Built(cn, n - 1), TreeFor(cn));
    TotalIsRoot(TreeFor(cn), cn);
  }

  lemma TotalIsRoot(t: Tree, cn: seq<int>)
    requires t.Valid() && t.count[..t.n] == cn
    ensures 0 <= t.Root() < |t.count| && Sum(cn) == t.count[t.Root()]
  {
    WordsWeigh(t);
    SumToSame(cn, t.count, t.n);
    hide Tree.MergeOk;
  }

  lemma TooDeep(cn: seq<int>, a: nat)
    requires |cn| >= 2 && Countable(cn) && a < |cn| && TreeFor(cn).Depth(a) >= MAX_CODE_LENGTH
    ensures !Fits(cn)
  {
    hide TreeFor, Countable, Tree.Valid, Tree.Depth;
  }

  /** The limit of SmallTotalsFit is exact: at F(42) itself some counts no longer fit. */
  lemma LimitIsSharp()
    ensures exists cn: seq<int> ::
              && Countable(cn) && Descending(cn) && (forall k :: 0 <= k < |cn| ==> 1 <= cn[k])
              && Sum(cn) == TOTAL_LIMIT && !Fits(cn)
  {
    hide *;
    TotalLimitIsFib();
    FibGrows(40, 42);
    LimitBelowSentinel();
    FibCountsAreDeep(41);
    FibCountsDescend(41);
    TooDeep(FibCounts(41), 40);
  }

  lemma LimitBelowSentinel()
    ensures TOTAL_LIMIT < SENTINEL && MAX_CODE_LENGTH == 40
  {
  }
}
