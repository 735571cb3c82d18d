/** How long a code can get: a word d levels below the root forces the total count to be at least
    the Fibonacci number F(d + 2). */
module HuffmanDepth {
  import opened Sums
  import opened KraftOptimality
  import opened HuffmanTree

  /** F(1) = F(2) = 1. */
  function Fib(k: nat): (f: nat)
    ensures k >= 1 ==> f >= 1
  {
    if k == 0 then 0 else if k == 1 then 1 else Fib(k - 1) + Fib(k - 2)
  }

  lemma {:induction false} FibGrows(i: nat, j: nat)
    requires i <= j
    ensures Fib(i) <= Fib(j)
    decreases j - i
  {
    if i < j {
      FibGrows(i, j - 1);
      assert j >= 2 ==> Fib(j) == Fib(j - 1) + Fib(j - 2);
    }
  }

  function FibFrom(i: nat, a: nat, b: nat): nat
  {
    if i == 0 then a else FibFrom(i - 1, b, a + b)
  }

  lemma {:induction false} FibFromFib(i: nat, k: nat)
    ensures FibFrom(i, Fib(k), Fib(k + 1)) == Fib(k + i)
    decreases i
  {
    if i > 0 {
      assert Fib(k + 2) == Fib(k) + Fib(k + 1);
      FibFromFib(i - 1, k + 1);
    }
  }

  /** F(42), the least total that can force a code of 40 bits. */
  const TOTAL_LIMIT := 267_914_296

  lemma TotalLimitIsFib()
    ensures TOTAL_LIMIT == Fib(42)
  {
    hide FibFrom, Fib;
    FibFromFib(42, 0);
    FibStarts();
    TenSteps(32, 0, 1);
    TenSteps(22, 55, 89);
    TenSteps(12, 6765, 10946);
    TenSteps(2, 832040, 1346269);
    TwoSteps(102334155, 165580141);
  }

  lemma FibStarts()
    ensures Fib(0) == 0 && Fib(1) == 1
  {
  }

  lemma FiveSteps(i: nat, a: nat, b: nat)
    ensures FibFrom(i + 5, a, b) == FibFrom(i, 3 * a + 5 * b, 5 * a + 8 * b)
  {
    assert FibFrom(i + 5, a, b) == FibFrom(i + 3, a + b, a + 2 * b);
    assert FibFrom(i + 3, a + b, a + 2 * b) == FibFrom(i + 1, 2 * a + 3 * b, 3 * a + 5 * b);
  }

  lemma TenSteps(i: nat, a: nat, b: nat)
    ensures FibFrom(i + 10, a, b) == FibFrom(i, 34 * a + 55 * b, 55 * a + 89 * b)
  {
    hide FibFrom;
    FiveSteps(i + 5, a, b);
    FiveSteps(i, 3 * a + 5 * b, 5 * a + 8 * b);
  }

  lemma TwoSteps(a: nat, b: nat)
    ensures FibFrom(2, a, b) == a + b
  {
    assert FibFrom(2, a, b) == FibFrom(1, b, a + b) == FibFrom(0, a + b, b + (a + b));
  }

  /** The ancestor i levels above a node. */
  ghost function Ancestor(t: Tree, k: int, i: nat): (u: int)
    requires t.Valid() && 0 <= k < t.Nodes() && i <= t.Depth(k)
    ensures k <= u < t.Nodes() && t.Depth(u) == t.Depth(k) - i
  {
    if i == 0 then k else t.parent[Ancestor(t, k, i - 1)]
  }

  /** The other child of a node's parent. */
  ghost function Sibling(t: Tree, k: int): (s: int)
    requires t.Valid() && 0 <= k < t.Root()
    ensures 0 <= s < t.parent[k] && s != k && t.parent[s] == t.parent[k]
    ensures t.count[t.parent[k]] == t.count[k] + t.count[s]
  {
    var a := t.parent[k] - t.n;
    assert t.MergeOk(a);
    if k == t.left[a] then t.right[a] else t.left[a]
  }

  /** A node's sibling is at least as heavy as either child of the node. */
  lemma SiblingIsHeavier(t: Tree, c: int)
    requires t.Valid() && t.Greedy() && t.Ascending() && 0 <= c < t.Root() && t.parent[c] < t.Root()
    requires forall k :: 0 <= k < |t.count| ==> 0 <= t.count[k]
    ensures t.count[c] <= t.count[Sibling(t, t.parent[c])]
  {
    var v := t.parent[c];
    var s := Sibling(t, v);
    hide Sibling, Tree.Greedy, Tree.Live;
    if s < v {
      ChosenFirst(t, c, s);
    } else {
      assert t.count[v] <= t.count[s];
      assert t.count[v] == t.count[c] + t.count[Sibling(t, c)];
    }
  }

  /** A node that was waiting when c was merged, and was merged later, is no lighter. */
  lemma ChosenFirst(t: Tree, c: int, s: int)
    requires t.Valid() && t.Greedy() && 0 <= c < t.Root() && 0 <= s < t.parent[c] && s < t.Root()
    requires t.parent[c] < t.parent[s]
    ensures t.count[c] <= t.count[s]
  {
    var a := t.parent[c] - t.n;
    assert t.MergeOk(a);
    assert SmallestPair(t.Live(a), t.count, t.left[a], t.right[a]);
    assert t.LiveAt(a, s) && t.Live(a)[s];
    hide Tree.Valid, Tree.Greedy, Tree.Live;
  }

  /** Greedy merges of positive weights, made in ascending order. */
  ghost predicate GreedyTree(t: Tree)
  {
    t.Valid() && t.Greedy() && t.Ascending() && forall j :: 0 <= j < |t.count| ==> 1 <= t.count[j]
  }

  lemma AncestorStep(t: Tree, k: int, i: nat)
    requires t.Valid() && 0 <= k < t.Nodes() && i + 1 <= t.Depth(k)
    ensures Ancestor(t, k, i) < t.Root() && t.parent[Ancestor(t, k, i)] == Ancestor(t, k, i + 1)
  {
  }

  lemma AncestorWeighs(t: Tree, k: int, i: nat)
    requires GreedyTree(t) && 0 <= k < t.n && 1 <= i <= t.Depth(k)
    ensures i == 1 ==> t.count[Ancestor(t, k, i)] >= t.count[k] + 1
    ensures i >= 2 ==>
              t.count[Ancestor(t, k, i)] >= t.count[Ancestor(t, k, i - 1)] + t.count[Ancestor(t, k, i - 2)]
  {
    var v := Ancestor(t, k, i - 1);
    AncestorStep(t, k, i - 1);
    var s := Sibling(t, v);
    assert t.count[s] >= 1;
    if i >= 2 {
      AncestorStep(t, k, i - 2);
      SiblingIsHeavier(t, Ancestor(t, k, i - 2));
    }
    hide *;
  }

  /** The ancestor i levels above a word weighs at least F(i + 2). */
  lemma {:induction false} AncestorIsHeavy(t: Tree, k: int, i: nat)
    requires GreedyTree(t) && 0 <= k < t.n && i <= t.Depth(k)
    ensures t.count[Ancestor(t, k, i)] >= Fib(i + 2)
    decreases i
  {
    hide *;
    FibUnfolds(i);
    if i == 0 {
      AncestorStart(t, k);
    } else {
      AncestorIsHeavy(t, k, i - 1);
      AncestorWeighs(t, k, i);
      if i == 1 {
        AncestorStart(t, k);
      } else {
        AncestorIsHeavy(t, k, i - 2);
      }
    }
  }

  lemma AncestorStart(t: Tree, k: int)
    requires GreedyTree(t) && 0 <= k < t.n
    ensures Ancestor(t, k, 0) == k && t.count[k] >= 1
  {
  }

  lemma FibUnfolds(i: nat)
    ensures i <= 1 ==> Fib(i + 2) == i + 1
    ensures i >= 2 ==> Fib(i + 2) == Fib(i + 1) + Fib(i)
  {
  }

  /** Total weight of the waiting nodes. */
  ghost function WeightTerms(live: seq<bool>, w: seq<int>): (s: seq<int>)
    requires |live| == |w|
    ensures |s| == |w|
  {
    seq(|w|, k requires 0 <= k < |w| => if live[k] then w[k] else 0)
  }

  lemma WeightMerged(live: seq<bool>, w: seq<int>, x: nat, y: nat, z: nat)
    requires |live| == |w| && MergeStep(live, w, x, y, z)
    ensures Sum(WeightTerms(Merged(live, x, y, z), w)) == Sum(WeightTerms(live, w))
  {
    var s := WeightTerms(live, w);
    SumUpdate(s, x, 0);
    SumUpdate(s[x := 0], y, 0);
    SumUpdate(s[x := 0][y := 0], z, w[z]);
    assert WeightTerms(Merged(live, x, y, z), w) == s[x := 0][y := 0][z := w[z]];
  }

  /** Merging conserves the total weight, so the root carries all of it. */
  lemma {:induction false} RootWeight(t: Tree, a: int)
    requires t.Valid() && 0 <= a <= t.n - 1
    ensures Sum(WeightTerms(t.Live(a), t.count)) == t.count[t.Root()]
    decreases t.n - a
  {
    if a == t.n - 1 {
      var s := WeightTerms(t.Live(a), t.count);
      SumToOne(s, t.Root(), |s|);
    } else {
      LiveMerges(t, a);
      WeightMerged(t.Live(a), t.count, t.left[a], t.right[a], t.n + a);
      RootWeight(t, a + 1);
    }
  }

  lemma WordsWeigh(t: Tree)
    requires t.Valid()
    ensures SumTo(t.count, t.n) == t.count[t.Root()]
  {
    var s := WeightTerms(t.Live(0), t.count);
    RootWeight(t, 0);
    ZeroTail(s, t.n, |s|);
    SumToSame(s, t.count, t.n);
  }

  lemma TopAncestor(t: Tree, k: int)
    requires t.Valid() && 0 <= k < t.Nodes()
    ensures Ancestor(t, k, t.Depth(k)) == t.Root()
  {
  }

  lemma GreedyTreeIsValid(t: Tree)
    requires GreedyTree(t)
    ensures t.Valid() && t.Nodes() == 2 * t.n - 1 == |t.count| && t.n >= 2 && 0 <= t.Root() < |t.count|
  {
  }

  lemma RootIsHeavy(t: Tree, k: int)
    requires GreedyTree(t) && 0 <= k < t.n
    ensures t.count[t.Root()] >= Fib(t.Depth(k) + 2)
  {
    hide *;
    GreedyTreeIsValid(t);
    TopAncestor(t, k);
    AncestorIsHeavy(t, k, t.Depth(k));
  }

  /** A code of length d forces a total count of at least F(d + 2). */
  lemma LongCodesNeedWeight(t: Tree, k: int)
    requires GreedyTree(t) && 0 <= k < t.n
    ensures SumTo(t.count, t.n) >= Fib(t.Depth(k) + 2)
  {
    hide *;
    GreedyTreeIsValid(t);
    WordsWeigh(t);
    RootIsHeavy(t, k);
  }

  /** With a total below F(42) every code fits the arrays of 40. */
  lemma CodesFit(t: Tree, k: int)
    requires GreedyTree(t) && 0 <= k < t.n && SumTo(t.count, t.n) < TOTAL_LIMIT
    ensures t.Depth(k) <= 39
  {
    hide *;
    GreedyTreeIsValid(t);
    LongCodesNeedWeight(t, k);
    TotalLimitIsFib();
    if t.Depth(k) >= 40 {
      FibGrows(42, t.Depth(k) + 2);
    }
  }
}
