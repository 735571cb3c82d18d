/** The two-queue loop of CreateBinaryTree: leaves are taken from the light end of the sorted word
    counts, merged nodes in the order they were made. */
module HuffmanBuild {
  import opened KraftOptimality
  import opened HuffmanTree

  /** Count given to nodes that do not exist yet. */
  const SENTINEL := 1_000_000_000_000_000

  /** The arrays after a merges. left, right, and the two positions at the start of each merge are
      a record of the run. */
  datatype Run = Run(
    n: nat, a: nat, pos1: int, pos2: int,
    count: seq<int>, parent: seq<int>, binary: seq<int>,
    left: seq<int>, right: seq<int>, was1: seq<int>, was2: seq<int>)
  {
    ghost predicate Sized()
    {
      && n >= 2 && a <= n - 1 && -1 <= pos1 < n && n <= pos2 <= n + a && pos1 + 1 + n + a - pos2 == n - a
      && |count| == |parent| == |binary| == 2 * n + 1
      && |left| == |right| == |was1| == |was2| == a
    }

    predicate Taken(k: int)
    {
      pos1 < k < n || n <= k < pos2
    }

    /** A node that waits in one of the two queues. */
    predicate Waits(k: int)
    {
      0 <= k <= pos1 || pos2 <= k < n + a
    }

    ghost predicate MergedAt(b: int)
      requires Sized() && 0 <= b < a
    {
      && 0 <= left[b] < n + b && 0 <= right[b] < n + b && left[b] != right[b]
      && Taken(left[b]) && Taken(right[b])
      && parent[left[b]] == n + b == parent[right[b]]
      && binary[left[b]] == 0 && binary[right[b]] == 1
      && count[n + b] == count[left[b]] + count[right[b]]
    }

    ghost predicate HasParent(k: int)
      requires Sized() && 0 <= k < |parent|
    {
      k < parent[k] && n <= parent[k] < n + a && (k == left[parent[k] - n] || k == right[parent[k] - n])
    }

    ghost predicate Linked()
      requires Sized()
    {
      && (forall b :: 0 <= b < a ==> MergedAt(b))
      && (forall k :: 0 <= k < n + a && Taken(k) ==> HasParent(k))
    }

    ghost predicate Blank()
      requires Sized()
    {
      && (forall k :: 0 <= k < 2 * n && !Taken(k) ==> binary[k] == 0)
      && (forall k :: n + a <= k < 2 * n ==> count[k] == SENTINEL)
      && (forall k :: 0 <= k < n ==> count[k] < SENTINEL)
    }

    ghost predicate Inv()
    {
      Sized() && Linked() && Blank()
    }

    // ---- the order, for sorted counts ----

    ghost predicate Sorted()
      requires Sized()
    {
      && (forall k :: 0 <= k < n + a ==> 0 <= count[k])
      && (forall i, j :: 0 <= i <= j < n ==> count[i] >= count[j])
      && (forall i, j :: n <= i <= j < n + a ==> count[i] <= count[j])
    }

    /** No waiting node is lighter than lo, and the last merge is no heavier than two of them. */
    ghost predicate Above(lo: int)
      requires Sized()
    {
      && (forall k :: Waits(k) ==> lo <= count[k])
      && (a > 0 ==> count[n + a - 1] <= 2 * lo)
    }

    /** The two nodes of merge b are no heavier than node k, if k waited then. */
    ghost predicate LighterThan(b: int, k: int)
      requires Sized() && 0 <= b < a && 0 <= left[b] < n + b && 0 <= right[b] < n + b
    {
      (0 <= k <= was1[b] || was2[b] <= k < n + b) && k != left[b] && k != right[b] ==>
        0 <= k < n + b && count[left[b]] <= count[k] && count[right[b]] <= count[k]
    }

    /** Node k, if it was not waiting at merge b, was merged before. */
    ghost predicate MergedBefore(b: int, k: int)
      requires Sized() && 0 <= b < a
    {
      was1[b] < k < n || n <= k < was2[b] ==> 0 <= k < n + a && parent[k] < n + b
    }

    /** Merge b took two lightest of the nodes then waiting, and the others were merged before. */
    ghost predicate LightestAt(b: int)
      requires Sized() && 0 <= b < a
    {
      && 0 <= left[b] < n + b && 0 <= right[b] < n + b
      && pos1 <= was1[b] && was2[b] <= pos2
      && (forall k: int :: LighterThan(b, k))
      && (forall k: int :: MergedBefore(b, k))
    }

    ghost predicate Lightest()
      requires Sized()
    {
      forall b :: 0 <= b < a ==> LightestAt(b)
    }
  }

  /** The lighter of the two queue fronts, ties going to the merged nodes, and the positions behind it. */
  function Pick(count: seq<int>, n: nat, pos1: int, pos2: int): (int, int, int)
    requires |count| == 2 * n + 1 && pos1 < n <= pos2 < 2 * n
  {
    if pos1 >= 0 && count[pos1] < count[pos2] then (pos1, pos1 - 1, pos2) else (pos2, pos1, pos2 + 1)
  }

  /** Picking from the front of the two queues. */
  predicate Picks(count: seq<int>, n: nat, pos1: int, pos2: int, m: int, next1: int, next2: int)
    requires |count| == 2 * n + 1 && pos1 < n <= pos2 < 2 * n
  {
    Pick(count, n, pos1, pos2) == (m, next1, next2)
  }

  /** The run after merging x and y. */
  function After(r: Run, x: int, y: int, pos1: int, pos2: int): (s: Run)
    requires r.n >= 2 && r.a < r.n - 1 && |r.count| == |r.parent| == |r.binary| == 2 * r.n + 1
    requires 0 <= x < 2 * r.n && 0 <= y < 2 * r.n
  {
    Run(r.n, r.a + 1, pos1, pos2,
        r.count[r.n + r.a := r.count[x] + r.count[y]],
        r.parent[x := r.n + r.a][y := r.n + r.a],
        r.binary[y := 1],
        r.left + [x], r.right + [y], r.was1 + [r.pos1], r.was2 + [r.pos2])
  }

  /** Two picks in a row. */
  ghost predicate PicksPair(r: Run, x: int, y: int, pos1: int, pos2: int)
    requires r.Sized() && r.a < r.n - 1
  {
    exists mid1: int, mid2: int ::
      && Picks(r.count, r.n, r.pos1, r.pos2, x, mid1, mid2) && -1 <= mid1 < r.n && r.n <= mid2 <= r.n + r.a
      && Picks(r.count, r.n, mid1, mid2, y, pos1, pos2)
  }

  /** x and y are two waiting nodes and the positions move past exactly them. */
  ghost predicate Pair(r: Run, x: int, y: int, pos1: int, pos2: int)
  {
    && r.Sized() && r.a < r.n - 1 && r.Waits(x) && r.Waits(y) && x != y
    && -1 <= pos1 <= r.pos1 && r.pos2 <= pos2 <= r.n + r.a && r.pos1 - pos1 + pos2 - r.pos2 == 2
    && forall k :: After(r, x, y, pos1, pos2).Taken(k) <==> r.Taken(k) || k == x || k == y
  }

  /** The sentinel keeps both picks among the waiting nodes. */
  lemma PicksWait(r: Run, x: int, y: int, pos1: int, pos2: int)
    requires r.Inv() && r.a < r.n - 1 && PicksPair(r, x, y, pos1, pos2)
    ensures Pair(r, x, y, pos1, pos2)
  {
    hide Run.Linked;
  }

  lemma MergedStays(r: Run, x: int, y: int, pos1: int, pos2: int, b: int)
    requires Pair(r, x, y, pos1, pos2) && 0 <= b < r.a && r.MergedAt(b)
    ensures After(r, x, y, pos1, pos2).Sized() && After(r, x, y, pos1, pos2).MergedAt(b)
  {
    hide Pair, After, Run.Taken;
    PairWaits(r, x, y, pos1, pos2);
    AfterKeeps(r, x, y, pos1, pos2, b);
    AfterKeepsNode(r, x, y, pos1, pos2, r.left[b]);
    AfterKeepsNode(r, x, y, pos1, pos2, r.right[b]);
    AfterKeepsNode(r, x, y, pos1, pos2, r.n + b);
  }

  lemma NewMerge(r: Run, x: int, y: int, pos1: int, pos2: int)
    requires Pair(r, x, y, pos1, pos2) && r.Blank()
    ensures After(r, x, y, pos1, pos2).Sized() && After(r, x, y, pos1, pos2).MergedAt(r.a)
  {
    var s := After(r, x, y, pos1, pos2);
    assert s.Taken(x) && s.Taken(y) && !r.Taken(x);
    assert s.left[r.a] == x && s.right[r.a] == y;
  }

  lemma ParentStays(r: Run, x: int, y: int, pos1: int, pos2: int, k: int)
    requires Pair(r, x, y, pos1, pos2) && 0 <= k < r.n + r.a
    requires (k == x || k == y) || (r.Taken(k) && r.HasParent(k))
    ensures After(r, x, y, pos1, pos2).HasParent(k)
  {
  }

  lemma StaysBlank(r: Run, x: int, y: int, pos1: int, pos2: int)
    requires Pair(r, x, y, pos1, pos2) && r.Blank()
    ensures After(r, x, y, pos1, pos2).Sized() && After(r, x, y, pos1, pos2).Blank()
  {
  }

  lemma MergeKeepsLinks(r: Run, x: int, y: int, pos1: int, pos2: int)
    requires r.Inv() && Pair(r, x, y, pos1, pos2)
    ensures After(r, x, y, pos1, pos2).Inv()
  {
    var s := After(r, x, y, pos1, pos2);
    StaysBlank(r, x, y, pos1, pos2);
    hide Run.Blank, Run.MergedAt, Run.HasParent;
    forall b | 0 <= b < s.a
      ensures s.MergedAt(b)
    {
      if b < r.a {
        MergedStays(r, x, y, pos1, pos2, b);
      } else {
        NewMerge(r, x, y, pos1, pos2);
      }
    }
    forall k | 0 <= k < s.n + s.a && s.Taken(k)
      ensures s.HasParent(k)
    {
      ParentStays(r, x, y, pos1, pos2, k);
    }
  }

  // ---- sorted counts ----

  ghost predicate LightestPair(r: Run, x: int, y: int)
    requires r.Sized()
  {
    && r.Waits(x) && r.Waits(y) && x != y && r.count[x] <= r.count[y]
    && forall k :: r.Waits(k) && k != x && k != y ==> r.count[y] <= r.count[k]
  }

  lemma PicksAreLightest(r: Run, x: int, y: int, pos1: int, pos2: int)
    requires r.Inv() && r.Sorted() && r.a < r.n - 1 && PicksPair(r, x, y, pos1, pos2)
    ensures LightestPair(r, x, y)
  {
    PicksWait(r, x, y, pos1, pos2);
  }

  lemma StaysSorted(r: Run, x: int, y: int, pos1: int, pos2: int, lo: int)
    requires Pair(r, x, y, pos1, pos2) && LightestPair(r, x, y) && r.Sorted() && r.Above(lo)
    ensures After(r, x, y, pos1, pos2).Sized() && After(r, x, y, pos1, pos2).Sorted()
    ensures After(r, x, y, pos1, pos2).Above(r.count[y])
  {
    StaysAscending(r, x, y, pos1, pos2, lo);
    StaysAbove(r, x, y, pos1, pos2);
  }

  lemma StaysAscending(r: Run, x: int, y: int, pos1: int, pos2: int, lo: int)
    requires Pair(r, x, y, pos1, pos2) && LightestPair(r, x, y) && r.Sorted() && r.Above(lo)
    ensures After(r, x, y, pos1, pos2).Sized() && After(r, x, y, pos1, pos2).Sorted()
  {
    LastMerge(r, x, y, pos1, pos2);
    CountsAfter(r, x, y, pos1, pos2);
    hide Pair, After;
  }

  lemma CountsAfter(r: Run, x: int, y: int, pos1: int, pos2: int)
    requires Pair(r, x, y, pos1, pos2)
    ensures var s := After(r, x, y, pos1, pos2);
            && |s.count| == |r.count| && s.count[r.n + r.a] == r.count[x] + r.count[y]
            && forall k :: 0 <= k < r.n + r.a ==> s.count[k] == r.count[k]
  {
  }

  lemma StaysAbove(r: Run, x: int, y: int, pos1: int, pos2: int)
    requires Pair(r, x, y, pos1, pos2) && LightestPair(r, x, y) && r.Sorted()
    ensures After(r, x, y, pos1, pos2).Sized() && After(r, x, y, pos1, pos2).Above(r.count[y])
  {
    var s := After(r, x, y, pos1, pos2);
    LastMerge(r, x, y, pos1, pos2);
    CountsAfter(r, x, y, pos1, pos2);
    assert 0 <= r.count[x];
    forall k | s.Waits(k)
      ensures r.count[y] <= s.count[k]
    {
      assert !s.Taken(k);
      if k != s.n + s.a - 1 {
        assert r.Waits(k);
      }
    }
    hide After, Run.Sorted;
  }

  lemma LightestStays(r: Run, x: int, y: int, pos1: int, pos2: int, b: int)
    requires Pair(r, x, y, pos1, pos2) && 0 <= b < r.a && r.LightestAt(b)
    ensures After(r, x, y, pos1, pos2).Sized() && After(r, x, y, pos1, pos2).LightestAt(b)
  {
    var s := After(r, x, y, pos1, pos2);
    PairWaits(r, x, y, pos1, pos2);
    AfterKeeps(r, x, y, pos1, pos2, b);
    hide After, Pair, Run.LighterThan, Run.MergedBefore;
    forall k: int
      ensures s.LighterThan(b, k) && s.MergedBefore(b, k)
    {
      LightestNode(r, x, y, pos1, pos2, b, k);
    }
  }

  lemma LightestNode(r: Run, x: int, y: int, pos1: int, pos2: int, b: int, k: int)
    requires Pair(r, x, y, pos1, pos2) && 0 <= b < r.a && r.LightestAt(b)
    ensures var s := After(r, x, y, pos1, pos2);
            && s.Sized() && 0 <= s.left[b] < s.n + b && 0 <= s.right[b] < s.n + b && s.LighterThan(b, k)
            && s.MergedBefore(b, k)
  {
    PairWaits(r, x, y, pos1, pos2);
    AfterKeeps(r, x, y, pos1, pos2, b);
    AfterKeepsNode(r, x, y, pos1, pos2, r.left[b]);
    AfterKeepsNode(r, x, y, pos1, pos2, r.right[b]);
    assert r.LighterThan(b, k) && r.MergedBefore(b, k);
    if 0 <= k < r.n + r.a {
      AfterKeepsNode(r, x, y, pos1, pos2, k);
    }
    if r.was1[b] < k < r.n || r.n <= k < r.was2[b] {
      WasTaken(r, b, k);
    }
    hide After, Pair, Run.Taken;
  }

  lemma PairWaits(r: Run, x: int, y: int, pos1: int, pos2: int)
    requires Pair(r, x, y, pos1, pos2)
    ensures 0 <= r.a < r.n - 1 && r.Sized() && 0 <= x < 2 * r.n && 0 <= y < 2 * r.n && pos1 <= r.pos1 && r.pos2 <= pos2
    ensures After(r, x, y, pos1, pos2).Sized()
  {
  }

  lemma AfterKeeps(r: Run, x: int, y: int, pos1: int, pos2: int, b: int)
    requires Pair(r, x, y, pos1, pos2) && 0 <= b < r.a
    ensures var s := After(r, x, y, pos1, pos2);
            && s.n == r.n && s.a == r.a + 1 && s.pos1 == pos1 && s.pos2 == pos2
            && s.left[b] == r.left[b] && s.right[b] == r.right[b] && s.was1[b] == r.was1[b] && s.was2[b] == r.was2[b]
  {
  }

  lemma AfterKeepsNode(r: Run, x: int, y: int, pos1: int, pos2: int, k: int)
    requires Pair(r, x, y, pos1, pos2) && 0 <= k < r.n + r.a
    ensures After(r, x, y, pos1, pos2).Sized()
    ensures After(r, x, y, pos1, pos2).count[k] == r.count[k]
    ensures r.Taken(k) ==> After(r, x, y, pos1, pos2).parent[k] == r.parent[k]
    ensures r.Taken(k) ==> After(r, x, y, pos1, pos2).Taken(k)
    ensures r.Taken(k) ==> After(r, x, y, pos1, pos2).binary[k] == r.binary[k]
  {
  }

  lemma WasTaken(r: Run, b: int, k: int)
    requires r.Sized() && 0 <= b < r.a && r.LightestAt(b) && (r.was1[b] < k < r.n || r.n <= k < r.was2[b])
    ensures r.Taken(k)
  {
    assert r.MergedBefore(b, k);
  }

  lemma LastIsLightest(r: Run, x: int, y: int, pos1: int, pos2: int)
    requires Pair(r, x, y, pos1, pos2) && LightestPair(r, x, y) && r.Linked()
    ensures After(r, x, y, pos1, pos2).Sized() && After(r, x, y, pos1, pos2).LightestAt(r.a)
  {
    PairWaits(r, x, y, pos1, pos2);
    LastMerge(r, x, y, pos1, pos2);
    var s := After(r, x, y, pos1, pos2);
    hide Pair, After, LightestPair, Run.Linked, Run.Waits, Run.Taken, Run.LighterThan, Run.MergedBefore;
    forall k: int
      ensures s.LighterThan(r.a, k) && s.MergedBefore(r.a, k)
    {
      LastLighter(r, x, y, pos1, pos2, k);
      LastBefore(r, x, y, pos1, pos2, k);
    }
  }

  /** What the record says of the last merge. */
  lemma LastMerge(r: Run, x: int, y: int, pos1: int, pos2: int)
    requires Pair(r, x, y, pos1, pos2)
    ensures var s := After(r, x, y, pos1, pos2);
            && s.Sized() && s.n == r.n && s.a == r.a + 1 && s.left[r.a] == x && s.right[r.a] == y
            && s.was1[r.a] == r.pos1 && s.was2[r.a] == r.pos2 && s.pos1 == pos1 && s.pos2 == pos2
            && 0 <= x < r.n + r.a && 0 <= y < r.n + r.a && pos1 <= r.pos1 && r.pos2 <= pos2
  {
  }

  lemma LastLighter(r: Run, x: int, y: int, pos1: int, pos2: int, k: int)
    requires Pair(r, x, y, pos1, pos2) && LightestPair(r, x, y)
    ensures var s := After(r, x, y, pos1, pos2);
            && s.Sized() && s.a == r.a + 1 && 0 <= s.left[r.a] < s.n + r.a && 0 <= s.right[r.a] < s.n + r.a
            && s.LighterThan(r.a, k)
  {
    LastMerge(r, x, y, pos1, pos2);
    if r.Waits(k) {
      AfterKeepsNode(r, x, y, pos1, pos2, k);
    }
    AfterKeepsNode(r, x, y, pos1, pos2, x);
    AfterKeepsNode(r, x, y, pos1, pos2, y);
    hide Pair, After, Run.Taken;
  }

  lemma LastBefore(r: Run, x: int, y: int, pos1: int, pos2: int, k: int)
    requires Pair(r, x, y, pos1, pos2) && r.Linked()
    ensures After(r, x, y, pos1, pos2).Sized() && After(r, x, y, pos1, pos2).a == r.a + 1
    ensures After(r, x, y, pos1, pos2).MergedBefore(r.a, k)
  {
    LastMerge(r, x, y, pos1, pos2);
    if r.Taken(k) && 0 <= k < r.n + r.a {
      assert r.HasParent(k);
      AfterKeepsNode(r, x, y, pos1, pos2, k);
    }
    PairTaken(r, x, y, pos1, pos2);
    hide Pair, After, Run.MergedAt;
  }

  lemma PairTaken(r: Run, x: int, y: int, pos1: int, pos2: int)
    requires Pair(r, x, y, pos1, pos2)
    ensures r.Sized() && forall k :: 0 <= k && r.Taken(k) ==> k < r.n + r.a
  {
  }

  ghost predicate Ordered(r: Run, lo: int)
    requires r.Sized()
  {
    r.Sorted() && r.Above(lo) && r.Lightest()
  }

  /** With sorted counts every merge takes two lightest nodes, and merges get heavier. */
  lemma MergeKeepsOrder(r: Run, x: int, y: int, pos1: int, pos2: int, lo: int)
    requires r.Inv() && Ordered(r, lo) && Pair(r, x, y, pos1, pos2) && LightestPair(r, x, y)
    ensures After(r, x, y, pos1, pos2).Sized() && Ordered(After(r, x, y, pos1, pos2), r.count[y])
  {
    hide Run.LightestAt, Run.Sorted, Run.Above, Run.Blank, Run.Linked, LightestPair, Run.Taken;
    StaysSorted(r, x, y, pos1, pos2, lo);
    assert 0 <= x < r.n + r.a && 0 <= y < r.n + r.a;
    var s := After(r, x, y, pos1, pos2);
    forall b | 0 <= b < s.a
      ensures s.LightestAt(b)
    {
      if b < r.a {
        LightestStays(r, x, y, pos1, pos2, b);
      } else {
        LastIsLightest(r, x, y, pos1, pos2);
      }
    }
  }

  // ---- the finished run ----

  function TreeOf(r: Run): Tree
    requires r.n >= 2 && |r.count| == |r.parent| == |r.binary| == 2 * r.n + 1
  {
    Tree(r.n, r.count[..2 * r.n - 1], r.parent[..2 * r.n - 1], r.binary[..2 * r.n - 1], r.left, r.right)
  }

  /** Only the last merge is left waiting. */
  lemma RootWaits(r: Run)
    requires r.Inv() && r.a == r.n - 1
    ensures forall k :: 0 <= k < 2 * r.n - 2 ==> r.Taken(k)
  {
    assert !r.HasParent(2 * r.n - 2);
  }

  ghost predicate MergeIn(t: Tree, a: int)
  {
    && 0 <= a < t.n - 1 && |t.left| == |t.right| == t.n - 1 && |t.count| == |t.parent| == |t.binary| == t.Nodes()
    && 0 <= t.left[a] < t.n + a && 0 <= t.right[a] < t.n + a && t.MergeOk(a)
  }

  lemma FinishedMerge(r: Run, a: int)
    requires r.Sized() && 0 <= a < r.a == r.n - 1 && r.MergedAt(a)
    ensures MergeIn(TreeOf(r), a)
  {
  }

  ghost predicate ParentIn(t: Tree, k: int)
  {
    && 0 <= k < t.Root() && |t.left| == |t.right| == t.n - 1 && |t.parent| == t.Nodes()
    && k < t.parent[k] < t.Nodes() && t.n <= t.parent[k]
    && (k == t.left[t.parent[k] - t.n] || k == t.right[t.parent[k] - t.n])
  }

  lemma FinishedParent(r: Run, k: int)
    requires r.Sized() && r.a == r.n - 1 && 0 <= k < 2 * r.n - 2 && r.HasParent(k)
    ensures ParentIn(TreeOf(r), k)
  {
  }

  lemma TreeFromParts(t: Tree)
    requires t.n >= 2 && |t.count| == |t.parent| == |t.binary| == t.Nodes() && |t.left| == |t.right| == t.n - 1
    requires forall a :: 0 <= a < t.n - 1 ==> MergeIn(t, a)
    requires forall k :: 0 <= k < t.Root() ==> ParentIn(t, k)
    ensures t.Valid()
  {
    hide Tree.MergeOk;
    forall a | 0 <= a < t.n - 1
      ensures 0 <= t.left[a] < t.n + a && 0 <= t.right[a] < t.n + a && t.MergeOk(a)
    {
      assert MergeIn(t, a);
    }
    forall k | 0 <= k < t.Root()
      ensures k < t.parent[k] < t.Nodes() && t.n <= t.parent[k]
      ensures k == t.left[t.parent[k] - t.n] || k == t.right[t.parent[k] - t.n]
    {
      assert ParentIn(t, k);
    }
  }

  /** When all merges are made the arrays hold a binary tree over the words. */
  lemma FinishedIsTree(r: Run)
    requires r.Inv() && r.a == r.n - 1
    ensures TreeOf(r).Valid()
  {
    RootWaits(r);
    var t := TreeOf(r);
    hide Run.MergedAt, Run.HasParent, MergeIn, ParentIn, Run.Taken, Run.Blank;
    forall a | 0 <= a < r.n - 1
      ensures MergeIn(t, a)
    {
      FinishedMerge(r, a);
    }
    forall k | 0 <= k < t.Root()
      ensures ParentIn(t, k)
    {
      assert r.Taken(k);
      FinishedParent(r, k);
    }
    TreeFromParts(t);
  }

  lemma FinishedOther(r: Run, b: int, k: int)
    requires r.Inv() && r.a == r.n - 1 && TreeOf(r).Valid() && 0 <= b < r.n - 1 && r.LightestAt(b)
    requires 0 <= k < TreeOf(r).Nodes() && TreeOf(r).LiveAt(b, k) && k != r.left[b] && k != r.right[b]
    ensures r.count[r.left[b]] <= r.count[k] && r.count[r.right[b]] <= r.count[k]
  {
    assert r.LighterThan(b, k) && r.MergedBefore(b, k);
    hide Run.LightestAt, Run.MergedAt, Run.HasParent, Run.Blank, Tree.Valid;
  }

  lemma FinishedPair(r: Run, b: int)
    requires r.Inv() && r.a == r.n - 1 && TreeOf(r).Valid() && 0 <= b < r.n - 1 && r.LightestAt(b)
    ensures SmallestPair(TreeOf(r).Live(b), TreeOf(r).count, r.left[b], r.right[b])
  {
    var t := TreeOf(r);
    assert t.MergeOk(b);
    forall k | 0 <= k < t.Nodes() && t.LiveAt(b, k) && k != r.left[b] && k != r.right[b]
      ensures t.count[r.left[b]] <= t.count[k] && t.count[r.right[b]] <= t.count[k]
    {
      FinishedOther(r, b, k);
    }
  }

  lemma FinishedIsGreedy(r: Run, lo: int)
    requires r.Inv() && r.a == r.n - 1 && TreeOf(r).Valid() && Ordered(r, lo)
    ensures TreeOf(r).Greedy() && TreeOf(r).Ascending()
  {
    var t := TreeOf(r);
    forall a | 0 <= a < t.n - 1
      ensures SmallestPair(t.Live(a), t.count, t.left[a], t.right[a])
    {
      FinishedPair(r, a);
    }
  }
}
