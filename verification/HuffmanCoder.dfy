/** CreateBinaryTree: the word counts are turned into a Huffman tree held in three arrays, and every
    word gets its code, its code length and the inner nodes its code passes. */
module HuffmanCoder {
  import opened Sums
  import opened KraftOptimality
  import opened HuffmanTree
  import opened HuffmanDepth
  import opened HuffmanOptimality
  import opened HuffmanBuild
  import opened HuffmanRun

  /** The lighter of the two queue fronts; ties go to the merged nodes. */
  method TakeLightest(count: array<int>, n: nat, pos1: int, pos2: int) returns (m: int, next1: int, next2: int)
    requires count.Length == 2 * n + 1 && pos1 < n <= pos2 < 2 * n
    ensures Picks(count[..], n, pos1, pos2, m, next1, next2)
  {
    next1, next2 := pos1, pos2;
    if pos1 >= 0 {
      if count[pos1] < count[pos2] {
        m := pos1;
        next1 := pos1 - 1;
      } else {
        m := pos2;
        next2 := pos2 + 1;
      }
    } else {
      m := pos2;
      next2 := pos2 + 1;
    }
  }

  method InitCounts(cn: array<int>) returns (count: array<int>)
    ensures fresh(count) && count[..] == InitialCounts(cn[..])
  {
    var n := cn.Length;
    count := new int[2 * n + 1](_ => 0);
    for a := 0 to n
      invariant forall k :: 0 <= k < a ==> count[k] == cn[k]
      invariant count[2 * n] == 0
    {
      count[a] := cn[a];
    }
    for a := n to 2 * n
      invariant forall k :: 0 <= k < n ==> count[k] == cn[k]
      invariant forall k :: n <= k < a ==> count[k] == SENTINEL
      invariant count[2 * n] == 0
    {
      count[a] := SENTINEL;
    }
  }

  /** The arrays hold the run r. */
  ghost predicate Holds(r: Run, pos1: int, pos2: int, count: array<int>, parent: array<int>, binary: array<int>)
    reads count, parent, binary
  {
    && r.pos1 == pos1 && r.pos2 == pos2
    && r.count == count[..] && r.parent == parent[..] && r.binary == binary[..]
  }

  /** What the body of the loop relies on. */
  lemma TurnFacts(r: Run)
    requires r.Inv() && r.a < r.n - 1
    ensures |r.count| == |r.parent| == |r.binary| == 2 * r.n + 1 && r.pos1 < r.n <= r.pos2 < 2 * r.n
    ensures var (x, mid1, mid2) := Pick(r.count, r.n, r.pos1, r.pos2);
            && mid1 < r.n <= mid2 < 2 * r.n
            && var (y, next1, next2) := Pick(r.count, r.n, mid1, mid2);
            && 0 <= x < r.n + r.a && 0 <= y < r.n + r.a && Turn(r) == After(r, x, y, next1, next2)
  {
    var p := NextPair(r);
    var (x, mid1, mid2) := Pick(r.count, r.n, r.pos1, r.pos2);
    FirstPick(r, x, mid1, mid2);
    hide Run.Linked, Run.Blank, PicksPair, Pair;
  }

  /** One turn of the loop: two lightest nodes get a common parent. */
  method MergeNext(n: nat, a: nat, pos1: int, pos2: int, count: array<int>, parent: array<int>, binary: array<int>,
                   ghost r: Run)
    returns (next1: int, next2: int)
    requires r.Inv() && r.n == n && r.a == a < n - 1 && Holds(r, pos1, pos2, count, parent, binary)
    requires count != parent && parent != binary && count != binary
    modifies count, parent, binary
    ensures Holds(Turn(r), next1, next2, count, parent, binary)
  {
    hide Run.Inv, Turn, Pick;
    TurnFacts(r);
    var min1i, mid1, mid2 := TakeLightest(count, n, pos1, pos2);
    var min2i;
    min2i, next1, next2 := TakeLightest(count, n, mid1, mid2);
    count[n + a] := count[min1i] + count[min2i];
    parent[min1i] := n + a;
    parent[min2i] := n + a;
    binary[min2i] := 1;
  }

  /** The tree whose parents and bits the arrays hold. */
  ghost predicate TreeIn(t: Tree, n: nat, parent: array<int>, binary: array<int>)
    reads parent, binary
  {
    && t.Valid() && t.n == n && parent.Length == binary.Length == 2 * n + 1
    && t.parent == parent[..2 * n - 1] && t.binary == binary[..2 * n - 1]
  }

  ghost predicate Zeros(parent: array<int>, binary: array<int>)
    reads parent, binary
  {
    && (forall k :: 0 <= k < parent.Length ==> parent[k] == 0)
    && (forall k :: 0 <= k < binary.Length ==> binary[k] == 0)
  }

  lemma StartHolds(cn: seq<int>, count: array<int>, parent: array<int>, binary: array<int>)
    requires count[..] == InitialCounts(cn) && parent.Length == binary.Length == 2 * |cn| + 1 && Zeros(parent, binary)
    ensures Holds(Start(cn), |cn| - 1, |cn|, count, parent, binary)
  {
    hide InitialCounts;
  }

  lemma LastHolds(cn: seq<int>, pos1: int, pos2: int, count: array<int>, parent: array<int>, binary: array<int>)
    requires |cn| >= 2 && Countable(cn) && Holds(Built(cn, |cn| - 1), pos1, pos2, count, parent, binary)
    requires parent.Length == binary.Length == 2 * |cn| + 1
    ensures TreeIn(TreeFor(cn), |cn|, parent, binary)
  {
    hide *;
    TreeForIs(cn);
    RunLengths(Built(cn, |cn| - 1));
    HeldTree(Built(cn, |cn| - 1), pos1, pos2, count, parent, binary);
    TreeInArrays(TreeFor(cn), |cn|, parent, binary);
  }

  lemma RunLengths(r: Run)
    requires r.Inv()
    ensures r.n >= 2 && |r.count| == |r.parent| == |r.binary| == 2 * r.n + 1
  {
  }

  lemma HeldTree(r: Run, pos1: int, pos2: int, count: array<int>, parent: array<int>, binary: array<int>)
    requires r.n >= 2 && |r.count| == |r.parent| == |r.binary| == 2 * r.n + 1
    requires Holds(r, pos1, pos2, count, parent, binary)
    ensures parent.Length == binary.Length == 2 * r.n + 1
    ensures TreeOf(r).parent == parent[..2 * r.n - 1] && TreeOf(r).binary == binary[..2 * r.n - 1]
  {
  }

  lemma TreeInArrays(t: Tree, n: nat, parent: array<int>, binary: array<int>)
    requires t.Valid() && t.n == n && parent.Length == binary.Length == 2 * n + 1
    requires t.parent == parent[..2 * n - 1] && t.binary == binary[..2 * n - 1]
    ensures TreeIn(t, n, parent, binary)
  {
  }

  lemma BuiltStarts(cn: seq<int>)
    requires |cn| >= 2 && Countable(cn)
    ensures Built(cn, 0) == Start(cn)
  {
  }

  /** Merging from two queues builds the tree of the counts. */
  method BuildTree(cn: array<int>) returns (parent: array<int>, binary: array<int>)
    requires Countable(cn[..])
    ensures fresh(parent) && fresh(binary) && parent.Length == binary.Length == 2 * cn.Length + 1
    ensures cn.Length >= 2 ==> TreeIn(TreeFor(cn[..]), cn.Length, parent, binary)
    ensures cn.Length < 2 ==> Zeros(parent, binary)
  {
    hide *;
    ghost var c := cn[..];
    var n := cn.Length;
    var count := InitCounts(cn);
    parent := new int[2 * n + 1](_ => 0);
    binary := new int[2 * n + 1](_ => 0);
    var pos1, pos2 := n - 1, n;
    AllZero(parent, binary);
    StartHolds(c, count, parent, binary);
    if n >= 2 {
      BuiltStarts(c);
    }
    var a := 0;
    while a < n - 1
      invariant 0 <= a && (n >= 2 ==> a <= n - 1) && (n < 2 ==> a == 0) && cn[..] == c
      invariant n >= 2 ==> Holds(Built(c, a), pos1, pos2, count, parent, binary)
      invariant n < 2 ==> Zeros(parent, binary)
    {
      pos1, pos2 := MergeNext(n, a, pos1, pos2, count, parent, binary, Built(c, a));
      a := a + 1;
      BuiltTurns(c, a);
    }
    if n >= 2 {
      LastHolds(c, pos1, pos2, count, parent, binary);
    }
  }

  lemma AllZero(parent: array<int>, binary: array<int>)
    requires (forall k :: 0 <= k < parent.Length ==> parent[k] == 0)
    requires (forall k :: 0 <= k < binary.Length ==> binary[k] == 0)
    ensures Zeros(parent, binary)
  {
  }

  // ---- reading the codes off the tree ----

  lemma {:induction false} AncestorShift(t: Tree, k: int, j: nat)
    requires t.Valid() && 0 <= k < t.Root() && j < t.Depth(k)
    ensures Ancestor(t, k, j + 1) == Ancestor(t, t.parent[k], j)
    decreases j
  {
    if j > 0 {
      AncestorShift(t, k, j - 1);
    }
  }

  lemma PathUnfolds(t: Tree, k: int)
    requires t.Valid() && 0 <= k < t.Root()
    ensures |t.parent| == |t.binary| == t.Nodes() && k < t.parent[k] < t.Nodes()
    ensures t.Depth(k) == 1 + t.Depth(t.parent[k])
    ensures t.Path(k) == t.Path(t.parent[k]) + [k] && t.Code(k) == t.Code(t.parent[k]) + [t.binary[k]]
  {
  }

  /** Climbing from a word reads its path and its code backwards. */
  lemma {:induction false} ClimbReadsPath(t: Tree, k: int, j: nat)
    requires t.Valid() && 0 <= k < t.Nodes() && j < t.Depth(k) && |t.binary| == t.Nodes()
    ensures t.Path(k)[t.Depth(k) - j] == Ancestor(t, k, j)
    ensures t.Code(k)[t.Depth(k) - 1 - j] == t.binary[Ancestor(t, k, j)]
    decreases j
  {
    assert k < t.Root() && Ancestor(t, k, 0) == k;
    hide *;
    PathUnfolds(t, k);
    if j > 0 {
      AncestorShift(t, k, j - 1);
      ClimbReadsPath(t, t.parent[k], j - 1);
    }
  }

  // ---- the climb ----

  /** up lists the nodes a climb from word a passes: parent by parent, to the first one that is the root. */
  ghost predicate Climbs(up: seq<int>, n: nat, a: nat, parent: seq<int>)
  {
    && |up| >= 2 && |parent| == 2 * n + 1 && up[0] == a
    && (forall j :: 0 <= j < |up| ==> 0 <= up[j] < |parent|)
    && (forall j :: 0 <= j < |up| - 1 ==> up[j + 1] == parent[up[j]])
    && (forall j :: 1 <= j < |up| - 1 ==> up[j] != 2 * n - 2)
    && up[|up| - 1] == 2 * n - 2
  }

  lemma ClimbsStep(up: seq<int>, n: nat, a: nat, parent: seq<int>, i: nat)
    requires Climbs(up, n, a, parent) && i < |up| - 1
    ensures 0 <= up[i] < |parent| && parent[up[i]] == up[i + 1]
    ensures up[i + 1] == 2 * n - 2 <==> i + 1 == |up| - 1
  {
  }

  /** The do-while loop over the parents of word a. */
  method Climb(n: nat, a: nat, parent: array<int>, binary: array<int>, code: array<int>, point: array<int>,
               ghost up: seq<int>)
    returns (i: nat)
    requires Climbs(up, n, a, parent[..]) && |up| <= MAX_CODE_LENGTH && binary.Length == parent.Length
    requires code.Length == point.Length == MAX_CODE_LENGTH && code != point
    requires code != parent && code != binary && point != parent && point != binary
    modifies code, point
    ensures i == |up| - 1
    ensures forall j :: 0 <= j < i ==> 0 <= up[j] < binary.Length && code[j] == binary[up[j]] && point[j] == up[j]
  {
    var b := a;
    i := 0;
    ghost var links := parent[..];
    hide Climbs;
    ClimbsStart(up, n, a, links);
    while true
      invariant i < |up| - 1 && b == up[i]
      invariant forall j :: 0 <= j < i ==> 0 <= up[j] < binary.Length && code[j] == binary[up[j]] && point[j] == up[j]
      invariant parent[..] == links
      decreases |up| - i
    {
      ClimbsStep(up, n, a, links, i);
      code[i] := binary[b];
      point[i] := b;
      i := i + 1;
      b := parent[b];
      if b == n * 2 - 2 {
        break;
      }
    }
  }

  lemma ClimbsStart(up: seq<int>, n: nat, a: nat, parent: seq<int>)
    requires Climbs(up, n, a, parent)
    ensures |up| >= 2 && up[0] == a && up[|up| - 1] == 2 * n - 2
  {
  }

  /** Row a holds the climb read backwards: the bits, and the nodes shifted to inner-node numbers. */
  ghost predicate Written(up: seq<int>, bits: seq<int>, n: int, a: nat,
                          codelen: array<nat>, code: array2<int>, point: array2<int>)
    reads codelen, code, point
  {
    && 1 <= |up| <= code.Length1 && |up| <= point.Length1 && (forall j :: 0 <= j < |up| ==> 0 <= up[j] < |bits|)
    && a < codelen.Length && a < code.Length0 && a < point.Length0 && codelen[a] == |up| - 1
    && (forall d :: 0 <= d < |up| - 1 ==> code[a, d] == bits[up[|up| - 2 - d]])
    && (forall d :: 0 <= d < |up| ==> point[a, d] == up[|up| - 1 - d] - n)
  }

  /** Rows other than a are as they were. */
  twostate predicate OtherRows(a: nat, m: array2<int>)
    reads m
  {
    forall r, d :: 0 <= r < m.Length0 && r != a && 0 <= d < m.Length1 ==> m[r, d] == old(m[r, d])
  }

  /** Reverses the climb of word a into its row. */
  method StoreCode(n: nat, a: nat, i: nat, bits: array<int>, nodes: array<int>,
                   codelen: array<nat>, code: array2<int>, point: array2<int>)
    requires a < n && i < bits.Length == nodes.Length == MAX_CODE_LENGTH
    requires Tables(n, codelen, code, point)
    modifies codelen, code, point
    ensures codelen[a] == i && forall r :: 0 <= r < n && r != a ==> codelen[r] == old(codelen[r])
    ensures forall d :: 0 <= d < i ==> code[a, d] == old(bits[i - 1 - d])
    ensures forall d :: 1 <= d <= i ==> point[a, d] == old(nodes[i - d]) - n
    ensures point[a, 0] == n - 2 && OtherRows(a, code) && OtherRows(a, point)
  {
    codelen[a] := i;
    point[a, 0] := n - 2;
    ghost var was, were := bits[..], nodes[..];
    for b := 0 to i
      invariant OtherRows(a, code) && OtherRows(a, point)
      invariant codelen[a] == i && forall r :: 0 <= r < n && r != a ==> codelen[r] == old(codelen[r])
      invariant forall d :: i - b <= d < i ==> code[a, d] == was[i - 1 - d]
      invariant forall d :: i - b < d <= i ==> point[a, d] == were[i - d] - n
      invariant point[a, 0] == n - 2 && bits[..] == was && nodes[..] == were
    {
      assert bits[b] == was[b] && nodes[b] == were[b];
      code[a, i - b - 1] := bits[b];
      point[a, i - b] := nodes[b] - n;
    }
  }

  ghost predicate Tables(n: nat, codelen: array<nat>, code: array2<int>, point: array2<int>)
  {
    codelen.Length == code.Length0 == point.Length0 == n && code.Length1 == point.Length1 == MAX_CODE_LENGTH
      && code != point
  }

  /** Climbs from word a and stores its code; the rows already written stay. */
  method AssignCode(n: nat, a: nat, parent: array<int>, binary: array<int>, bits: array<int>, nodes: array<int>,
                    codelen: array<nat>, code: array2<int>, point: array2<int>, ghost ups: seq<seq<int>>)
    requires a < n == |ups| && parent.Length == binary.Length == 2 * n + 1
    requires Climbs(ups[a], n, a, parent[..]) && |ups[a]| <= MAX_CODE_LENGTH
    requires bits.Length == nodes.Length == MAX_CODE_LENGTH && bits != nodes
    requires bits != parent && bits != binary && nodes != parent && nodes != binary
    requires Tables(n, codelen, code, point)
    requires forall r :: 0 <= r < a ==> Written(ups[r], binary[..], n, r, codelen, code, point)
    modifies bits, nodes, codelen, code, point
    ensures forall r :: 0 <= r <= a ==> Written(ups[r], old(binary[..]), n, r, codelen, code, point)
  {
    var i := Climb(n, a, parent, binary, bits, nodes, ups[a]);
    StoreCode(n, a, i, bits, nodes, codelen, code, point);
    forall r | 0 <= r < a
      ensures Written(ups[r], old(binary[..]), n, r, codelen, code, point)
    {
      assert old(Written(ups[r], binary[..], n, r, codelen, code, point));
    }
  }

  /** The second loop: climb from every word and store its code. */
  method AssignCodes(n: nat, parent: array<int>, binary: array<int>,
                     codelen: array<nat>, code: array2<int>, point: array2<int>, ghost ups: seq<seq<int>>)
    requires |ups| == n && parent.Length == binary.Length == 2 * n + 1
    requires forall a :: 0 <= a < n ==> Climbs(ups[a], n, a, parent[..]) && |ups[a]| <= MAX_CODE_LENGTH
    requires Tables(n, codelen, code, point)
    modifies codelen, code, point
    ensures forall a :: 0 <= a < n ==> Written(ups[a], old(binary[..]), n, a, codelen, code, point)
  {
    var bits, nodes := new int[MAX_CODE_LENGTH], new int[MAX_CODE_LENGTH];
    hide Climbs, Written;
    for a := 0 to n
      invariant parent[..] == old(parent[..]) && binary[..] == old(binary[..])
      invariant forall r :: 0 <= r < a ==> Written(ups[r], binary[..], n, r, codelen, code, point)
    {
      AssignCode(n, a, parent, binary, bits, nodes, codelen, code, point, ups);
    }
  }

  // ---- what the stored rows mean ----

  /** Row a of the vocabulary holds the code of word a and, shifted to inner-node numbers, its path. */
  ghost predicate Stored(t: Tree, a: nat, codelen: array<nat>, code: array2<int>, point: array2<int>)
    requires t.Valid() && a < t.n
    reads codelen, code, point
  {
    && a < codelen.Length && codelen[a] == t.Depth(a)
    && RowHolds(a, t.Depth(a), t.Code(a), t.Path(a), t.n, code, point)
  }

  ghost predicate RowHolds(a: nat, i: nat, c: seq<int>, p: seq<int>, n: int, code: array2<int>, point: array2<int>)
    reads code, point
  {
    && a < code.Length0 && a < point.Length0 && i == |c| && |p| == i + 1 && i < code.Length1 && i < point.Length1
    && (forall d :: 0 <= d < i ==> code[a, d] == c[d])
    && (forall d :: 0 <= d <= i ==> point[a, d] == p[d] - n)
  }

  lemma PathEnds(t: Tree, a: nat)
    requires t.Valid() && a < t.n
    ensures t.Path(a)[0] == 2 * t.n - 2 && t.Path(a)[t.Depth(a)] == a && 0 < t.Depth(a) && |t.binary| == t.Nodes()
  {
  }

  /** The climb from a word of the tree: its ancestors up to the root. */
  ghost function Ancestors(t: Tree, a: nat): (up: seq<int>)
    requires t.Valid() && a < t.n
    ensures |up| == t.Depth(a) + 1
  {
    seq(t.Depth(a) + 1, j requires 0 <= j <= t.Depth(a) => Ancestor(t, a, j))
  }

  lemma AncestorsClimb(t: Tree, a: nat, parent: seq<int>)
    requires t.Valid() && a < t.n && |parent| == 2 * t.n + 1 && t.parent == parent[..t.Nodes()]
    ensures Climbs(Ancestors(t, a), t.n, a, parent)
  {
    var up := Ancestors(t, a);
    AncestorsEnds(t, a);
    forall j | 0 <= j < t.Depth(a)
      ensures up[j + 1] == parent[up[j]] && up[j] != 2 * t.n - 2
    {
      AncestorStep(t, a, j);
    }
    hide Tree.Valid, Tree.Depth, Ancestor;
  }

  lemma AncestorsEnds(t: Tree, a: nat)
    requires t.Valid() && a < t.n
    ensures t.Depth(a) > 0 && Ancestors(t, a)[0] == a && Ancestors(t, a)[t.Depth(a)] == 2 * t.n - 2
    ensures forall j :: 0 <= j <= t.Depth(a) ==> 0 <= Ancestors(t, a)[j] < t.Nodes() == |t.binary|
  {
    TopAncestor(t, a);
    PathEnds(t, a);
    hide Tree.MergeOk;
  }

  /** Read backwards, the ancestors are the path and their bits the code. */
  lemma ReversedClimb(t: Tree, a: nat, d: nat)
    requires t.Valid() && a < t.n && d <= t.Depth(a)
    ensures t.Path(a)[d] == Ancestors(t, a)[t.Depth(a) - d]
    ensures forall j :: 0 <= j <= t.Depth(a) ==> 0 <= Ancestors(t, a)[j] < t.Nodes() == |t.binary|
    ensures d < t.Depth(a) ==> t.Code(a)[d] == t.binary[Ancestors(t, a)[t.Depth(a) - 1 - d]]
  {
    hide *;
    AncestorsEnds(t, a);
    PathEnds(t, a);
    AncestorAt(t, a, t.Depth(a) - d);
    if d > 0 {
      ClimbReadsPath(t, a, t.Depth(a) - d);
    }
    if d < t.Depth(a) {
      ClimbReadsPath(t, a, t.Depth(a) - 1 - d);
      AncestorAt(t, a, t.Depth(a) - 1 - d);
    }
  }

  lemma AncestorAt(t: Tree, a: nat, j: nat)
    requires t.Valid() && a < t.n && j <= t.Depth(a)
    ensures Ancestors(t, a)[j] == Ancestor(t, a, j)
  {
  }

  /** The reversed climb is the code and the path. */
  lemma WrittenIsStored(t: Tree, a: nat, bits: seq<int>, codelen: array<nat>, code: array2<int>, point: array2<int>)
    requires t.Valid() && a < t.n && |bits| == 2 * t.n + 1 && t.binary == bits[..t.Nodes()]
    requires Written(Ancestors(t, a), bits, t.n, a, codelen, code, point)
    ensures Stored(t, a, codelen, code, point)
  {
    hide Tree.Valid, Tree.Depth, Tree.Code, Tree.Path, Ancestor, Ancestors;
    forall d | 0 <= d <= t.Depth(a)
      ensures d < t.Depth(a) ==> code[a, d] == t.Code(a)[d]
      ensures point[a, d] == t.Path(a)[d] - t.n
    {
      ReversedClimb(t, a, d);
    }
  }

  /** Everything the caller of CreateBinaryTree may rely on for two or more words. */
  ghost predicate Coded(t: Tree, codelen: array<nat>, code: array2<int>, point: array2<int>)
    reads codelen, code, point
  {
    t.Valid() && codelen.Length == t.n && forall a :: 0 <= a < t.n ==> Stored(t, a, codelen, code, point)
  }

  /** Following bit d from inner node point[d] leads to point[d + 1], and at last to the word; every
      point before the last is an inner node. */
  lemma StoredRowDecodes(t: Tree, a: nat, d: nat, codelen: array<nat>, code: array2<int>, point: array2<int>)
    requires Coded(t, codelen, code, point) && a < t.n && d < codelen[a]
    ensures Stored(t, a, codelen, code, point)
    ensures point[a, 0] == t.n - 2 && 0 <= point[a, d] <= t.n - 2 && |t.left| == |t.right| == t.n - 1
    ensures code[a, d] == 0 || code[a, d] == 1
    ensures t.Child(point[a, d] + t.n, code[a, d]) == point[a, d + 1] + t.n
    ensures point[a, codelen[a]] + t.n == a
  {
    assert Stored(t, a, codelen, code, point);
    PathEnds(t, a);
    PathFollowsCode(t, a, d);
  }

  // ---- the whole procedure ----

  /** What is stored for a vocabulary of one word: a code of the one bit 0, and -1 for both points. */
  ghost predicate SingleCoded(codelen: array<nat>, code: array2<int>, point: array2<int>)
    requires Tables(1, codelen, code, point)
    reads codelen, code, point
  {
    codelen[0] == 1 && code[0, 0] == 0 && point[0, 0] == -1 && point[0, 1] == -1
  }

  /** The climbs of all words. */
  ghost function AllClimbs(cn: seq<int>): (ups: seq<seq<int>>)
    requires Countable(cn)
    ensures |ups| == |cn|
  {
    seq(|cn|, a requires 0 <= a < |cn| => if |cn| >= 2 then Ancestors(TreeFor(cn), a) else [0, 0])
  }

  lemma TreeClimbs(cn: seq<int>, parent: array<int>, binary: array<int>, a: nat)
    requires Countable(cn) && Fits(cn) && a < |cn| && |cn| >= 2 && TreeIn(TreeFor(cn), |cn|, parent, binary)
    ensures Climbs(AllClimbs(cn)[a], |cn|, a, parent[..]) && |AllClimbs(cn)[a]| <= MAX_CODE_LENGTH
  {
    AncestorsClimb(TreeFor(cn), a, parent[..]);
    assert parent[..][..2 * |cn| - 1] == parent[..2 * |cn| - 1];
    hide Tree.Valid, Climbs, TreeFor, Ancestors;
  }

  lemma AllWritten(cn: seq<int>, bits: seq<int>, codelen: array<nat>, code: array2<int>, point: array2<int>)
    requires Countable(cn) && |cn| >= 2 && codelen.Length == |cn| && |bits| == 2 * |cn| + 1
    requires TreeFor(cn).binary == bits[..2 * |cn| - 1]
    requires forall a :: 0 <= a < |cn| ==> Written(AllClimbs(cn)[a], bits, |cn|, a, codelen, code, point)
    ensures Coded(TreeFor(cn), codelen, code, point) && codelen[..] == TreeFor(cn).Depths()[..|cn|]
  {
    var t := TreeFor(cn);
    assert t.Nodes() == 2 * |cn| - 1;
    hide TreeFor, Countable, Tree.Valid, Written, Ancestors, RowHolds, Tree.Depth;
    forall a | 0 <= a < |cn|
      ensures Stored(t, a, codelen, code, point)
    {
      assert AllClimbs(cn)[a] == Ancestors(t, a);
      WrittenIsStored(t, a, bits, codelen, code, point);
    }
    CodelenIsDepth(t, codelen, code, point);
  }

  lemma CodelenIsDepth(t: Tree, codelen: array<nat>, code: array2<int>, point: array2<int>)
    requires Coded(t, codelen, code, point)
    ensures codelen[..] == t.Depths()[..t.n]
  {
    hide Tree.Valid, RowHolds, Tree.Depth;
    forall a | 0 <= a < t.n
      ensures codelen[a] == t.Depth(a)
    {
      assert Stored(t, a, codelen, code, point);
    }
  }

  /** Counts below the sentinel whose codes fit the arrays: the stored codes are those of the tree of
      the counts, and for sorted counts no binary tree over the words has a smaller total code length. */
  method CreateBinaryTree(cn: array<int>, codelen: array<nat>, code: array2<int>, point: array2<int>)
    requires Tables(cn.Length, codelen, code, point)
    requires Countable(cn[..]) && Fits(cn[..])
    modifies codelen, code, point
    ensures cn.Length == 1 ==> SingleCoded(codelen, code, point)
    ensures cn.Length >= 2 ==> Coded(TreeFor(old(cn[..])), codelen, code, point)
    ensures cn.Length >= 2 && Descending(old(cn[..])) ==> Minimal(old(cn[..]), codelen[..])
  {
    hide *;
    TableSizes(cn.Length, codelen, code, point);
    ghost var c := cn[..];
    var parent, binary := BuildTree(cn);
    ghost var ups, bits := AllClimbs(c), binary[..];
    forall a | 0 <= a < cn.Length
      ensures Climbs(ups[a], cn.Length, a, parent[..]) && |ups[a]| <= MAX_CODE_LENGTH
    {
      if cn.Length >= 2 {
        TreeClimbs(c, parent, binary, a);
      } else {
        SingleClimb(c, parent, binary);
      }
    }
    if cn.Length >= 2 {
      TreeBits(TreeFor(c), cn.Length, parent, binary);
    } else {
      NoBits(parent, binary);
    }
    AssignCodes(cn.Length, parent, binary, codelen, code, point, ups);
    if cn.Length >= 2 {
      AllWritten(c, bits, codelen, code, point);
      if Descending(c) {
        SortedIsMinimal(c);
      }
    } else if cn.Length == 1 {
      SingleWritten(c, bits, codelen, code, point);
    }
  }

  lemma TableSizes(n: nat, codelen: array<nat>, code: array2<int>, point: array2<int>)
    requires Tables(n, codelen, code, point)
    ensures codelen.Length == n
  {
  }

  lemma SingleClimb(cn: seq<int>, parent: array<int>, binary: array<int>)
    requires Countable(cn) && |cn| == 1 && Zeros(parent, binary) && parent.Length == 3
    ensures Climbs(AllClimbs(cn)[0], 1, 0, parent[..]) && |AllClimbs(cn)[0]| <= MAX_CODE_LENGTH
  {
  }

  lemma TreeBits(t: Tree, n: nat, parent: array<int>, binary: array<int>)
    requires TreeIn(t, n, parent, binary)
    ensures |binary[..]| == 2 * n + 1 && 0 <= 2 * n - 1 <= |binary[..]| && t.binary == binary[..][..2 * n - 1]
  {
    assert binary[..][..2 * n - 1] == binary[..2 * n - 1];
    hide Tree.Valid;
  }

  lemma NoBits(parent: array<int>, binary: array<int>)
    requires Zeros(parent, binary)
    ensures forall k :: 0 <= k < binary.Length ==> binary[..][k] == 0
  {
  }

  lemma SingleWritten(cn: seq<int>, bits: seq<int>, codelen: array<nat>, code: array2<int>, point: array2<int>)
    requires Countable(cn) && |cn| == 1 && Tables(1, codelen, code, point)
    requires |bits| == 3 && forall k :: 0 <= k < |bits| ==> bits[k] == 0
    requires Written(AllClimbs(cn)[0], bits, 1, 0, codelen, code, point)
    ensures SingleCoded(codelen, code, point)
  {
    assert AllClimbs(cn)[0] == [0, 0];
  }
}
