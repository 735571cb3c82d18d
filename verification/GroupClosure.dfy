/** Groups as the transitive closure of the pairs that were added. */
module GroupClosure {
  import opened GroupTable

  type Pairs = set<(int, int)>

  ghost predicate Edge(pairs: Pairs, x: int, y: int)
  {
    (x, y) in pairs || (y, x) in pairs
  }

  ghost predicate Chain(pairs: Pairs, path: seq<int>)
  {
    |path| >= 2 && forall i :: 0 <= i < |path| - 1 ==> Edge(pairs, path[i], path[i + 1])
  }

  ghost predicate ChainFrom(pairs: Pairs, path: seq<int>, x: int, y: int)
  {
    Chain(pairs, path) && path[0] == x && path[|path| - 1] == y
  }

  /** A chain of added pairs leads from x to y. */
  ghost predicate Linked(pairs: Pairs, x: int, y: int)
  {
    exists path :: ChainFrom(pairs, path, x, y)
  }

  /** Two documents share a group exactly when they are linked. */
  ghost predicate ClosureOf(group: map<int, nat>, pairs: Pairs)
  {
    forall x, y :: Same(group, x, y) <==> Linked(pairs, x, y)
  }

  lemma EdgeLinks(pairs: Pairs, x: int, y: int)
    requires Edge(pairs, x, y)
    ensures Linked(pairs, x, y) && Linked(pairs, y, x)
  {
    assert ChainFrom(pairs, [x, y], x, y);
    assert ChainFrom(pairs, [y, x], y, x);
  }

  lemma LinkedTransitive(pairs: Pairs, x: int, y: int, z: int)
    requires Linked(pairs, x, y) && Linked(pairs, y, z)
    ensures Linked(pairs, x, z)
  {
    var p :| ChainFrom(pairs, p, x, y);
    var q :| ChainFrom(pairs, q, y, z);
    var path := p + q[1..];
    forall i | 0 <= i < |path| - 1
      ensures Edge(pairs, path[i], path[i + 1])
    {
      if i < |p| - 1 {
        assert path[i] == p[i] && path[i + 1] == p[i + 1];
      } else {
        assert path[i] == q[i - (|p| - 1)] && path[i + 1] == q[i + 1 - (|p| - 1)];
      }
    }
    assert ChainFrom(pairs, path, x, z);
  }

  lemma LinkedSymmetric(pairs: Pairs, x: int, y: int)
    requires Linked(pairs, x, y)
    ensures Linked(pairs, y, x)
  {
    var p :| ChainFrom(pairs, p, x, y);
    var path := seq(|p|, i requires 0 <= i < |p| => p[|p| - 1 - i]);
    forall i | 0 <= i < |path| - 1
      ensures Edge(pairs, path[i], path[i + 1])
    {
      assert Edge(pairs, p[|p| - 2 - i], p[|p| - 2 - i + 1]);
    }
    assert ChainFrom(pairs, path, y, x);
  }

  lemma LinkedGrows(pairs: Pairs, more: Pairs, x: int, y: int)
    requires Linked(pairs, x, y) && pairs <= more
    ensures Linked(more, x, y)
  {
    var p :| ChainFrom(pairs, p, x, y);
    assert Chain(more, p) by {
      forall i | 0 <= i < |p| - 1
        ensures Edge(more, p[i], p[i + 1])
      {
        assert Edge(pairs, p[i], p[i + 1]);
      }
    }
    assert ChainFrom(more, p, x, y);
  }

  /** Being in one group contains every chain whose single steps it contains. */
  lemma {:induction false} SameAlongChain(group: map<int, nat>, pairs: Pairs, path: seq<int>, k: nat)
    requires Chain(pairs, path) && 0 < k < |path|
    requires forall x, y :: Edge(pairs, x, y) ==> Same(group, x, y)
    ensures Same(group, path[0], path[k])
    decreases k
  {
    assert Edge(pairs, path[k - 1], path[k]);
    if k > 1 {
      SameAlongChain(group, pairs, path, k - 1);
    }
  }

  lemma TouchedIsLinked(was: map<int, nat>, pairs: Pairs, more: Pairs, a: int, b: int, x: int)
    requires ClosureOf(was, pairs) && more == pairs + {(a, b)} && Touched(was, a, b, x)
    ensures Linked(more, x, a)
  {
    EdgeLinks(more, a, b);
    LinkedTransitive(more, a, b, a);
    if x != a && x != b {
      if Same(was, x, a) {
        assert Linked(pairs, x, a);
        LinkedGrows(pairs, more, x, a);
      } else {
        assert Same(was, x, b) && Linked(pairs, x, b);
        LinkedGrows(pairs, more, x, b);
        LinkedTransitive(more, x, b, a);
      }
    }
  }

  /** Joining two groups extends the closure by the new pair. */
  lemma JoinExtendsClosure(was: map<int, nat>, now: map<int, nat>, pairs: Pairs, a: int, b: int)
    requires ClosureOf(was, pairs) && Joins(was, now, a, b)
    ensures ClosureOf(now, pairs + {(a, b)})
  {
    var more := pairs + {(a, b)};
    forall x, y
      ensures Same(now, x, y) <==> Linked(more, x, y)
    {
      if Same(now, x, y) {
        if Same(was, x, y) {
          assert Linked(pairs, x, y);
          LinkedGrows(pairs, more, x, y);
        } else {
          TouchedIsLinked(was, pairs, more, a, b, x);
          TouchedIsLinked(was, pairs, more, a, b, y);
          LinkedSymmetric(more, y, a);
          LinkedTransitive(more, x, a, y);
        }
      }
      if Linked(more, x, y) {
        LinkedIsSame(was, now, pairs, a, b, x, y);
      }
    }
  }

  lemma LinkedIsSame(was: map<int, nat>, now: map<int, nat>, pairs: Pairs, a: int, b: int, x: int, y: int)
    requires ClosureOf(was, pairs) && Joins(was, now, a, b) && Linked(pairs + {(a, b)}, x, y)
    ensures Same(now, x, y)
  {
    var more := pairs + {(a, b)};
    forall p, q | Edge(more, p, q)
      ensures Same(now, p, q)
    {
      if Edge(pairs, p, q) {
        EdgeLinks(pairs, p, q);
        assert Same(was, p, q);
      } else {
        assert Touched(was, a, b, p) && Touched(was, a, b, q);
      }
    }
    var path :| ChainFrom(more, path, x, y);
    SameAlongChain(now, more, path, |path| - 1);
  }

  /** The pairs a table already knows. */
  ghost function KnownPairs(group: map<int, nat>): Pairs
  {
    set x, y | x in group && y in group && group[x] == group[y] :: (x, y)
  }

  /** Any table is the closure of the pairs it knows. */
  lemma KnownIsClosed(group: map<int, nat>)
    ensures ClosureOf(group, KnownPairs(group))
  {
    var pairs := KnownPairs(group);
    forall x, y
      ensures Same(group, x, y) <==> Linked(pairs, x, y)
    {
      if Same(group, x, y) {
        assert (x, y) in pairs;
        EdgeLinks(pairs, x, y);
      }
      if Linked(pairs, x, y) {
        var path :| ChainFrom(pairs, path, x, y);
        assert forall p, q :: Edge(pairs, p, q) ==> Same(group, p, q);
        SameAlongChain(group, pairs, path, |path| - 1);
      }
    }
  }

  lemma NothingLinked(x: int, y: int)
    ensures !Linked({}, x, y)
  {
    forall path
      ensures !ChainFrom({}, path, x, y)
    {
      assert |path| >= 2 ==> !Edge({}, path[0], path[1]);
    }
  }

  ghost function FirstPairs(docs: seq<(int, int)>, n: nat): Pairs
    requires n <= |docs|
  {
    set i | 0 <= i < n :: docs[i]
  }

  /** The maps of a table from empty on, when the pairs docs are added one after the other. */
  ghost predicate RunOfAdds(maps: seq<map<int, nat>>, docs: seq<(int, int)>)
  {
    && |maps| == |docs| + 1 && maps[0] == map[]
    && forall n :: 0 <= n < |docs| ==> Joins(maps[n], maps[n + 1], docs[n].0, docs[n].1)
  }

  /** After any run of AddDoc calls, two documents share a group exactly when a chain of the added pairs
      links them. */
  lemma {:induction false} GroupsAreClosure(maps: seq<map<int, nat>>, docs: seq<(int, int)>, n: nat)
    requires RunOfAdds(maps, docs) && n <= |docs|
    ensures ClosureOf(maps[n], FirstPairs(docs, n))
  {
    if n == 0 {
      assert FirstPairs(docs, 0) == {};
      forall x, y
        ensures !Linked({}, x, y)
      {
        NothingLinked(x, y);
      }
    } else {
      GroupsAreClosure(maps, docs, n - 1);
      JoinExtendsClosure(maps[n - 1], maps[n], FirstPairs(docs, n - 1), docs[n - 1].0, docs[n - 1].1);
      assert FirstPairs(docs, n) == FirstPairs(docs, n - 1) + {(docs[n - 1].0, docs[n - 1].1)};
    }
  }
}
