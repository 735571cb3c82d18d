/** The table of duplicate groups: a map from documents to groups, the member lists, and the ids of
    emptied groups waiting to be reused. */
module GroupTable {
  import opened Sequences

  /** The map and the member lists say the same. */
  ghost predicate Agree(group: map<int, nat>, info: seq<seq<int>>)
  {
    && (forall g, i :: 0 <= g < |info| && 0 <= i < |info[g]| ==> info[g][i] in group && group[info[g][i]] == g)
    && (forall d :: d in group ==> group[d] < |info| && d in info[group[d]])
  }

  /** Recycled ids are distinct and name empty groups. */
  ghost predicate Recyclable(info: seq<seq<int>>, free: seq<nat>)
  {
    && Distinct(free)
    && forall i :: 0 <= i < |free| ==> free[i] < |info| && info[free[i]] == []
  }

  ghost predicate Consistent(group: map<int, nat>, info: seq<seq<int>>, free: seq<nat>)
  {
    Agree(group, info) && Recyclable(info, free)
  }

  /** No group lists a document twice. */
  ghost predicate Once(info: seq<seq<int>>)
  {
    forall g :: 0 <= g < |info| ==> Distinct(info[g])
  }

  /** Two documents are in one group. */
  predicate Same(group: map<int, nat>, x: int, y: int)
  {
    x in group && y in group && group[x] == group[y]
  }

  /** x is one of the two documents or in the group of one of them. */
  predicate Touched(group: map<int, nat>, a: int, b: int, x: int)
  {
    x == a || x == b || Same(group, x, a) || Same(group, x, b)
  }

  /** now is was with the groups of a and b joined. */
  ghost predicate Joins(was: map<int, nat>, now: map<int, nat>, a: int, b: int)
  {
    forall x, y :: Same(now, x, y) <==> Same(was, x, y) || (Touched(was, a, b, x) && Touched(was, a, b, y))
  }

  /** s without any occurrence of x. */
  function Removed(s: seq<int>, x: int): (r: seq<int>)
    ensures forall y :: y in r <==> y in s && y != x
    ensures forall i :: 0 <= i < |r| ==> r[i] in s && r[i] != x
    ensures |r| <= |s|
  {
    if s == [] then [] else
      var rest := Removed(s[..|s| - 1], x);
      if s[|s| - 1] == x then rest else
        assert forall y :: y in s <==> y in s[..|s| - 1] || y == s[|s| - 1];
        rest + [s[|s| - 1]]
  }

  lemma {:induction false} RemovedStaysDistinct(s: seq<int>, x: int)
    requires Distinct(s)
    ensures Distinct(Removed(s, x))
  {
    if s != [] {
      var front := s[..|s| - 1];
      RemovedStaysDistinct(front, x);
      assert s == front + [s[|s| - 1]];
      assert s[|s| - 1] !in front;
    }
  }

  lemma {:induction false} NothingRemoved(s: seq<int>, x: int)
    requires x !in s
    ensures Removed(s, x) == s
  {
    if s != [] {
      NothingRemoved(s[..|s| - 1], x);
      assert s == s[..|s| - 1] + [s[|s| - 1]];
    }
  }

  /** Taking a document out of its own list takes it out of all lists. */
  lemma RemovedElsewhere(group: map<int, nat>, info: seq<seq<int>>, d: int, g: nat)
    requires Agree(group, info) && g < |info| && (d in group ==> g != group[d])
    ensures Removed(info[g], d) == info[g]
  {
    NothingRemoved(info[g], d);
  }

  /** The lists without a document. */
  ghost predicate Without(info: seq<seq<int>>, d: int, now: seq<seq<int>>)
  {
    |now| == |info| && forall g :: 0 <= g < |info| ==> now[g] == Removed(info[g], d)
  }

  lemma WithoutAgrees(group: map<int, nat>, info: seq<seq<int>>, free: seq<nat>, d: int, now: seq<seq<int>>)
    requires Consistent(group, info, free) && Without(info, d, now)
    ensures Consistent(group - {d}, now, free)
  {
    forall x | x in group - {d}
      ensures x in now[group[x]]
    {
      assert x in info[group[x]];
    }
  }

  lemma SameWithout(group: map<int, nat>, d: int)
    ensures forall x, y :: Same(group - {d}, x, y) <==> x != d && y != d && Same(group, x, y)
  {
  }

  lemma WithoutOnce(info: seq<seq<int>>, d: int, now: seq<seq<int>>)
    requires Without(info, d, now) && Once(info)
    ensures Once(now)
  {
    forall g | 0 <= g < |now|
      ensures Distinct(now[g])
    {
      RemovedStaysDistinct(info[g], d);
    }
  }

  lemma RemovedAgrees(group: map<int, nat>, info: seq<seq<int>>, free: seq<nat>, d: int)
    requires Consistent(group, info, free)
    ensures d in group ==> group[d] < |info|
    ensures var now := if d in group then info[group[d] := Removed(info[group[d]], d)] else info;
            Without(info, d, now) && Consistent(group - {d}, now, free) && (Once(info) ==> Once(now))
    ensures d !in group ==> group - {d} == group
  {
    var now := if d in group then info[group[d] := Removed(info[group[d]], d)] else info;
    forall g | 0 <= g < |info|
      ensures now[g] == Removed(info[g], d)
    {
      if !(d in group && g == group[d]) {
        RemovedElsewhere(group, info, d, g);
      }
    }
    WithoutAgrees(group, info, free, d, now);
    if Once(info) {
      WithoutOnce(info, d, now);
    }
    hide Agree, Recyclable, Once, Removed;
  }

  /** The listed documents have been moved to a group. */
  ghost predicate Moved(was: map<int, nat>, now: map<int, nat>, docs: seq<int>, to: nat)
  {
    && now.Keys == was.Keys + (set d | d in docs)
    && forall d :: d in now ==> now[d] == if d in docs then to else was[d]
  }

  /** The lists after the members of one group have been appended to another. */
  function Merged(info: seq<seq<int>>, from: nat, to: nat): seq<seq<int>>
    requires from < |info| && to < |info|
  {
    info[to := info[to] + info[from]][from := []]
  }

  lemma MergeListsAgree(was: map<int, nat>, now: map<int, nat>, info: seq<seq<int>>, from: nat, to: nat, g: nat, i: nat)
    requires Agree(was, info) && from < |info| && to < |info| && from != to && Moved(was, now, info[from], to)
    requires g < |info| && i < |Merged(info, from, to)[g]|
    ensures Merged(info, from, to)[g][i] in now && now[Merged(info, from, to)[g][i]] == g
  {
    if g == to {
      if i < |info[to]| {
        assert Merged(info, from, to)[g][i] == info[to][i];
      } else {
        assert Merged(info, from, to)[g][i] == info[from][i - |info[to]|];
      }
    } else {
      assert Merged(info, from, to)[g][i] == info[g][i];
    }
  }

  lemma MergeMapAgrees(was: map<int, nat>, now: map<int, nat>, info: seq<seq<int>>, from: nat, to: nat, d: int)
    requires Agree(was, info) && from < |info| && to < |info| && from != to && Moved(was, now, info[from], to)
    requires d in now
    ensures now[d] < |info| && d in Merged(info, from, to)[now[d]]
  {
    var after := Merged(info, from, to);
    if d in info[from] {
      assert d in after[to];
    } else {
      assert d in info[was[d]];
      assert was[d] == to ==> d in after[to];
    }
  }

  lemma MergeFacts(group: map<int, nat>, info: seq<seq<int>>, free: seq<nat>, from: nat, to: nat, a: int, b: int)
    requires Consistent(group, info, free) && a in group && b in group && {group[a], group[b]} == {from, to}
    ensures Agree(group, info) && from < |info| && to < |info| && info[from] != [] && info[to] != []
  {
    assert from in {group[a], group[b]} && to in {group[a], group[b]};
  }

  lemma NothingMoved(was: map<int, nat>, to: nat)
    ensures Moved(was, was, [], to)
  {
  }

  lemma MovedNext(was: map<int, nat>, now: map<int, nat>, docs: seq<int>, i: nat, to: nat)
    requires i < |docs| && Moved(was, now, docs[..i], to)
    ensures Moved(was, (now - {docs[i]})[docs[i] := to], docs[..i + 1], to)
  {
    assert docs[..i + 1] == docs[..i] + [docs[i]];
  }

  lemma MergeIsConsistent(was: map<int, nat>, now: map<int, nat>, info: seq<seq<int>>, free: seq<nat>, from: nat,
                          to: nat)
    requires Consistent(was, info, free) && from < |info| && to < |info| && from != to
    requires Moved(was, now, info[from], to) && info[from] != [] && info[to] != []
    ensures Consistent(now, Merged(info, from, to), free + [from])
  {
    var after := Merged(info, from, to);
    forall g, i | 0 <= g < |after| && 0 <= i < |after[g]|
      ensures after[g][i] in now && now[after[g][i]] == g
    {
      MergeListsAgree(was, now, info, from, to, g, i);
    }
    forall d | d in now
      ensures now[d] < |after| && d in after[now[d]]
    {
      MergeMapAgrees(was, now, info, from, to, d);
    }
    hide Moved;
  }

  /** Two groups have no document in common, so merging keeps lists without repetitions. */
  lemma MergeOnce(group: map<int, nat>, info: seq<seq<int>>, from: nat, to: nat)
    requires Agree(group, info) && from < |info| && to < |info| && from != to
    ensures Once(Merged(info, from, to)) <==> Once(info)
  {
    var a, b, after := info[to], info[from], Merged(info, from, to);
    assert forall i, j :: 0 <= i < |a| && 0 <= j < |b| ==> group[a[i]] == to && group[b[j]] == from;
    JoinedDistinct(a, b);
    hide Agree, Distinct;
    assert after[to] == a + b && after[from] == [];
    assert forall g :: 0 <= g < |info| && g != to && g != from ==> after[g] == info[g];
    assert Distinct<int>([]) by { EmptyDistinct(); }
  }

  lemma EmptyDistinct()
    ensures Distinct<int>([])
  {
  }

  lemma JoinedDistinct(a: seq<int>, b: seq<int>)
    requires forall i, j :: 0 <= i < |a| && 0 <= j < |b| ==> a[i] != b[j]
    ensures Distinct(a + b) <==> Distinct(a) && Distinct(b)
  {
    var c := a + b;
    if Distinct(c) {
      assert forall i :: 0 <= i < |a| ==> c[i] == a[i];
      forall i, j | 0 <= i < j < |b|
        ensures b[i] != b[j]
      {
        assert c[|a| + i] == b[i] && c[|a| + j] == b[j];
      }
    }
  }

  // ---- a new group, and a new member ----

  /** The lists with the two documents as group id, which is new or recycled. */
  ghost predicate Opens(info: seq<seq<int>>, free: seq<nat>, id: nat, a: int, b: int, now: seq<seq<int>>,
                        left: seq<nat>)
  {
    if free == [] then id == |info| && now == info + [[a, b]] && left == free
    else id == free[0] && id < |info| && now == info[id := [a, b]] && left == free[1..]
  }

  /** The lists and the free ids after a and b were put together: a new group of the two, one more member at the
      end of a list, or the members of the group with the larger id behind those of the other. */
  ghost predicate Recorded(group: map<int, nat>, info: seq<seq<int>>, free: seq<nat>, a: int, b: int,
                           now: seq<seq<int>>, left: seq<nat>)
  {
    if a !in group && b !in group then exists id :: Opens(info, free, id, a, b, now, left)
    else if a !in group then Appends(info, free, group[b], a, now, left)
    else if b !in group then Appends(info, free, group[a], b, now, left)
    else if group[a] == group[b] then now == info && left == free
    else if group[a] < group[b] then Absorbs(info, free, group[b], group[a], now, left)
    else Absorbs(info, free, group[a], group[b], now, left)
  }

  ghost predicate Appends(info: seq<seq<int>>, free: seq<nat>, id: nat, docid: int, now: seq<seq<int>>, left: seq<nat>)
  {
    id < |info| && now == info[id := info[id] + [docid]] && left == free
  }

  ghost predicate Absorbs(info: seq<seq<int>>, free: seq<nat>, from: nat, to: nat, now: seq<seq<int>>, left: seq<nat>)
  {
    from < |info| && to < |info| && now == Merged(info, from, to) && left == free + [from]
  }

  lemma OpenedIsConsistent(group: map<int, nat>, info: seq<seq<int>>, free: seq<nat>, id: nat, a: int, b: int,
                           now: seq<seq<int>>, left: seq<nat>)
    requires Consistent(group, info, free) && a !in group && b !in group && Opens(info, free, id, a, b, now, left)
    ensures Consistent(group[a := id][b := id], now, left)
  {
    var after := group[a := id][b := id];
    assert forall g :: 0 <= g < |now| && g != id ==> now[g] == info[g];
    assert now[id] == [a, b];
    forall d | d in after
      ensures after[d] < |now| && d in now[after[d]]
    {
      if d == a || d == b {
        assert now[id][0] == a && now[id][1] == b;
      } else {
        assert d in info[group[d]] && group[d] != id;
      }
    }
  }

  lemma OpenedJoins(group: map<int, nat>, info: seq<seq<int>>, free: seq<nat>, id: nat, a: int, b: int)
    requires Consistent(group, info, free) && a !in group && b !in group
    requires free == [] ==> id == |info|
    requires free != [] ==> id == free[0]
    ensures Joins(group, group[a := id][b := id], a, b)
  {
    forall d | d in group
      ensures group[d] != id
    {
      var i :| 0 <= i < |info[group[d]]| && info[group[d]][i] == d;
    }
  }

  lemma OpenedOnce(info: seq<seq<int>>, free: seq<nat>, id: nat, a: int, b: int, now: seq<seq<int>>, left: seq<nat>)
    requires Recyclable(info, free) && Opens(info, free, id, a, b, now, left)
    ensures Once(now) <==> Once(info) && a != b
  {
    assert forall g :: 0 <= g < |now| && g != id ==> now[g] == info[g];
    assert now[id] == [a, b];
    assert Distinct([a, b]) <==> a != b by {
      assert [a, b][0] == a && [a, b][1] == b;
    }
    EmptyDistinct();
    assert id < |info| ==> info[id] == [];
    hide Distinct, Recyclable, Opens;
  }

  lemma AppendedIsConsistent(group: map<int, nat>, info: seq<seq<int>>, free: seq<nat>, id: nat, member: int, d: int)
    requires Consistent(group, info, free) && member in group && group[member] == id && d !in group
    ensures id < |info| && Consistent(group[d := id], info[id := info[id] + [d]], free)
    ensures Joins(group, group[d := id], member, d)
  {
    var now, after := info[id := info[id] + [d]], group[d := id];
    assert now[id][|info[id]|] == d;
    forall x | x in after
      ensures after[x] < |now| && x in now[after[x]]
    {
      if x != d {
        assert x in info[group[x]];
      }
    }
  }

  lemma AppendedOnce(group: map<int, nat>, info: seq<seq<int>>, id: nat, d: int)
    requires Agree(group, info) && id < |info| && d !in group
    ensures Once(info[id := info[id] + [d]]) <==> Once(info)
  {
    var now := info[id := info[id] + [d]];
    assert forall i :: 0 <= i < |info[id]| ==> info[id][i] in group;
    assert [d][0] == d;
    JoinedDistinct(info[id], [d]);
    assert Distinct([d]);
    hide Distinct, Agree;
    assert now[id] == info[id] + [d];
    assert forall g :: 0 <= g < |info| && g != id ==> now[g] == info[g];
  }

  lemma MergeJoins(was: map<int, nat>, now: map<int, nat>, info: seq<seq<int>>, from: nat, to: nat, a: int, b: int)
    requires Agree(was, info) && from < |info| && to < |info| && from != to && Moved(was, now, info[from], to)
    requires a in was && b in was && {was[a], was[b]} == {from, to}
    ensures Joins(was, now, a, b)
  {
    forall d | d in was
      ensures now[d] == if was[d] == from then to else was[d]
    {
    }
    assert was[a] in {from, to} && was[b] in {from, to} && was[a] != was[b];
  }

  /** No document is listed in two groups. */
  ghost predicate Disjoint(info: seq<seq<int>>)
  {
    forall g, h, i, j ::
      0 <= g < |info| && 0 <= h < |info| && 0 <= i < |info[g]| && 0 <= j < |info[h]| && info[g][i] == info[h][j] ==>
        g == h
  }

  lemma ListEntryAgrees(group: map<int, nat>, info: seq<seq<int>>, g: nat, i: nat)
    requires Disjoint(info) && g < |info| && i < |info[g]| && Agree(group, info[..g] + [info[g][..i]])
    ensures Agree(group[info[g][i] := g], info[..g] + [info[g][..i + 1]])
  {
    var was, now := info[..g] + [info[g][..i]], info[..g] + [info[g][..i + 1]];
    var after := group[info[g][i] := g];
    forall h, j | 0 <= h < |now| && 0 <= j < |now[h]|
      ensures now[h][j] in after && after[now[h][j]] == h
    {
      assert now[h][j] == info[h][j];
      if h < g || j < i {
        assert was[h][j] == now[h][j];
      }
    }
    forall d | d in after
      ensures after[d] < |now| && d in now[after[d]]
    {
      if d == info[g][i] {
        assert now[g][i] == d;
      } else {
        var j :| 0 <= j < |was[group[d]]| && was[group[d]][j] == d;
        assert now[group[d]][j] == d;
      }
    }
  }

  /** The member lists determine the map: rebuilding it after a save and a load restores it. */
  lemma ListsDetermineMap(group: map<int, nat>, other: map<int, nat>, info: seq<seq<int>>)
    requires Agree(group, info) && Agree(other, info)
    ensures group == other
  {
    forall d | d in group
      ensures d in other && other[d] == group[d]
    {
      var i :| 0 <= i < |info[group[d]]| && info[group[d]][i] == d;
    }
    forall d | d in other
      ensures d in group
    {
      var i :| 0 <= i < |info[other[d]]| && info[other[d]][i] == d;
    }
  }

  class Table {
    var docidGroup: map<int, nat>
    var groupInfo: seq<seq<int>>
    var validGroupid: seq<nat>

    ghost predicate Valid()
      reads this
    {
      Consistent(docidGroup, groupInfo, validGroupid)
    }

    constructor ()
      ensures Valid() && Once(groupInfo) && docidGroup == map[] && groupInfo == [] && validGroupid == []
    {
      docidGroup, groupInfo, validGroupid := map[], [], [];
    }

    predicate IsSameGroup(docid1: int, docid2: int)
      reads this
    {
      Same(docidGroup, docid1, docid2)
    }

    /** A group for two documents that have none, under a recycled id if there is one. */
    method NewGroup(docid1: int, docid2: int)
      requires Valid() && docid1 !in docidGroup && docid2 !in docidGroup
      modifies this
      ensures Valid() && Joins(old(docidGroup), docidGroup, docid1, docid2)
      ensures Once(groupInfo) <==> Once(old(groupInfo)) && docid1 != docid2
      ensures exists id :: Opens(old(groupInfo), old(validGroupid), id, docid1, docid2, groupInfo, validGroupid)
    {
      ghost var group, info, free := docidGroup, groupInfo, validGroupid;
      var id;
      if |validGroupid| == 0 {
        id := |groupInfo|;
        docidGroup := docidGroup[docid1 := id][docid2 := id];
        groupInfo := groupInfo + [[docid1, docid2]];
      } else {
        id := validGroupid[0];
        validGroupid := validGroupid[1..];
        docidGroup := docidGroup[docid1 := id][docid2 := id];
        groupInfo := groupInfo[id := [docid1, docid2]];
      }
      assert Opens(info, free, id, docid1, docid2, groupInfo, validGroupid);
      OpenedIsConsistent(group, info, free, id, docid1, docid2, groupInfo, validGroupid);
      OpenedJoins(group, info, free, id, docid1, docid2);
      OpenedOnce(info, free, id, docid1, docid2, groupInfo, validGroupid);
      hide Agree, Joins, Once;
    }

    /** A document without a group enters the group of another. */
    method Extend(id: nat, member: int, docid: int)
      requires Valid() && member in docidGroup && docidGroup[member] == id && docid !in docidGroup
      modifies this
      ensures Valid() && Joins(old(docidGroup), docidGroup, member, docid)
      ensures Joins(old(docidGroup), docidGroup, docid, member)
      ensures Once(groupInfo) <==> Once(old(groupInfo))
      ensures Appends(old(groupInfo), old(validGroupid), id, docid, groupInfo, validGroupid)
    {
      AppendedIsConsistent(docidGroup, groupInfo, validGroupid, id, member, docid);
      AppendedOnce(docidGroup, groupInfo, id, docid);
      docidGroup := docidGroup[docid := id];
      groupInfo := groupInfo[id := groupInfo[id] + [docid]];
    }

    /** Moves all members of one group to another; the emptied id is recycled. */
    method Merge(from: nat, to: nat, docid1: int, docid2: int)
      requires Valid() && from != to && docid1 in docidGroup && docid2 in docidGroup
      requires {docidGroup[docid1], docidGroup[docid2]} == {from, to}
      modifies this
      ensures Valid() && Joins(old(docidGroup), docidGroup, docid1, docid2)
      ensures Once(groupInfo) <==> Once(old(groupInfo))
      ensures Absorbs(old(groupInfo), old(validGroupid), from, to, groupInfo, validGroupid)
    {
      hide Consistent, Agree, Moved, Joins, Once, Recyclable;
      ghost var was, lists := docidGroup, groupInfo;
      MergeFacts(was, lists, validGroupid, from, to, docid1, docid2);
      NothingMoved(was, to);
      assert lists[from][..0] == [];
      groupInfo := groupInfo[to := groupInfo[to] + groupInfo[from]];
      for i := 0 to |groupInfo[from]|
        invariant groupInfo == lists[to := lists[to] + lists[from]] && validGroupid == old(validGroupid)
        invariant Moved(was, docidGroup, lists[from][..i], to)
      {
        var docid := groupInfo[from][i];
        MovedNext(was, docidGroup, lists[from], i, to);
        docidGroup := docidGroup - {docid};
        docidGroup := docidGroup[docid := to];
      }
      assert lists[from][..|lists[from]|] == lists[from];
      groupInfo := groupInfo[from := []];
      validGroupid := validGroupid + [from];
      MergeIsConsistent(was, docidGroup, lists, old(validGroupid), from, to);
      MergeJoins(was, docidGroup, lists, from, to, docid1, docid2);
      MergeOnce(was, lists, from, to);
    }

    /** Puts two documents into one group; false when they already were. A document that is in no group
        and is put together with itself is the one case in which a list gets an entry twice. */
    method AddDoc(docid1: int, docid2: int) returns (result: bool)
      requires Valid()
      modifies this
      ensures Valid() && Joins(old(docidGroup), docidGroup, docid1, docid2)
      ensures result == !Same(old(docidGroup), docid1, docid2)
      ensures Once(groupInfo) <==> Once(old(groupInfo)) && (docid1 != docid2 || docid1 in old(docidGroup))
      ensures Recorded(old(docidGroup), old(groupInfo), old(validGroupid), docid1, docid2, groupInfo, validGroupid)
    {
      hide Once, Opens, Absorbs, Appends;
      result := true;
      if docid1 !in docidGroup {
        if docid2 !in docidGroup {
          NewGroup(docid1, docid2);
        } else {
          Extend(docidGroup[docid2], docid2, docid1);
        }
      } else if docid2 !in docidGroup {
        Extend(docidGroup[docid1], docid1, docid2);
      } else {
        var groupid1, groupid2 := docidGroup[docid1], docidGroup[docid2];
        if groupid1 != groupid2 {
          var from, to := groupid2, groupid1;
          if groupid1 > groupid2 {
            from, to := groupid1, groupid2;
          }
          Merge(from, to, docid1, docid2);
        } else {
          result := false;
        }
      }
    }

    /** Takes one document out of its group; false when it had none. */
    method RemoveDoc(docid: int) returns (removed: bool)
      requires Valid()
      modifies this
      ensures Valid() && removed == (docid in old(docidGroup)) && (Once(old(groupInfo)) ==> Once(groupInfo))
      ensures docidGroup == old(docidGroup) - {docid} && validGroupid == old(validGroupid)
      ensures Without(old(groupInfo), docid, groupInfo)
      ensures forall x, y :: Same(docidGroup, x, y) <==> x != docid && y != docid && Same(old(docidGroup), x, y)
    {
      RemovedAgrees(docidGroup, groupInfo, validGroupid, docid);
      SameWithout(docidGroup, docid);
      hide Consistent, Once, Without, Same, Removed;
      if docid in docidGroup {
        var id := docidGroup[docid];
        docidGroup := docidGroup - {docid};
        groupInfo := groupInfo[id := Removed(groupInfo[id], docid)];
        return true;
      }
      return false;
    }

    /** Rebuilds the map from the member lists, as after loading them. */
    method InitMap()
      requires Disjoint(groupInfo)
      modifies `docidGroup
      ensures Agree(docidGroup, groupInfo)
    {
      docidGroup := map[];
      for g := 0 to |groupInfo|
        invariant Agree(docidGroup, groupInfo[..g])
      {
        for i := 0 to |groupInfo[g]|
          invariant Agree(docidGroup, groupInfo[..g] + [groupInfo[g][..i]])
        {
          ListEntryAgrees(docidGroup, groupInfo, g, i);
          docidGroup := docidGroup[groupInfo[g][i] := g];
        }
        assert groupInfo[g][..|groupInfo[g]|] == groupInfo[g];
        assert groupInfo[..g] + [groupInfo[g]] == groupInfo[..g + 1];
      }
      assert groupInfo[..|groupInfo|] == groupInfo;
    }
  }
}
