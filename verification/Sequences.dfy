/** What several components ask of lists. */
module Sequences {

  ghost predicate Distinct<T>(s: seq<T>)
  {
    forall i, j :: 0 <= i < j < |s| ==> s[i] != s[j]
  }

  /** Inserting an item adds it once, wherever it goes. */
  lemma InsertedItems<T>(s: seq<T>, p: nat, x: T)
    requires p <= |s|
    ensures multiset(s[..p] + [x] + s[p..]) == multiset(s) + multiset{x}
  {
    assert s == s[..p] + s[p..];
  }

  /** Three stretches hold an item as often as the whole list. */
  lemma ThreeParts<T>(s: seq<T>, a: nat, b: nat, x: T)
    requires a <= b <= |s|
    ensures multiset(s)[x] == multiset(s[..a])[x] + multiset(s[a..b])[x] + multiset(s[b..])[x]
  {
    assert s == s[..a] + s[a..];
    assert s[a..] == s[a..b] + s[b..];
  }

  lemma TwiceThere<T>(s: seq<T>, i: nat, j: nat)
    requires i < j < |s| && s[i] == s[j]
    ensures multiset(s)[s[i]] >= 2
  {
    assert s == s[..j] + s[j..];
    assert s[i] == s[..j][i] && s[j] == s[j..][0];
  }

  lemma OnceThere<T>(s: seq<T>, i: nat)
    requires Distinct(s) && i < |s|
    ensures multiset(s)[s[i]] == 1
  {
    assert s == s[..i] + [s[i]] + s[i + 1..];
  }

  /** Rearranging distinct items keeps them distinct. */
  lemma SameItemsDistinct<T>(s: seq<T>, t: seq<T>)
    requires Distinct(s) && multiset(s) == multiset(t)
    ensures Distinct(t)
  {
    forall i, j | 0 <= i < j < |t|
      ensures t[i] != t[j]
    {
      assert t[i] in multiset(t);
      var k :| 0 <= k < |s| && s[k] == t[i];
      OnceThere(s, k);
      if t[i] == t[j] {
        TwiceThere(t, i, j);
      }
    }
  }

  lemma NextItem<T>(s: seq<T>, i: nat)
    requires i < |s|
    ensures multiset(s[..i + 1]) == multiset(s[..i]) + multiset{s[i]}
  {
    assert s[..i + 1] == s[..i] + [s[i]];
  }
}
