/** Finite sums of integers and reals, stated over prefixes, with the point-update laws
    that every incremental algorithm of the model relies on. */
module Sums {

  /** Sum of the first n integers of s. */
  function SumTo(s: seq<int>, n: nat): int
    requires n <= |s|
  {
    if n == 0 then 0 else SumTo(s, n - 1) + s[n - 1]
  }

  function Sum(s: seq<int>): int
  {
    SumTo(s, |s|)
  }

  lemma {:induction false} SumToUpdate(s: seq<int>, i: nat, v: int, n: nat)
    requires i < |s| && n <= |s|
    ensures SumTo(s[i := v], n) == SumTo(s, n) + (if i < n then v - s[i] else 0)
  {
    if n > 0 {
      SumToUpdate(s, i, v, n - 1);
    }
  }

  lemma SumUpdate(s: seq<int>, i: nat, v: int)
    requires i < |s|
    ensures Sum(s[i := v]) == Sum(s) + v - s[i]
  {
    SumToUpdate(s, i, v, |s|);
  }

  lemma {:induction false} SumToSame(s: seq<int>, t: seq<int>, n: nat)
    requires n <= |s| && n <= |t|
    requires forall k :: 0 <= k < n ==> s[k] == t[k]
    ensures SumTo(s, n) == SumTo(t, n)
  {
    if n > 0 {
      SumToSame(s, t, n - 1);
    }
  }

  lemma {:induction false} SumToNonNegative(s: seq<int>, n: nat)
    requires n <= |s|
    requires forall k :: 0 <= k < |s| ==> 0 <= s[k]
    ensures 0 <= SumTo(s, n)
    ensures forall k :: 0 <= k < n ==> s[k] <= SumTo(s, n)
  {
    if n > 0 {
      SumToNonNegative(s, n - 1);
    }
  }

  lemma {:induction false} SumToConstant(s: seq<int>, n: nat, c: int)
    requires n <= |s|
    requires forall k :: 0 <= k < n ==> s[k] == c
    ensures SumTo(s, n) == n * c
  {
    if n > 0 {
      SumToConstant(s, n - 1, c);
    }
  }

  lemma {:induction false} SumToAtMostTwo(s: seq<int>, i: int, j: int, n: nat)
    requires n <= |s| && i != j
    requires forall k :: 0 <= k < |s| && k != i && k != j ==> s[k] == 0
    ensures SumTo(s, n) == (if 0 <= i < n then s[i] else 0) + (if 0 <= j < n then s[j] else 0)
  {
    if n > 0 {
      SumToAtMostTwo(s, i, j, n - 1);
    }
  }

  lemma {:induction false} SumToOne(s: seq<int>, i: nat, n: nat)
    requires n <= |s| && forall k :: 0 <= k < n && k != i ==> s[k] == 0
    ensures SumTo(s, n) == if i < n then s[i] else 0
  {
    if n > 0 {
      SumToOne(s, i, n - 1);
    }
  }

  lemma {:induction false} SumPlus(s: seq<int>, t: seq<int>, u: seq<int>, n: nat)
    requires n <= |s| && n <= |t| && n <= |u| && forall k :: 0 <= k < n ==> u[k] == s[k] + t[k]
    ensures SumTo(u, n) == SumTo(s, n) + SumTo(t, n)
  {
    if n > 0 {
      SumPlus(s, t, u, n - 1);
    }
  }

  lemma {:induction false} ZeroTail(s: seq<int>, m: nat, n: nat)
    requires m <= n <= |s| && forall k :: m <= k < n ==> s[k] == 0
    ensures SumTo(s, n) == SumTo(s, m)
    decreases n
  {
    if m < n {
      ZeroTail(s, m, n - 1);
    }
  }
}
