/** The increasing index vectors over 0..size-1 and the routine that steps from one to the next. */
module Combinations {

  /** vec chooses |vec| of the numbers below size, in increasing order. */
  ghost predicate Increasing(vec: seq<nat>, size: nat)
  {
    && (forall i :: 0 <= i < |vec| ==> vec[i] < size)
    && (forall i, j :: 0 <= i < j < |vec| ==> vec[i] < vec[j])
  }

  /** a comes before b: they first differ at d, where a is smaller. */
  ghost predicate DifferAt(a: seq<nat>, b: seq<nat>, d: int)
    requires |a| == |b|
  {
    0 <= d < |a| && a[d] < b[d] && forall i :: 0 <= i < d ==> a[i] == b[i]
  }

  ghost predicate LexLess(a: seq<nat>, b: seq<nat>)
    requires |a| == |b|
  {
    exists d :: DifferAt(a, b, d)
  }

  lemma LexTotal(a: seq<nat>, b: seq<nat>)
    requires |a| == |b|
    ensures a == b || LexLess(a, b) || LexLess(b, a)
  {
    if a != b {
      var d := FirstDifference(a, b);
      assert DifferAt(a, b, d) || DifferAt(b, a, d);
    }
  }

  lemma FirstDifference(a: seq<nat>, b: seq<nat>) returns (d: nat)
    requires |a| == |b| && a != b
    ensures d < |a| && a[d] != b[d] && forall i :: 0 <= i < d ==> a[i] == b[i]
  {
    if a[0] != b[0] {
      d := 0;
    } else {
      assert a == [a[0]] + a[1..] && b == [b[0]] + b[1..];
      d := FirstDifference(a[1..], b[1..]);
      assert forall i :: 0 <= i < d ==> a[i + 1] == a[1..][i] == b[1..][i] == b[i + 1];
      d := d + 1;
    }
  }

  lemma LexTransitive(a: seq<nat>, b: seq<nat>, c: seq<nat>)
    requires |a| == |b| == |c| && LexLess(a, b) && LexLess(b, c)
    ensures LexLess(a, c)
  {
    var d :| DifferAt(a, b, d);
    var e :| DifferAt(b, c, e);
    assert DifferAt(a, c, if d < e then d else e);
  }

  /** The largest value position i of an increasing vector can take. */
  function Top(length: nat, size: nat, i: int): int
  {
    size - (length - i)
  }

  lemma {:induction false} AtMostTop(vec: seq<nat>, size: nat, i: int)
    requires Increasing(vec, size) && 0 <= i < |vec|
    ensures vec[i] <= Top(|vec|, size, i)
    decreases |vec| - i
  {
    if i < |vec| - 1 {
      AtMostTop(vec, size, i + 1);
    }
  }

  lemma {:induction false} AtLeastRun(vec: seq<nat>, size: nat, i: int, j: int)
    requires Increasing(vec, size) && 0 <= i <= j < |vec|
    ensures vec[i] + (j - i) <= vec[j]
    decreases j
  {
    if i < j {
      AtLeastRun(vec, size, i, j - 1);
    }
  }

  /** Everything after position index is as large as it can be. */
  ghost predicate Full(vec: seq<nat>, size: nat, index: int)
  {
    forall i :: index < i < |vec| && 0 <= i ==> vec[i] == Top(|vec|, size, i)
  }

  /** next is vec with position index raised by one and a run of consecutive values after it. */
  ghost predicate Raised(vec: seq<nat>, next: seq<nat>, index: int)
  {
    && |next| == |vec| && 0 <= index < |vec|
    && (forall i :: 0 <= i < index ==> next[i] == vec[i])
    && (forall i :: index <= i < |vec| ==> next[i] == vec[index] + 1 + i - index)
  }

  lemma RaisedIsIncreasing(vec: seq<nat>, next: seq<nat>, size: nat, index: int)
    requires Increasing(vec, size) && Raised(vec, next, index) && vec[index] < Top(|vec|, size, index)
    ensures Increasing(next, size) && LexLess(vec, next)
  {
    forall i, j | 0 <= i < j < |next|
      ensures next[i] < next[j]
    {
      if i < index <= j {
        assert vec[i] < vec[index];
      }
    }
    assert DifferAt(vec, next, index);
  }

  /** Nothing lies between a vector and the raised one. */
  lemma NothingBetween(vec: seq<nat>, next: seq<nat>, c: seq<nat>, size: nat, index: int)
    requires Increasing(vec, size) && Raised(vec, next, index) && Full(vec, size, index)
    requires Increasing(c, size) && |c| == |vec| && LexLess(vec, c)
    ensures c == next || LexLess(next, c)
  {
    var d :| DifferAt(vec, c, d);
    AtMostTop(c, size, d);
    if d < index {
      assert DifferAt(next, c, d);
    } else if c != next {
      LexTotal(c, next);
      if LexLess(c, next) {
        var e :| DifferAt(c, next, e);
        AtLeastRun(c, size, index, if e < index then index else e);
      }
    }
  }

  /** A vector that is full everywhere is the last one. */
  lemma FullIsLast(vec: seq<nat>, c: seq<nat>, size: nat)
    requires Increasing(vec, size) && Full(vec, size, -1) && Increasing(c, size) && |c| == |vec|
    ensures c == vec || LexLess(c, vec)
  {
    LexTotal(c, vec);
    if LexLess(vec, c) {
      var d :| DifferAt(vec, c, d);
      AtMostTop(c, size, d);
    }
  }

  /** The vector 0, 1, 2, ... is the first one. */
  lemma FirstIsLeast(vec: seq<nat>, c: seq<nat>, size: nat)
    requires Increasing(c, size) && |c| == |vec| && forall i :: 0 <= i < |vec| ==> vec[i] == i
    ensures c == vec || LexLess(vec, c)
  {
    LexTotal(c, vec);
    if LexLess(c, vec) {
      var d :| DifferAt(c, vec, d);
      AtLeastRun(c, size, 0, d);
    }
  }

  /** permutate_: raises the last position that is not full and reports whether there was one. The
      index runs below zero where the source's unsigned index wraps around. */
  method Permutate(vec: array<nat>, index: int, size: nat) returns (more: bool, ghost raised: int)
    requires Increasing(vec[..], size) && -1 <= index < vec.Length && Full(vec[..], size, index)
    modifies vec
    ensures more ==> Raised(old(vec[..]), vec[..], raised) && Full(old(vec[..]), size, raised)
    ensures more ==> old(vec[..])[raised] < Top(vec.Length, size, raised)
    ensures !more ==> vec[..] == old(vec[..]) && Full(vec[..], size, -1)
    decreases index + 1
  {
    if index < 0 {
      return false, -1;
    }
    var pos := vec.Length - index;
    if vec[index] == size - pos {
      more, raised := Permutate(vec, index - 1, size);
      return;
    }
    ghost var was := vec[..];
    AtMostTop(was, size, index);
    vec[index] := vec[index] + 1;
    for i := index + 1 to vec.Length
      invariant forall j :: 0 <= j < index ==> vec[j] == was[j]
      invariant vec[index] == was[index] + 1
      invariant forall j :: index < j < i ==> vec[j] == vec[index] + j - index
    {
      vec[i] := vec[index] + i - index;
    }
    return true, index;
  }

  // ---- visiting them all ----

  /** Every increasing vector of the given length, each once, in lexicographic order. */
  ghost predicate AllOnce(combos: seq<seq<nat>>, length: nat, size: nat)
  {
    && (forall t :: 0 <= t < |combos| ==> |combos[t]| == length && Increasing(combos[t], size))
    && (forall s, t :: 0 <= s < t < |combos| ==> LexLess(combos[s], combos[t]))
    && (forall c: seq<nat> :: |c| == length && Increasing(c, size) ==> c in combos)
  }

  /** The vectors before vec have been visited, in order, and vec is next. */
  ghost predicate VisitedBefore(combos: seq<seq<nat>>, vec: seq<nat>, size: nat)
  {
    && Increasing(vec, size)
    && (forall t :: 0 <= t < |combos| ==>
          |combos[t]| == |vec| && Increasing(combos[t], size) && LexLess(combos[t], vec))
    && (forall s, t :: 0 <= s < t < |combos| ==> |combos[s]| == |combos[t]| && LexLess(combos[s], combos[t]))
    && (forall c: seq<nat> :: |c| == |vec| && Increasing(c, size) ==> c in combos || c == vec || LexLess(vec, c))
  }

  lemma VisitNext(combos: seq<seq<nat>>, vec: seq<nat>, next: seq<nat>, size: nat, index: int)
    requires VisitedBefore(combos, vec, size) && Raised(vec, next, index) && Full(vec, size, index)
    requires vec[index] < Top(|vec|, size, index)
    ensures VisitedBefore(combos + [vec], next, size)
  {
    RaisedIsIncreasing(vec, next, size, index);
    var more := combos + [vec];
    forall t | 0 <= t < |more|
      ensures |more[t]| == |next| && Increasing(more[t], size) && LexLess(more[t], next)
    {
      if t < |combos| {
        LexTransitive(combos[t], vec, next);
      }
    }
    forall c: seq<nat> | |c| == |next| && Increasing(c, size)
      ensures c in more || c == next || LexLess(next, c)
    {
      if c == vec {
        assert more[|combos|] == c;
      } else if c in combos {
        assert c in more;
      } else {
        NothingBetween(vec, next, c, size, index);
      }
    }
    hide Increasing, LexLess, Raised, Full;
  }

  lemma VisitedAll(combos: seq<seq<nat>>, vec: seq<nat>, size: nat)
    requires VisitedBefore(combos, vec, size) && Full(vec, size, -1)
    ensures AllOnce(combos + [vec], |vec|, size)
  {
    var all := combos + [vec];
    forall c: seq<nat> | |c| == |vec| && Increasing(c, size)
      ensures c in all
    {
      FullIsLast(vec, c, size);
      if LexLess(c, vec) && LexLess(vec, c) {
        LexTransitive(c, vec, c);
      }
      if c == vec {
        assert all[|combos|] == c;
      }
    }
  }

  // ---- a rank that grows with every step ----

  function Power(size: nat, n: nat): nat
  {
    if n == 0 then 1 else Power(size, n - 1) * size
  }

  /** The first n entries read as a number in base size. */
  function Rank(vec: seq<nat>, size: nat, n: nat): nat
    requires n <= |vec|
  {
    if n == 0 then 0 else Rank(vec, size, n - 1) * size + vec[n - 1]
  }

  lemma NextDigit(r: nat, bound: nat, digit: nat, size: nat)
    requires r < bound && digit < size
    ensures r * size + digit < bound * size
  {
    assert (r + 1) * size <= bound * size;
  }

  lemma {:induction false} RankBound(vec: seq<nat>, size: nat, n: nat)
    requires n <= |vec| && forall i :: 0 <= i < n ==> vec[i] < size
    ensures Rank(vec, size, n) < Power(size, n)
  {
    if n > 0 {
      RankBound(vec, size, n - 1);
      NextDigit(Rank(vec, size, n - 1), Power(size, n - 1), vec[n - 1], size);
    }
  }

  lemma {:induction false} RankGrows(a: seq<nat>, b: seq<nat>, size: nat, d: int, n: nat)
    requires |a| == |b| && DifferAt(a, b, d) && n <= |a| && forall i :: 0 <= i < |a| ==> a[i] < size
    ensures n <= d ==> Rank(a, size, n) == Rank(b, size, n)
    ensures d < n ==> Rank(a, size, n) < Rank(b, size, n)
    decreases n
  {
    if n > 0 {
      RankGrows(a, b, size, d, n - 1);
      if d < n - 1 {
        NextDigit(Rank(a, size, n - 1), Rank(b, size, n - 1), a[n - 1], size);
      }
    }
  }

  /** How far a vector is from the end of the enumeration. */
  function Remaining(vec: seq<nat>, size: nat): int
  {
    Power(size, |vec|) - Rank(vec, size, |vec|)
  }

  lemma StepsShrink(vec: seq<nat>, next: seq<nat>, size: nat)
    requires |vec| == |next| && Increasing(vec, size) && Increasing(next, size) && LexLess(vec, next)
    ensures 0 <= Remaining(next, size) < Remaining(vec, size)
  {
    var d :| DifferAt(vec, next, d);
    RankGrows(vec, next, size, d, |vec|);
    RankBound(next, size, |next|);
  }
}
