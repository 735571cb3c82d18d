/** What the working-set selection and the shrinking test compare, at positions of a state. */
module SvmSelection {
  import opened SvmProblem
  import opened SvmState

  /** A running maximum; NegInf is the -INF it starts from. */
  datatype Ext = NegInf | Finite(r: real)

  predicate AtLeast(x: real, e: Ext)
  {
    e.NegInf? || x >= e.r
  }

  /** x > e. */
  predicate Exceeds(x: real, e: Ext)
  {
    e.NegInf? || x > e.r
  }

  /** a + b < bound. */
  predicate SumBelow(a: Ext, b: Ext, bound: real)
  {
    a.NegInf? || b.NegInf? || a.r + b.r < bound
  }

  /** a + b > bound. */
  predicate Exceeds2(a: Ext, b: Ext, bound: real)
  {
    a.Finite? && b.Finite? && a.r + b.r > bound
  }

  function Larger(a: Ext, b: Ext): Ext
  {
    if a.NegInf? then b else if b.NegInf? || a.r >= b.r then a else b
  }

  /** y_k G_k, without multiplying. */
  ghost function Height(s: State, k: int): real
    requires |s.y| == |s.G| && 0 <= k < |s.y|
  {
    if s.y[k] == 1 then s.G[k] else -s.G[k]
  }

  ghost predicate UpAt(s: State, k: int)
    requires |s.y| == |s.status| && 0 <= k < |s.y|
  {
    if s.y[k] == 1 then s.status[k] != UpperBound else s.status[k] != LowerBound
  }

  ghost predicate LowAt(s: State, k: int)
    requires |s.y| == |s.status| && 0 <= k < |s.y|
  {
    if s.y[k] == 1 then s.status[k] != LowerBound else s.status[k] != UpperBound
  }

  /** Position k belongs to the class `side`; side 0 stands for both classes. */
  ghost predicate InSide(s: State, side: int, k: int)
    requires 0 <= k < |s.y|
  {
    side == 0 || s.y[k] == side
  }

  /** (g, idx) is the largest -y_k G_k over the movable-up positions below n, and the last place where it is. */
  ghost predicate MaxUp(s: State, side: int, n: int, g: Ext, idx: int)
    requires 0 <= n <= |s.y| && |s.y| == |s.G| == |s.status|
  {
    && (idx == -1 <==> g.NegInf?)
    && (g.Finite? ==> 0 <= idx < n && InSide(s, side, idx) && UpAt(s, idx) && g.r == -Height(s, idx))
    && (forall k :: 0 <= k < n && InSide(s, side, k) && UpAt(s, k) ==> g.Finite? && -Height(s, k) <= g.r)
    && (forall k :: 0 <= idx < k < n && InSide(s, side, k) && UpAt(s, k) ==> -Height(s, k) < g.r)
  }

  /** g is the largest y_k G_k over the movable-down positions below n. */
  ghost predicate MaxLow(s: State, side: int, n: int, g: Ext)
    requires 0 <= n <= |s.y| && |s.y| == |s.G| == |s.status|
  {
    && (g.Finite? ==> exists k :: 0 <= k < n && InSide(s, side, k) && LowAt(s, k) && g.r == Height(s, k))
    && (forall k :: 0 <= k < n && InSide(s, side, k) && LowAt(s, k) ==> g.Finite? && Height(s, k) <= g.r)
  }

  /** The second-order estimate of the decrease along (i, j). */
  ghost function Gain(pr: Problem, s: State, i: int, j: int): real
    requires pr.Valid() && Placed(pr, s) && 0 <= i < |s.act| && 0 <= j < |s.act|
  {
    var b := Height(s, j) - Height(s, i);
    var a := pr.Curvature(s.act[i], s.act[j]);
    -(b * b) / (if a > 0.0 then a else TAU)
  }

  /** The up-variable a position j is paired with: that of its own class. */
  function Partner(s: State, ip: int, in_: int, j: int): int
    requires 0 <= j < |s.y|
  {
    if s.y[j] == 1 then ip else in_
  }

  ghost predicate Candidate(s: State, ip: int, in_: int, j: int)
    requires |s.y| == |s.G| == |s.status| && 0 <= j < |s.y| && -1 <= ip < |s.y| && -1 <= in_ < |s.y|
  {
    var i := Partner(s, ip, in_, j);
    i >= 0 && LowAt(s, j) && Height(s, j) - Height(s, i) > 0.0
  }

  /** best has the smallest (most negative) estimate among the violating positions below n, and is the last
      position that has it. */
  ghost predicate BestLow(pr: Problem, s: State, ip: int, in_: int, n: int, best: int)
    requires pr.Valid() && Placed(pr, s) && 0 <= n <= |s.y| && -1 <= ip < |s.y| && -1 <= in_ < |s.y|
  {
    && -1 <= best < n
    && (best >= 0 ==> Candidate(s, ip, in_, best))
    && (forall k :: 0 <= k < n && Candidate(s, ip, in_, k) ==>
          best >= 0 && Gain(pr, s, Partner(s, ip, in_, best), best) <= Gain(pr, s, Partner(s, ip, in_, k), k))
    && (forall k :: 0 <= best < k < n && Candidate(s, ip, in_, k) ==>
          Gain(pr, s, Partner(s, ip, in_, best), best) < Gain(pr, s, Partner(s, ip, in_, k), k))
  }

  /** The pair may be moved: a up, b down, both of one class in the nu-problem. */
  ghost predicate Movable(s: State, nu: bool, a: int, b: int)
    requires |s.y| == |s.G| == |s.status| && 0 <= a < |s.y| && 0 <= b < |s.y|
  {
    UpAt(s, a) && LowAt(s, b) && (nu ==> s.y[a] == s.y[b])
  }

  /** No admissible active pair violates optimality by eps or more. */
  ghost predicate ActiveOptimal(s: State, nu: bool, eps: real)
    requires 0 <= s.active <= |s.y| && |s.y| == |s.G| == |s.status|
  {
    forall a, b :: 0 <= a < s.active && 0 <= b < s.active && Movable(s, nu, a, b) ==>
      Height(s, b) - Height(s, a) < eps
  }

  /** The pair a selection returns: i is the most violating up-variable of its class, j the violating
      low-variable with the best second-order estimate, the last of several in both cases. */
  ghost predicate Chosen(pr: Problem, s: State, nu: bool, i: int, j: int)
    requires pr.Valid() && Placed(pr, s)
  {
    && 0 <= i < s.active && 0 <= j < s.active && i != j
    && Movable(s, nu, i, j) && Height(s, j) - Height(s, i) > 0.0
    && exists ip, in_ :: -1 <= ip < s.active && -1 <= in_ < s.active
        && MostViolating(s, nu, ip, in_) && i == Partner(s, ip, in_, j) && BestLow(pr, s, ip, in_, s.active, j)
  }

  ghost predicate MostViolating(s: State, nu: bool, ip: int, in_: int)
    requires 0 <= s.active <= |s.y| && |s.y| == |s.G| == |s.status|
    requires -1 <= ip < s.active && -1 <= in_ < s.active
  {
    && (!nu ==> ip == in_)
    && MaxUp(s, if nu then 1 else 0, s.active, UpValue(s, ip), ip)
    && MaxUp(s, if nu then -1 else 0, s.active, UpValue(s, in_), in_)
  }

  ghost function UpValue(s: State, idx: int): Ext
    requires |s.y| == |s.G| && -1 <= idx < |s.y|
  {
    if idx < 0 then NegInf else Finite(-Height(s, idx))
  }

  lemma MaxLowStart(s: State)
    requires |s.y| == |s.G| == |s.status|
    ensures forall side :: MaxLow(s, side, 0, NegInf) && MaxUp(s, side, 0, NegInf, -1)
  {
  }

  lemma BestLowStart(pr: Problem, s: State, ip: int, in_: int)
    requires pr.Valid() && Placed(pr, s) && -1 <= ip < |s.y| && -1 <= in_ < |s.y|
    ensures BestLow(pr, s, ip, in_, 0, -1)
  {
  }

  lemma MaxLowNext(s: State, side: int, n: int, g: Ext)
    requires 0 <= n < |s.y| && |s.y| == |s.G| == |s.status| && MaxLow(s, side, n, g)
    ensures InSide(s, side, n) && LowAt(s, n) && AtLeast(Height(s, n), g)
            ==> MaxLow(s, side, n + 1, Finite(Height(s, n)))
    ensures !(InSide(s, side, n) && LowAt(s, n) && AtLeast(Height(s, n), g)) ==> MaxLow(s, side, n + 1, g)
  {
  }

  lemma BestLowNext(pr: Problem, s: State, ip: int, in_: int, n: int, best: int)
    requires pr.Valid() && Placed(pr, s) && 0 <= n < |s.y| && -1 <= ip < |s.y| && -1 <= in_ < |s.y|
    requires BestLow(pr, s, ip, in_, n, best)
    ensures !Candidate(s, ip, in_, n) ==> BestLow(pr, s, ip, in_, n + 1, best)
    ensures Candidate(s, ip, in_, n) ==>
      var better := best < 0 || Gain(pr, s, Partner(s, ip, in_, n), n) <= Gain(pr, s, Partner(s, ip, in_, best), best);
      BestLow(pr, s, ip, in_, n + 1, if better then n else best)
  {
    hide Gain;
  }

  /** A low-variable that violates optimality with its class's best partner by eps. */
  lemma FailedSum(s: State, side: int, ip: int, g2: Ext, eps: real) returns (k: int)
    requires 0 <= s.active <= |s.y| && |s.y| == |s.G| == |s.status| && -1 <= ip < s.active
    requires MaxLow(s, side, s.active, g2) && !SumBelow(UpValue(s, ip), g2, eps)
    ensures 0 <= k < s.active && InSide(s, side, k) && LowAt(s, k)
    ensures ip >= 0 && Height(s, k) - Height(s, ip) >= eps
  {
    k :| 0 <= k < s.active && InSide(s, side, k) && LowAt(s, k) && g2.r == Height(s, k);
  }

  lemma PassedSum(s: State, upSide: int, lowSide: int, ip: int, g2: Ext, eps: real, a: int, b: int)
    requires 0 <= s.active <= |s.y| && |s.y| == |s.G| == |s.status| && -1 <= ip < s.active
    requires MaxUp(s, upSide, s.active, UpValue(s, ip), ip)
    requires MaxLow(s, lowSide, s.active, g2) && SumBelow(UpValue(s, ip), g2, eps)
    requires 0 <= a < s.active && 0 <= b < s.active && InSide(s, upSide, a) && InSide(s, lowSide, b)
    requires UpAt(s, a) && LowAt(s, b)
    ensures Height(s, b) - Height(s, a) < eps
  {
  }

  /** A violation by eps against the best partner refutes optimality and leaves a candidate. */
  lemma ViolationFound(pr: Problem, s: State, nu: bool, eps: real, ip: int, in_: int, k: int)
    requires pr.Valid() && Placed(pr, s) && 0.0 < eps
    requires -1 <= ip < s.active && -1 <= in_ < s.active && MostViolating(s, nu, ip, in_)
    requires 0 <= k < s.active && LowAt(s, k) && Partner(s, ip, in_, k) >= 0
    requires Height(s, k) - Height(s, Partner(s, ip, in_, k)) >= eps
    ensures !ActiveOptimal(s, nu, eps) && Candidate(s, ip, in_, k)
  {
    assert s.y[k] == pr.y[s.act[k]];
    assert Movable(s, nu, Partner(s, ip, in_, k), k);
  }

  lemma CandidateIsChosen(pr: Problem, s: State, nu: bool, ip: int, in_: int, best: int)
    requires pr.Valid() && Placed(pr, s)
    requires -1 <= ip < s.active && -1 <= in_ < s.active && MostViolating(s, nu, ip, in_)
    requires best >= 0 && BestLow(pr, s, ip, in_, s.active, best)
    ensures Chosen(pr, s, nu, Partner(s, ip, in_, best), best)
  {
    assert s.y[best] == pr.y[s.act[best]];
  }

  /** The sums compared with eps decide optimality of the active set, and a violation leaves a
      candidate behind. */
  lemma StopTest(pr: Problem, s: State, nu: bool, eps: real, ip: int, in_: int, gp2: Ext, gn2: Ext, best: int)
    requires pr.Valid() && Placed(pr, s) && 0.0 < eps
    requires -1 <= ip < s.active && -1 <= in_ < s.active && MostViolating(s, nu, ip, in_)
    requires MaxLow(s, 1, s.active, gp2) && MaxLow(s, -1, s.active, gn2)
    requires BestLow(pr, s, ip, in_, s.active, best)
    ensures SumBelow(UpValue(s, ip), gp2, eps) && SumBelow(UpValue(s, in_), gn2, eps) <==> ActiveOptimal(s, nu, eps)
    ensures !ActiveOptimal(s, nu, eps) ==> best >= 0 && Chosen(pr, s, nu, Partner(s, ip, in_, best), best)
  {
    hide MaxUp, MaxLow, Gain, SumBelow;
    if !SumBelow(UpValue(s, ip), gp2, eps) {
      var k := FailedSum(s, 1, ip, gp2, eps);
      ViolationFound(pr, s, nu, eps, ip, in_, k);
      CandidateIsChosen(pr, s, nu, ip, in_, best);
    } else if !SumBelow(UpValue(s, in_), gn2, eps) {
      var k := FailedSum(s, -1, in_, gn2, eps);
      ViolationFound(pr, s, nu, eps, ip, in_, k);
      CandidateIsChosen(pr, s, nu, ip, in_, best);
    } else {
      forall a, b | 0 <= a < s.active && 0 <= b < s.active && Movable(s, nu, a, b)
        ensures Height(s, b) - Height(s, a) < eps
      {
        assert s.y[b] == pr.y[s.act[b]];
        if s.y[b] == 1 {
          PassedSum(s, if nu then 1 else 0, 1, ip, gp2, eps, a, b);
        } else {
          PassedSum(s, if nu then -1 else 0, -1, in_, gn2, eps, a, b);
        }
      }
    }
  }

  /** The labels multiply out: the heights are the y_o∇_o of the problem. */
  lemma HeightIs(pr: Problem, s: State, k: nat)
    requires Inv(pr, s) && k < s.active
    ensures Height(s, k) == pr.Height(s.A, s.act[k])
    ensures UpAt(s, k) <==> pr.Up(s.A, s.act[k])
    ensures LowAt(s, k) <==> pr.Low(s.A, s.act[k])
  {
  }

  lemma PairIs(pr: Problem, s: State, nu: bool, a: nat, b: nat)
    requires Inv(pr, s) && a < s.active && b < s.active
    ensures Height(s, b) - Height(s, a) == pr.Violation(s.A, s.act[a], s.act[b])
    ensures Movable(s, nu, a, b) <==>
      pr.Up(s.A, s.act[a]) && pr.Low(s.A, s.act[b]) && (nu ==> pr.y[s.act[a]] == pr.y[s.act[b]])
  {
    HeightIs(pr, s, a);
    HeightIs(pr, s, b);
  }

  /** When everything is active, optimality of the active set is optimality of the problem. */
  lemma FullOptimal(pr: Problem, s: State, nu: bool, eps: real)
    requires Inv(pr, s) && s.active == |pr.p|
    ensures ActiveOptimal(s, nu, eps) <==> pr.EpsOptimal(s.A, eps, nu)
  {
    hide Height, Movable, StatusOk, GradOk, GBarOk;
    if ActiveOptimal(s, nu, eps) {
      forall i, j | 0 <= i < |s.A| && 0 <= j < |s.A| && pr.Up(s.A, i) && pr.Low(s.A, j) && (nu ==> pr.y[i] == pr.y[j])
        ensures pr.Violation(s.A, i, j) < eps
      {
        PairIs(pr, s, nu, s.pos[i], s.pos[j]);
      }
    }
    if pr.EpsOptimal(s.A, eps, nu) {
      forall a, b | 0 <= a < s.active && 0 <= b < s.active && Movable(s, nu, a, b)
        ensures Height(s, b) - Height(s, a) < eps
      {
        PairIs(pr, s, nu, a, b);
      }
    }
  }

  /** The thresholds of the shrinking test: up- and low-maximum of the positive and of the
      negative class; the plain solver uses the same pair for both. */
  datatype Limits = Limits(posUp: Ext, posLow: Ext, negLow: Ext, negUp: Ext)

  /** be_shrunk: a bounded variable that would violate optimality with nobody. */
  predicate BeShrunk(st: Status, y: int, g: real, m: Limits)
  {
    match st
    case UpperBound => if y == 1 then Exceeds(-g, m.posUp) else Exceeds(-g, m.negLow)
    case LowerBound => if y == 1 then Exceeds(g, m.posLow) else Exceeds(g, m.negUp)
    case Free => false
  }

  ghost predicate ShrunkAt(s: State, k: int, m: Limits)
    requires |s.y| == |s.G| == |s.status| && 0 <= k < |s.y|
  {
    BeShrunk(s.status[k], s.y[k], s.G[k], m)
  }

  /** Positions below kept pass the test, those from gone to n fail it. */
  ghost predicate Sorted(s: State, kept: int, gone: int, n: int, m: Limits)
    requires |s.y| == |s.G| == |s.status| && n <= |s.y|
  {
    && (forall k :: 0 <= k < kept && k < gone && k < n ==> !ShrunkAt(s, k, m))
    && (forall k :: 0 <= gone <= k < n ==> ShrunkAt(s, k, m))
  }

  lemma SortedPass(s: State, i: int, gone: int, n: int, m: Limits)
    requires |s.y| == |s.G| == |s.status| && n <= |s.y| && 0 <= i < gone <= n
    requires Sorted(s, i, gone, n, m) && !ShrunkAt(s, i, m)
    ensures Sorted(s, i + 1, gone, n, m)
  {
  }

  /** The position at the end of the window fails the test too. */
  lemma SortedMore(s: State, i: int, gone: int, n: int, m: Limits)
    requires |s.y| == |s.G| == |s.status| && n <= |s.y| && 0 <= i < gone < n
    requires Sorted(s, i, gone + 1, n, m) && ShrunkAt(s, gone, m)
    ensures Sorted(s, i, gone, n, m)
  {
    hide ShrunkAt;
  }

  /** Nothing is left between the kept positions and the failing position i. */
  lemma SortedEmpty(s: State, i: int, n: int, m: Limits)
    requires |s.y| == |s.G| == |s.status| && n <= |s.y| && 0 <= i < n
    requires Sorted(s, i, i + 1, n, m) && ShrunkAt(s, i, m)
    ensures Sorted(s, i + 1, i, n, m)
  {
    hide ShrunkAt;
  }

  lemma SortedStart(s: State, n: int, m: Limits)
    requires |s.y| == |s.G| == |s.status| && n <= |s.y|
    ensures Sorted(s, 0, n, n, m)
  {
  }

  /** The walk has met the end of the active prefix, whose size plays no part in the test. */
  lemma SortedEnd(s: State, i: int, gone: int, n: int, m: Limits, a: int)
    requires |s.y| == |s.G| == |s.status| && n <= |s.y| && i >= gone
    requires Sorted(s, i, gone, n, m)
    ensures Sorted(s, gone, gone, n, m) && Sorted(s.(active := a), gone, gone, n, m)
  {
    assert forall k :: 0 <= k < n ==> ShrunkAt(s.(active := a), k, m) == ShrunkAt(s, k, m);
  }

  /** Exchanging the failing position i with the passing position j extends both ranges. */
  lemma SwapSorts(pr: Problem, s: State, i: nat, j: nat, n: int, m: Limits)
    requires Placed(pr, s) && i < j < n <= |s.act|
    requires Sorted(s, i, j + 1, n, m) && ShrunkAt(s, i, m) && !ShrunkAt(s, j, m)
    ensures Sorted(Swapped(s, i, j), i + 1, j, n, m)
  {
    var t := Swapped(s, i, j);
    assert forall k :: 0 <= k < n && k != i && k != j ==> ShrunkAt(t, k, m) == ShrunkAt(s, k, m);
    assert ShrunkAt(t, i, m) == ShrunkAt(s, j, m) && ShrunkAt(t, j, m) == ShrunkAt(s, i, m);
  }

  /** Dropping what fails the test keeps the invariant: it is never free. */
  lemma SortedShrinks(pr: Problem, s: State, kept: int, n: int, m: Limits)
    requires Inv(pr, s) && 0 <= kept <= n == s.active
    requires Sorted(s, kept, kept, n, m)
    ensures Inv(pr, s.(active := kept))
  {
    forall k | kept <= k < n
      ensures s.status[k] != Free
    {
      assert ShrunkAt(s, k, m);
    }
    ShrinkKeepsInv(pr, s, kept);
  }

  /** g is the largest -y_k G_k over the movable-up positions below n. */
  ghost predicate UpMax(s: State, side: int, n: int, g: Ext)
    requires 0 <= n <= |s.y| && |s.y| == |s.G| == |s.status|
  {
    exists idx :: MaxUp(s, side, n, g, idx)
  }

  /** The thresholds of a state, for either solver. */
  ghost predicate LimitsOf(s: State, nu: bool, m: Limits)
    requires 0 <= s.active <= |s.y| && |s.y| == |s.G| == |s.status|
  {
    var pos, neg := if nu then 1 else 0, if nu then -1 else 0;
    && UpMax(s, pos, s.active, m.posUp) && MaxLow(s, pos, s.active, m.posLow)
    && UpMax(s, neg, s.active, m.negUp) && MaxLow(s, neg, s.active, m.negLow)
  }

  /** Position k of state t is at a bound, and every pair it could form with a position active in s has a
      negative violation. */
  ghost predicate Harmless(s: State, nu: bool, t: State, k: int)
    requires 0 <= s.active <= |s.y| && |s.y| == |s.G| == |s.status|
    requires |t.y| == |t.G| == |t.status| && 0 <= k < |t.y|
  {
    && t.status[k] != Free
    && (LowAt(t, k) ==> forall a :: 0 <= a < s.active && UpAt(s, a) && (nu ==> s.y[a] == t.y[k]) ==>
          Height(t, k) - Height(s, a) < 0.0)
    && (UpAt(t, k) ==> forall b :: 0 <= b < s.active && LowAt(s, b) && (nu ==> t.y[k] == s.y[b]) ==>
          Height(s, b) - Height(t, k) < 0.0)
  }

  /** State t keeps at the front exactly what is not harmless of its first n positions. */
  ghost predicate ShrunkTo(s: State, nu: bool, t: State, n: int)
  {
    && 0 <= s.active <= |s.y| && |s.y| == |s.G| == |s.status|
    && |t.y| == |t.G| == |t.status| && 0 <= t.active <= n <= |t.y|
    && (forall k :: 0 <= k < t.active ==> !Harmless(s, nu, t, k))
    && (forall k :: t.active <= k < n ==> Harmless(s, nu, t, k))
  }

  /** What the shrinking test decides, given the thresholds of state s. */
  lemma ShrunkIsHarmless(s: State, nu: bool, m: Limits, t: State, k: int)
    requires 0 <= s.active <= |s.y| && |s.y| == |s.G| == |s.status| && LimitsOf(s, nu, m)
    requires |t.y| == |t.G| == |t.status| && 0 <= k < |t.y| && (t.y[k] == 1 || t.y[k] == -1)
    ensures ShrunkAt(t, k, m) <==> Harmless(s, nu, t, k)
  {
    if LowAt(t, k) {
      BelowAllUp(s, if nu then t.y[k] else 0, if t.y[k] == 1 then m.posUp else m.negUp, Height(t, k));
    }
    if UpAt(t, k) {
      AboveAllLow(s, if nu then t.y[k] else 0, if t.y[k] == 1 then m.posLow else m.negLow, Height(t, k));
    }
    hide LimitsOf, UpMax, MaxLow;
  }

  lemma BelowAllUp(s: State, side: int, up: Ext, h: real)
    requires 0 <= s.active <= |s.y| && |s.y| == |s.G| == |s.status| && UpMax(s, side, s.active, up)
    ensures Exceeds(-h, up) <==>
      forall a :: 0 <= a < s.active && UpAt(s, a) && InSide(s, side, a) ==> h - Height(s, a) < 0.0
  {
    var idx :| MaxUp(s, side, s.active, up, idx);
  }

  lemma AboveAllLow(s: State, side: int, low: Ext, h: real)
    requires 0 <= s.active <= |s.y| && |s.y| == |s.G| == |s.status| && MaxLow(s, side, s.active, low)
    ensures Exceeds(h, low) <==>
      forall b :: 0 <= b < s.active && LowAt(s, b) && InSide(s, side, b) ==> Height(s, b) - h < 0.0
  {
  }

  /** No admissible pair of active positions violates optimality by more than bound. */
  ghost predicate NearlyOptimal(s: State, nu: bool, bound: real)
    requires 0 <= s.active <= |s.y| && |s.y| == |s.G| == |s.status|
  {
    forall a, b :: 0 <= a < s.active && 0 <= b < s.active && Movable(s, nu, a, b) ==>
      Height(s, b) - Height(s, a) <= bound
  }

  /** The same for the pairs of one class, or of both when side is 0. */
  ghost predicate SideNearly(s: State, side: int, bound: real)
    requires 0 <= s.active <= |s.y| && |s.y| == |s.G| == |s.status|
  {
    forall a, b ::
      0 <= a < s.active && 0 <= b < s.active && UpAt(s, a) && LowAt(s, b) && InSide(s, side, a)
        && InSide(s, side, b) ==>
        Height(s, b) - Height(s, a) <= bound
  }

  /** The sums compared before everything is made active again. */
  lemma LimitsNear(s: State, nu: bool, m: Limits, bound: real)
    requires 0 <= s.active <= |s.y| && |s.y| == |s.G| == |s.status| && LimitsOf(s, nu, m)
    requires forall k :: 0 <= k < |s.y| ==> s.y[k] == 1 || s.y[k] == -1
    ensures !Exceeds2(m.posUp, m.posLow, bound) && !Exceeds2(m.negUp, m.negLow, bound) <==> NearlyOptimal(s, nu, bound)
  {
    hide UpMax, MaxLow, SideNearly, NearlyOptimal, Exceeds2;
    SideNear(s, if nu then 1 else 0, m.posUp, m.posLow, bound);
    SideNear(s, if nu then -1 else 0, m.negUp, m.negLow, bound);
    SidesNearly(s, nu, bound);
  }

  lemma SidesNearly(s: State, nu: bool, bound: real)
    requires 0 <= s.active <= |s.y| && |s.y| == |s.G| == |s.status|
    requires forall k :: 0 <= k < |s.y| ==> s.y[k] == 1 || s.y[k] == -1
    ensures NearlyOptimal(s, nu, bound)
      <==> SideNearly(s, if nu then 1 else 0, bound) && SideNearly(s, if nu then -1 else 0, bound)
  {
    hide UpAt, LowAt, Height;
  }

  lemma SideNear(s: State, side: int, up: Ext, low: Ext, bound: real)
    requires 0 <= s.active <= |s.y| && |s.y| == |s.G| == |s.status|
    requires UpMax(s, side, s.active, up) && MaxLow(s, side, s.active, low)
    ensures !Exceeds2(up, low, bound) <==> SideNearly(s, side, bound)
  {
    var idx :| MaxUp(s, side, s.active, up, idx);
    if Exceeds2(up, low, bound) {
      var b :| 0 <= b < s.active && InSide(s, side, b) && LowAt(s, b) && low.r == Height(s, b);
      assert Height(s, b) - Height(s, idx) > bound;
    }
  }

  /** What the partition by the shrinking test leaves active, and what it drops. */
  lemma SortedByHarm(s: State, nu: bool, m: Limits, t: State, n: int)
    requires 0 <= s.active <= |s.y| && |s.y| == |s.G| == |s.status| && LimitsOf(s, nu, m)
    requires |t.y| == |t.G| == |t.status| && 0 <= t.active <= n <= |t.y| && Sorted(t, t.active, t.active, n, m)
    requires forall k :: 0 <= k < |t.y| ==> t.y[k] == 1 || t.y[k] == -1
    ensures ShrunkTo(s, nu, t, n)
  {
    hide LimitsOf, ShrunkAt, Harmless;
    forall k | 0 <= k < n
      ensures ShrunkAt(t, k, m) <==> Harmless(s, nu, t, k)
    {
      ShrunkIsHarmless(s, nu, m, t, k);
    }
  }

  /** The offset of a class: a number, an infinity when one side has no bound, or NaN when neither has. */
  datatype Offset = Value(r: real) | PlusInf | MinusInf | NaN {
    function Plus(b: Offset): Offset
    {
      if NaN? || b.NaN? then NaN
      else if Value? then (if b.Value? then Value(r + b.r) else b)
      else if b.Value? || b == this then this
      else NaN
    }

    function Negated(): Offset
    {
      match this
      case Value(x) => Value(-x)
      case PlusInf => MinusInf
      case MinusInf => PlusInf
      case NaN => NaN
    }

    function Halved(): Offset
    {
      if Value? then Value(r / 2.0) else this
    }

    /** Which kind of offset a class has depends on whether something of it can move up, and down. */
    ghost predicate Kind(rise: bool, fall: bool)
    {
      && (Value? <==> rise && fall) && (PlusInf? <==> !rise && fall)
      && (MinusInf? <==> rise && !fall) && (NaN? <==> !rise && !fall)
    }
  }

  function Max(x: real, e: Ext): Ext
  {
    if e.NegInf? || x > e.r then Finite(x) else e
  }

  /** The tallies of the offset loop over the first n positions of a class: minus the smallest
      height of a lower-side variable (ub), the largest of an upper-side one (lb), and the
      number and sum of the free heights, with their extremes. */
  datatype Tally = Tally(negUb: Ext, lb: Ext, free: nat, sum: real, minFree: real, maxFree: real)

  /** A bounded variable that can only move up bounds the offset from above. */
  ghost predicate BoundsAbove(s: State, k: int)
    requires |s.y| == |s.status| && 0 <= k < |s.y|
  {
    s.status[k] != Free && UpAt(s, k)
  }

  ghost predicate BoundsBelow(s: State, k: int)
    requires |s.y| == |s.status| && 0 <= k < |s.y|
  {
    s.status[k] != Free && LowAt(s, k)
  }

  ghost predicate AboveTallied(s: State, side: int, n: int, t: Tally)
    requires 0 <= n <= |s.y| && |s.y| == |s.G| == |s.status|
  {
    && (forall k :: 0 <= k < n && InSide(s, side, k) && BoundsAbove(s, k) ==>
          t.negUb.Finite? && -Height(s, k) <= t.negUb.r)
    && (t.negUb.Finite?
        ==> exists k :: 0 <= k < n && InSide(s, side, k) && BoundsAbove(s, k) && -Height(s, k) == t.negUb.r)
  }

  ghost predicate BelowTallied(s: State, side: int, n: int, t: Tally)
    requires 0 <= n <= |s.y| && |s.y| == |s.G| == |s.status|
  {
    && (forall k :: 0 <= k < n && InSide(s, side, k) && BoundsBelow(s, k) ==> t.lb.Finite? && Height(s, k) <= t.lb.r)
    && (t.lb.Finite? ==> exists k :: 0 <= k < n && InSide(s, side, k) && BoundsBelow(s, k) && Height(s, k) == t.lb.r)
  }

  ghost predicate FreeTallied(s: State, side: int, n: int, t: Tally)
    requires 0 <= n <= |s.y| && |s.y| == |s.G| == |s.status|
  {
    && (forall k :: 0 <= k < n && InSide(s, side, k) && s.status[k] == Free ==>
          t.free > 0 && t.minFree <= Height(s, k) <= t.maxFree)
    && (t.free > 0 ==> exists k :: 0 <= k < n && InSide(s, side, k) && s.status[k] == Free && Height(s, k) == t.minFree)
    && (t.free > 0 ==> exists k :: 0 <= k < n && InSide(s, side, k) && s.status[k] == Free && Height(s, k) == t.maxFree)
    && SumBetween(t.free, t.minFree, t.sum, t.maxFree)
    && t.free == FreeCount(s, side, n) && t.sum == FreeSum(s, side, n)
  }

  /** Number of free positions of the class below n. */
  ghost function FreeCount(s: State, side: int, n: int): nat
    requires 0 <= n <= |s.y| && |s.y| == |s.status|
  {
    if n == 0 then 0 else FreeCount(s, side, n - 1) + if InSide(s, side, n - 1) && s.status[n - 1] == Free then 1 else 0
  }

  /** Sum of their heights. */
  ghost function FreeSum(s: State, side: int, n: int): real
    requires 0 <= n <= |s.y| && |s.y| == |s.G| == |s.status|
  {
    if n == 0 then 0.0 else
      FreeSum(s, side, n - 1) + if InSide(s, side, n - 1) && s.status[n - 1] == Free then Height(s, n - 1) else 0.0
  }

  /** sum can be the sum of n numbers between lo and hi. */
  ghost predicate SumBetween(n: nat, lo: real, sum: real, hi: real)
  {
    Multiple(n, lo) <= sum <= Multiple(n, hi)
  }

  function Multiple(n: nat, x: real): real
  {
    n as real * x
  }

  ghost predicate Tallied(s: State, side: int, n: int, t: Tally)
    requires 0 <= n <= |s.y| && |s.y| == |s.G| == |s.status|
  {
    AboveTallied(s, side, n, t) && BelowTallied(s, side, n, t) && FreeTallied(s, side, n, t)
  }

  /** The tallies after one more position of the class. */
  ghost function TallyNext(s: State, k: int, t: Tally): Tally
    requires |s.y| == |s.G| == |s.status| && 0 <= k < |s.y|
  {
    var h := Height(s, k);
    if s.status[k] == Free then
      Tally(t.negUb, t.lb, t.free + 1, t.sum + h,
            if t.free == 0 || h < t.minFree then h else t.minFree,
            if t.free == 0 || h > t.maxFree then h else t.maxFree)
    else if UpAt(s, k) then t.(negUb := Max(-h, t.negUb))
    else t.(lb := Max(h, t.lb))
  }

  lemma TallyStart(s: State, side: int, t: Tally)
    requires |s.y| == |s.G| == |s.status| && t == Tally(NegInf, NegInf, 0, 0.0, 0.0, 0.0)
    ensures Tallied(s, side, 0, t)
  {
  }

  lemma TallySums(n: nat, lo: real, sum: real, hi: real, h: real)
    requires SumBetween(n, lo, sum, hi)
    ensures SumBetween(n + 1, if n == 0 || h < lo then h else lo, sum + h, if n == 0 || h > hi then h else hi)
  {
    hide Multiple;
    var lo' := if n == 0 || h < lo then h else lo;
    var hi' := if n == 0 || h > hi then h else hi;
    MultiplesOrder(n, lo, lo');
    MultiplesOrder(n, hi', hi);
    NextMultiple(n, lo');
    NextMultiple(n, hi');
  }

  lemma MultiplesOrder(n: nat, big: real, small: real)
    requires n == 0 || small <= big
    ensures Multiple(n, small) <= Multiple(n, big)
  {
    if n > 0 {
      ProductNotNegative(n as real, big - small);
    }
  }

  lemma ProductNotNegative(a: real, b: real)
    requires a >= 0.0 && b >= 0.0
    ensures a * b >= 0.0
  {
  }

  lemma NextMultiple(n: nat, x: real)
    ensures Multiple(n + 1, x) == Multiple(n, x) + x
  {
    assert (n + 1) as real == n as real + 1.0;
  }

  lemma AboveGrows(s: State, side: int, n: int, t: Tally)
    requires 0 <= n < |s.y| && |s.y| == |s.G| == |s.status| && AboveTallied(s, side, n, t)
    ensures AboveTallied(s, side, n + 1, if InSide(s, side, n) then TallyNext(s, n, t) else t)
  {
  }

  lemma BelowGrows(s: State, side: int, n: int, t: Tally)
    requires 0 <= n < |s.y| && |s.y| == |s.G| == |s.status| && BelowTallied(s, side, n, t)
    requires s.status[n] != Free ==> UpAt(s, n) != LowAt(s, n)
    ensures BelowTallied(s, side, n + 1, if InSide(s, side, n) then TallyNext(s, n, t) else t)
  {
  }

  lemma FreeGrows(s: State, side: int, n: int, t: Tally)
    requires 0 <= n < |s.y| && |s.y| == |s.G| == |s.status| && FreeTallied(s, side, n, t)
    ensures FreeTallied(s, side, n + 1, if InSide(s, side, n) then TallyNext(s, n, t) else t)
  {
    hide SumBetween;
    TallySums(t.free, t.minFree, t.sum, t.maxFree, Height(s, n));
  }

  lemma TallyGrows(s: State, side: int, n: int, t: Tally)
    requires 0 <= n < |s.y| && |s.y| == |s.G| == |s.status| && Tallied(s, side, n, t)
    requires s.status[n] != Free ==> UpAt(s, n) != LowAt(s, n)
    ensures Tallied(s, side, n + 1, if InSide(s, side, n) then TallyNext(s, n, t) else t)
  {
    AboveGrows(s, side, n, t);
    BelowGrows(s, side, n, t);
    FreeGrows(s, side, n, t);
  }

  /** ub, kept as minus itself. */
  function UpperEnd(negUb: Ext): Offset
  {
    if negUb.NegInf? then PlusInf else Value(-negUb.r)
  }

  function LowerEnd(lb: Ext): Offset
  {
    if lb.NegInf? then MinusInf else Value(lb.r)
  }

  function OffsetOf(t: Tally): Offset
  {
    if t.free > 0 then Value(t.sum / t.free as real)
    else UpperEnd(t.negUb).Plus(LowerEnd(t.lb)).Halved()
  }

  /** The offset of a class: the mean height of its free positions, or else the middle of what its
      bounded positions leave, if they bound it from both sides. */
  ghost predicate OffsetFor(s: State, side: int, n: int, offset: Offset)
    requires 0 <= n <= |s.y| && |s.y| == |s.G| == |s.status|
  {
    exists t: Tally :: Tallied(s, side, n, t) && offset == OffsetOf(t)
  }

  /** h is the smallest height of the positions that bound the offset from above. */
  ghost predicate LeastAbove(s: State, side: int, n: int, h: real)
    requires 0 <= n <= |s.y| && |s.y| == |s.G| == |s.status|
  {
    && (exists k :: 0 <= k < n && InSide(s, side, k) && BoundsAbove(s, k) && Height(s, k) == h)
    && forall k :: 0 <= k < n && InSide(s, side, k) && BoundsAbove(s, k) ==> h <= Height(s, k)
  }

  /** h is the largest height of those that bound it from below. */
  ghost predicate MostBelow(s: State, side: int, n: int, h: real)
    requires 0 <= n <= |s.y| && |s.y| == |s.G| == |s.status|
  {
    && (exists k :: 0 <= k < n && InSide(s, side, k) && BoundsBelow(s, k) && Height(s, k) == h)
    && forall k :: 0 <= k < n && InSide(s, side, k) && BoundsBelow(s, k) ==> Height(s, k) <= h
  }

  /** The offset is the mean height of the free positions, or with none of them the middle between what bounds
      it from above and from below. */
  lemma OffsetIsMean(s: State, side: int, n: int, offset: Offset)
    requires 0 <= n <= |s.y| && |s.y| == |s.G| == |s.status| && OffsetFor(s, side, n, offset)
    ensures FreeCount(s, side, n) > 0 ==> offset == Value(FreeSum(s, side, n) / FreeCount(s, side, n) as real)
    ensures FreeCount(s, side, n) == 0 ==>
              forall hi, lo :: LeastAbove(s, side, n, hi) && MostBelow(s, side, n, lo) ==>
                offset == Value((hi + lo) / 2.0)
  {
    var t: Tally :| Tallied(s, side, n, t) && offset == OffsetOf(t);
    hide SumBetween;
  }

  ghost predicate SomeUp(s: State, side: int, n: int)
    requires 0 <= n <= |s.y| && |s.y| == |s.status|
  {
    exists k :: 0 <= k < n && InSide(s, side, k) && UpAt(s, k)
  }

  ghost predicate SomeLow(s: State, side: int, n: int)
    requires 0 <= n <= |s.y| && |s.y| == |s.status|
  {
    exists k :: 0 <= k < n && InSide(s, side, k) && LowAt(s, k)
  }

  /** The offset is a number exactly when something of the class can move up and something down, and
      otherwise the infinity of the side without a bound. */
  lemma OffsetIsFinite(s: State, side: int, n: int, offset: Offset)
    requires 0 <= n <= |s.y| && |s.y| == |s.G| == |s.status| && OffsetFor(s, side, n, offset)
    ensures offset.Kind(SomeUp(s, side, n), SomeLow(s, side, n))
  {
    var t: Tally :| Tallied(s, side, n, t) && offset == OffsetOf(t);
    FreeMovesBothWays(s, side, n, t);
    if t.free == 0 {
      BoundFromAbove(s, side, n, t);
      BoundFromBelow(s, side, n, t);
    }
    hide Tallied, SomeUp, SomeLow;
  }

  lemma FreeMovesBothWays(s: State, side: int, n: int, t: Tally)
    requires 0 <= n <= |s.y| && |s.y| == |s.G| == |s.status| && Tallied(s, side, n, t)
    ensures t.free > 0 ==> SomeUp(s, side, n) && SomeLow(s, side, n)
  {
    hide SumBetween, AboveTallied, BelowTallied;
    if t.free > 0 {
      var k :| 0 <= k < n && InSide(s, side, k) && s.status[k] == Free;
      assert UpAt(s, k) && LowAt(s, k);
    }
  }

  lemma BoundFromAbove(s: State, side: int, n: int, t: Tally)
    requires 0 <= n <= |s.y| && |s.y| == |s.G| == |s.status| && Tallied(s, side, n, t) && t.free == 0
    ensures t.negUb.Finite? <==> SomeUp(s, side, n)
  {
    hide SumBetween, BelowTallied;
    if t.negUb.Finite? {
      var k :| 0 <= k < n && InSide(s, side, k) && BoundsAbove(s, k);
      assert UpAt(s, k);
    }
  }

  lemma BoundFromBelow(s: State, side: int, n: int, t: Tally)
    requires 0 <= n <= |s.y| && |s.y| == |s.G| == |s.status| && Tallied(s, side, n, t) && t.free == 0
    ensures t.lb.Finite? <==> SomeLow(s, side, n)
  {
    hide SumBetween, AboveTallied;
    if t.lb.Finite? {
      var k :| 0 <= k < n && InSide(s, side, k) && BoundsBelow(s, k);
      assert LowAt(s, k);
    }
  }

  /** Something of the class can move up. */
  ghost predicate CanRise(pr: Problem, A: seq<real>, side: int)
    requires pr.Valid() && |A| == |pr.p|
  {
    exists o :: 0 <= o < |A| && (side == 0 || pr.y[o] == side) && pr.Up(A, o)
  }

  /** Something of the class can move down. */
  ghost predicate CanFall(pr: Problem, A: seq<real>, side: int)
    requires pr.Valid() && |A| == |pr.p|
  {
    exists o :: 0 <= o < |A| && (side == 0 || pr.y[o] == side) && pr.Low(A, o)
  }

  /** Where variable o is now. */
  lemma PositionOf(pr: Problem, s: State, side: int, o: nat) returns (k: nat)
    requires Inv(pr, s) && s.active == |pr.p| && o < |pr.p|
    ensures |s.y| == |s.act| == |pr.p| == |s.status| == |s.A| && k < s.active && s.act[k] == o
    ensures InSide(s, side, k) <==> side == 0 || pr.y[o] == side
    ensures (UpAt(s, k) <==> pr.Up(s.A, o)) && (LowAt(s, k) <==> pr.Low(s.A, o))
  {
    k := s.pos[o];
    assert s.act[k] == o && s.y[k] == pr.y[o];
    HeightIs(pr, s, k);
    hide UpAt, LowAt, Problem.Up, Problem.Low, StatusOk, GradOk, GBarOk;
  }

  lemma VariableAt(pr: Problem, s: State, side: int, k: nat)
    requires Inv(pr, s) && s.active == |pr.p| && k < s.active
    ensures |s.y| == |s.act| == |pr.p| == |s.status| == |s.A| && 0 <= s.act[k] < |s.A|
    ensures InSide(s, side, k) <==> side == 0 || pr.y[s.act[k]] == side
    ensures (UpAt(s, k) <==> pr.Up(s.A, s.act[k])) && (LowAt(s, k) <==> pr.Low(s.A, s.act[k]))
  {
    assert s.y[k] == pr.y[s.act[k]];
    HeightIs(pr, s, k);
    hide UpAt, LowAt, Problem.Up, Problem.Low, StatusOk, GradOk, GBarOk;
  }

  lemma UpIsRise(pr: Problem, s: State, side: int)
    requires Inv(pr, s) && s.active == |pr.p| == |s.y| == |s.status|
    ensures pr.Valid() && |s.A| == |pr.p| && (SomeUp(s, side, s.active) <==> CanRise(pr, s.A, side))
  {
    hide UpAt, LowAt, InSide, Problem.Up, Problem.Low, StatusOk, GradOk, GBarOk;
    if SomeUp(s, side, s.active) {
      var a :| 0 <= a < s.active && InSide(s, side, a) && UpAt(s, a);
      VariableAt(pr, s, side, a);
    }
    if CanRise(pr, s.A, side) {
      var o :| 0 <= o < |s.A| && (side == 0 || pr.y[o] == side) && pr.Up(s.A, o);
      var a := PositionOf(pr, s, side, o);
    }
  }

  lemma LowIsFall(pr: Problem, s: State, side: int)
    requires Inv(pr, s) && s.active == |pr.p| == |s.y| == |s.status|
    ensures pr.Valid() && |s.A| == |pr.p| && (SomeLow(s, side, s.active) <==> CanFall(pr, s.A, side))
  {
    hide UpAt, LowAt, InSide, Problem.Up, Problem.Low, StatusOk, GradOk, GBarOk;
    if SomeLow(s, side, s.active) {
      var a :| 0 <= a < s.active && InSide(s, side, a) && LowAt(s, a);
      VariableAt(pr, s, side, a);
    }
    if CanFall(pr, s.A, side) {
      var o :| 0 <= o < |s.A| && (side == 0 || pr.y[o] == side) && pr.Low(s.A, o);
      var a := PositionOf(pr, s, side, o);
    }
  }

  /** With everything active, the kind of the offset is a property of the problem. */
  lemma OffsetKind(pr: Problem, s: State, side: int, offset: Offset)
    requires Inv(pr, s) && s.active == |pr.p| == |s.y| && |s.y| == |s.G| == |s.status|
    requires OffsetFor(s, side, s.active, offset)
    ensures pr.Valid() && |s.A| == |pr.p| && offset.Kind(CanRise(pr, s.A, side), CanFall(pr, s.A, side))
  {
    hide *;
    OffsetIsFinite(s, side, s.active, offset);
    UpIsRise(pr, s, side);
    LowIsFall(pr, s, side);
  }

  /** r separates the class up to eps: nothing that can move up lies below r - eps, nothing that
      can move down lies above r + eps. */
  ghost predicate Separates(s: State, side: int, n: int, eps: real, r: real)
    requires 0 <= n <= |s.y| && |s.y| == |s.G| == |s.status|
  {
    && (forall k :: 0 <= k < n && InSide(s, side, k) && UpAt(s, k) ==> r - eps <= Height(s, k))
    && (forall k :: 0 <= k < n && InSide(s, side, k) && LowAt(s, k) ==> Height(s, k) <= r + eps)
  }

  lemma MeanBetween(n: nat, lo: real, sum: real, hi: real)
    requires n > 0 && SumBetween(n, lo, sum, hi)
    ensures lo <= sum / n as real <= hi
  {
    var m := n as real;
    assert m * (sum / m) == sum;
    assert m * (sum / m - lo) >= 0.0 && m * (hi - sum / m) >= 0.0;
  }

  /** Once no admissible pair violates optimality by eps, the offset separates its class. */
  lemma OffsetSeparates(s: State, nu: bool, eps: real, side: int, t: Tally)
    requires 0 <= s.active <= |s.y| && |s.y| == |s.G| == |s.status| && 0.0 < eps
    requires ActiveOptimal(s, nu, eps) && Tallied(s, side, s.active, t)
    requires if nu then side == 1 || side == -1 else side == 0
    requires OffsetOf(t).Value?
    ensures Separates(s, side, s.active, eps, OffsetOf(t).r)
  {
    var r := OffsetOf(t).r;
    var a, b;
    if t.free > 0 {
      MeanBetween(t.free, t.minFree, t.sum, t.maxFree);
      a :| 0 <= a < s.active && InSide(s, side, a) && s.status[a] == Free && Height(s, a) == t.minFree;
      b :| 0 <= b < s.active && InSide(s, side, b) && s.status[b] == Free && Height(s, b) == t.maxFree;
    } else {
      a :| 0 <= a < s.active && InSide(s, side, a) && BoundsAbove(s, a) && -Height(s, a) == t.negUb.r;
      b :| 0 <= b < s.active && InSide(s, side, b) && BoundsBelow(s, b) && Height(s, b) == t.lb.r;
    }
    SeparatedBy(s, nu, eps, side, a, b, r, t.free > 0);
  }

  lemma SeparatedBy(s: State, nu: bool, eps: real, side: int, a: int, b: int, r: real, free: bool)
    requires 0 <= s.active <= |s.y| && |s.y| == |s.G| == |s.status| && 0.0 < eps && ActiveOptimal(s, nu, eps)
    requires if nu then side == 1 || side == -1 else side == 0
    requires 0 <= a < s.active && InSide(s, side, a) && UpAt(s, a)
    requires 0 <= b < s.active && InSide(s, side, b) && LowAt(s, b)
    requires if free then Height(s, a) <= r <= Height(s, b) else r == (Height(s, a) + Height(s, b)) / 2.0
    requires !free ==> forall k :: 0 <= k < s.active && InSide(s, side, k) && UpAt(s, k) ==>
                         Height(s, a) <= Height(s, k)
    requires !free ==> forall k :: 0 <= k < s.active && InSide(s, side, k) && LowAt(s, k) ==>
                         Height(s, k) <= Height(s, b)
    ensures Separates(s, side, s.active, eps, r)
  {
    assert Movable(s, nu, a, b);
    forall k | 0 <= k < s.active && InSide(s, side, k) && UpAt(s, k)
      ensures r - eps <= Height(s, k)
    {
      assert Movable(s, nu, k, b);
    }
    forall k | 0 <= k < s.active && InSide(s, side, k) && LowAt(s, k)
      ensures Height(s, k) <= r + eps
    {
      assert Movable(s, nu, a, k);
    }
  }

  /** Separation of the two classes at every position is separation in the caller's order. */
  lemma PositionsSeparated(pr: Problem, s: State, eps: real, pos: real, neg: real)
    requires Inv(pr, s) && s.active == |pr.p|
    requires forall k :: 0 <= k < s.active ==>
      var m := if s.y[k] == 1 then pos else neg;
      (UpAt(s, k) ==> m - eps <= Height(s, k)) && (LowAt(s, k) ==> Height(s, k) <= m + eps)
    ensures Separated(pr, s.A, eps, pos, neg)
  {
    forall o | 0 <= o < |s.A|
      ensures var m := if pr.y[o] == 1 then pos else neg;
        (pr.Up(s.A, o) ==> m - eps <= pr.Height(s.A, o)) && (pr.Low(s.A, o) ==> pr.Height(s.A, o) <= m + eps)
    {
      HeightIs(pr, s, s.pos[o]);
    }
  }
}
