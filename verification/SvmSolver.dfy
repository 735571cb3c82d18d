/** The SMO solver (classes Solver and Solver_NU). The flag nu selects the overriding
    working-set selection, shrinking and offset of the nu-solver. */
module SvmSolver {
  import opened Vectors
  import opened SvmProblem
  import opened KernelMatrix
  import opened SvmState
  import opened SvmSelection
  import opened SmoStep
  import opened SvmReconstruct
  import opened SvmOptimality
  import KernelCache

  /** Q is the kernel matrix with the labels multiplied in. */
  ghost predicate Matches(pr: Problem, kernel: (int, int) -> real)
  {
    && pr.Valid()
    && forall a, b :: 0 <= a < |pr.y| && 0 <= b < |pr.y| ==>
         pr.K[a][b] == (pr.y[a] * pr.y[b]) as real * kernel(a, b)
  }

  lemma EntryIs(pr: Problem, s: State, kernel: (int, int) -> real, i: nat, j: nat)
    requires Matches(pr, kernel) && Placed(pr, s) && i < |s.act| && j < |s.act|
    ensures EntryOf(kernel, s.act, s.y, i, j) == pr.K[s.act[i]][s.act[j]]
  {
  }

  lemma DiagonalIs(pr: Problem, s: State, kernel: (int, int) -> real, d: seq<real>, i: nat)
    requires Matches(pr, kernel) && Placed(pr, s) && i < |s.act| && Diagonal(kernel, s.act, d)
    ensures d[i] == pr.K[s.act[i]][s.act[i]]
  {
  }

  /** v on its first n coordinates, 0 on the others. */
  function Upto(v: seq<real>, n: nat): seq<real>
    requires n <= |v|
  {
    seq(|v|, o requires 0 <= o < |v| => if o < n then v[o] else 0.0)
  }

  lemma UptoGrows(v: seq<real>, n: nat)
    requires n < |v|
    ensures Upto(v, n + 1) == Upto(v, n)[n := Upto(v, n)[n] + v[n]]
    ensures v[n] == 0.0 ==> Upto(v, n + 1) == Upto(v, n)
  {
  }

  lemma UptoEnds(v: seq<real>, n: nat)
    requires n < |v|
    ensures |Upto(v, n)| == |v| && Upto(v, n)[n] == 0.0
  {
  }

  /** g += c·(row o of Q), element by element: where g held off + Q·v before, coordinate o of v
      has grown by c afterwards. */
  method AddRow(g: array<real>, row: seq<real>, c: real, ghost pr: Problem, ghost act: seq<int>, ghost off: seq<real>,
                ghost v: seq<real>, ghost o: nat)
    requires pr.Valid() && |off| == |v| == |pr.p| && |row| == g.Length == |act| && o < |v|
    requires forall k :: 0 <= k < |act| ==> 0 <= act[k] < |pr.p| && row[k] == pr.K[o][act[k]]
    requires Tracks(pr, act, off, v, g[..], |act|)
    modifies g
    ensures Tracks(pr, act, off, v[o := v[o] + c], g[..], |act|)
  {
    ghost var was := g[..];
    for k := 0 to g.Length
      invariant forall m :: 0 <= m < k ==> g[m] == was[m] + c * row[m]
      invariant forall m :: k <= m < g.Length ==> g[m] == was[m]
    {
      g[k] := g[k] + c * row[k];
    }
    TracksAddRow(pr, act, off, v, was, g[..], |act|, o, c);
  }

  /** v += c·row, element by element. */
  method AddMultiple(v: array<real>, row: seq<real>, c: real)
    requires |row| == v.Length
    modifies v
    ensures forall k :: 0 <= k < v.Length ==> v[k] == old(v[k]) + row[k] * c
  {
    for k := 0 to v.Length
      invariant forall m :: 0 <= m < k ==> v[m] == old(v[m]) + row[m] * c
      invariant forall m :: k <= m < v.Length ==> v[m] == old(v[m])
    {
      v[k] := v[k] + row[k] * c;
    }
  }

  method AddTwoRows(v: array<real>, n: int, row: seq<real>, row': seq<real>, c: real, c': real)
    requires 0 <= n <= v.Length && n <= |row| && n <= |row'|
    modifies v
    ensures forall k :: 0 <= k < n ==> v[k] == old(v[k]) + (row[k] * c + row'[k] * c')
  {
    for k := 0 to n
      invariant forall m :: 0 <= m < k ==> v[m] == old(v[m]) + (row[m] * c + row'[m] * c')
      invariant forall m :: k <= m < v.Length ==> v[m] == old(v[m])
    {
      v[k] := v[k] + (row[k] * c + row'[k] * c');
    }
  }

  /** g += c·(row o of Q) on the positions from lo on; there g held p + Q·v before. */
  method AddTail(g: array<real>, lo: int, row: seq<real>, c: real, ghost pr: Problem, ghost act: seq<int>,
                 ghost v: seq<real>, ghost o: nat)
    requires pr.Valid() && |v| == |pr.p| && 0 <= lo <= |row| == g.Length == |act| && o < |v|
    requires forall k :: 0 <= k < |act| ==> 0 <= act[k] < |pr.p| && row[k] == pr.K[o][act[k]]
    requires TailTracks(pr, act, v, g[..], lo)
    modifies g
    ensures forall k :: 0 <= k < lo ==> g[k] == old(g[k])
    ensures TailTracks(pr, act, v[o := v[o] + c], g[..], lo)
  {
    ghost var was := g[..];
    for k := lo to g.Length
      invariant forall m :: 0 <= m < lo ==> g[m] == was[m]
      invariant forall m :: lo <= m < k ==> g[m] == was[m] + c * row[m]
      invariant forall m :: k <= m < g.Length ==> g[m] == was[m]
    {
      g[k] := g[k] + c * row[k];
    }
    TailAddRow(pr, act, v, was, g[..], lo, o, c);
  }

  /** Position i receives alpha[j]·row[j] for every free position j below n; row is row i of Q. */
  method FillPosition(G: array<real>, i: int, n: int, alpha: array<real>, status: array<Status>, row: seq<real>,
                      ghost pr: Problem, ghost s: State)
    requires pr.Valid() && Placed(pr, s) && StatusOk(pr, s) && alpha[..] == s.alpha && status[..] == s.status
    requires G != alpha && G.Length == |s.act| && 0 <= i < |s.act| && 0 <= n <= |s.act| && n <= |row|
    requires forall c :: 0 <= c < n ==> row[c] == pr.K[s.act[i]][s.act[c]]
    requires G[i] == pr.p[s.act[i]] + Dot(pr.K[s.act[i]], Filled(pr, s, 0))
    modifies G
    ensures G[..] == old(G[..])[i := pr.p[s.act[i]] + Dot(pr.K[s.act[i]], Filled(pr, s, n))]
  {
    hide Filled;
    ghost var o := s.act[i];
    for j := 0 to n
      invariant forall k :: 0 <= k < G.Length && k != i ==> G[k] == old(G[k])
      invariant G[i] == pr.p[o] + Dot(pr.K[o], Filled(pr, s, j))
    {
      FillStep(pr, s, o, j);
      if status[j] == Free {
        G[i] := G[i] + alpha[j] * row[j];
      }
    }
  }

  /** now is was plus d times row o of Q, everywhere. */
  ghost predicate RowAdded(pr: Problem, act: seq<int>, was: seq<real>, now: seq<real>, o: int, d: real)
    requires pr.Valid() && |was| == |now| == |act| && 0 <= o < |pr.p|
    requires forall k :: 0 <= k < |act| ==> 0 <= act[k] < |pr.p|
  {
    forall k :: 0 <= k < |act| ==> now[k] == was[k] + pr.K[o][act[k]] * d
  }

  lemma RowAddedIs(pr: Problem, act: seq<int>, was: seq<real>, now: seq<real>, o: int, row: seq<real>, d: real)
    requires pr.Valid() && |was| == |now| == |act| == |row| && 0 <= o < |pr.p|
    requires forall k :: 0 <= k < |act| ==> 0 <= act[k] < |pr.p| && row[k] == pr.K[o][act[k]]
    requires forall k :: 0 <= k < |act| ==> now[k] == was[k] + row[k] * d
    ensures RowAdded(pr, act, was, now, o, d)
  {
  }

  lemma RowAddedZero(pr: Problem, act: seq<int>, was: seq<real>, o: int)
    requires pr.Valid() && |was| == |act| && 0 <= o < |pr.p|
    requires forall k :: 0 <= k < |act| ==> 0 <= act[k] < |pr.p|
    ensures RowAdded(pr, act, was, was, o, 0.0)
  {
  }

  lemma GradientMovedIs(pr: Problem, act: seq<int>, was: seq<real>, now: seq<real>, n: int, oi: int, oj: int,
                        Qi: seq<real>, Qj: seq<real>, di: real, dj: real)
    requires pr.Valid() && |was| == |now| == |act| && 0 <= oi < |pr.p| && 0 <= oj < |pr.p|
    requires 0 <= n <= |act| && n <= |Qi| && n <= |Qj|
    requires forall k :: 0 <= k < |act| ==> 0 <= act[k] < |pr.p|
    requires forall k :: 0 <= k < n ==> Qi[k] == pr.K[oi][act[k]] && Qj[k] == pr.K[oj][act[k]]
    requires forall k :: 0 <= k < n ==> now[k] == was[k] + (Qi[k] * di + Qj[k] * dj)
    ensures GradientMoved(pr, act, was, now, n, oi, oj, di, dj)
  {
  }

  /** Two successive row additions. */
  lemma RowAddedTwice(pr: Problem, act: seq<int>, was: seq<real>, mid: seq<real>, now: seq<real>,
                      oi: int, oj: int, di: real, dj: real)
    requires pr.Valid() && |was| == |mid| == |now| == |act| && 0 <= oi < |pr.p| && 0 <= oj < |pr.p|
    requires forall k :: 0 <= k < |act| ==> 0 <= act[k] < |pr.p|
    requires RowAdded(pr, act, was, mid, oi, di) && RowAdded(pr, act, mid, now, oj, dj)
    ensures GradientMoved(pr, act, was, now, |act|, oi, oj, di, dj)
  {
  }

  method Clone<T>(s: seq<T>) returns (a: array<T>)
    ensures fresh(a) && a[..] == s
  {
    a := new T[|s|](i requires 0 <= i < |s| => s[i]);
  }

  lemma Quotients(v: real, a: real)
    requires v > 0.0 && a > 0.0
    ensures v / a > 0.0 && (-v) / a == -(v / a)
  {
  }

  /** The curvature along a pair as the step uses it: never zero or negative. */
  ghost function Steepness(pr: Problem, i: nat, j: nat): (a: real)
    requires pr.Valid() && i < |pr.y| && j < |pr.y|
    ensures a > 0.0
  {
    if pr.Curvature(i, j) <= 0.0 then TAU else pr.Curvature(i, j)
  }

  /** row serves as row idx of Q on the active positions; nothing is said when idx is -1. */
  ghost predicate ActiveRow(pr: Problem, act: seq<int>, active: int, idx: int, row: seq<real>)
    requires pr.Valid() && 0 <= active <= |act| == |pr.p|
    requires forall k :: 0 <= k < |act| ==> 0 <= act[k] < |pr.p|
  {
    && -1 <= idx < active
    && (idx >= 0 ==> active <= |row| <= |act|)
    && (idx >= 0 ==> forall c :: 0 <= c < |row| && c < |act| ==> row[c] == pr.K[act[idx]][act[c]])
  }

  /** Length of the unclipped Newton step along a pair. */
  ghost function FullStep(pr: Problem, A: seq<real>, i: nat, j: nat): real
    requires pr.Valid() && |A| == |pr.p| && i < |A| && j < |A|
  {
    pr.Violation(A, i, j) / Steepness(pr, i, j)
  }

  /** Where the objective curves upward along the pair, the full step leads to its lowest point; where it
      does not, the step is 10^12 times the violation. */
  lemma FullStepMinimises(pr: Problem, A: seq<real>, i: nat, j: nat, t: real)
    requires pr.Valid() && |A| == |pr.p| && i < |A| && j < |A| && i != j
    ensures pr.Curvature(i, j) > 0.0 ==>
      pr.Objective(pr.Stepped(A, i, j, FullStep(pr, A, i, j))) <= pr.Objective(pr.Stepped(A, i, j, t))
    ensures pr.Curvature(i, j) <= 0.0 ==> FullStep(pr, A, i, j) == 1_000_000_000_000.0 * pr.Violation(A, i, j)
  {
    hide Problem.Objective, Problem.Violation, Problem.Curvature, Problem.Stepped, Parabola;
    if pr.Curvature(i, j) > 0.0 {
      VertexIsLowest(pr.Objective(A), pr.Violation(A, i, j), pr.Curvature(i, j), t);
      ObjectiveStepped(pr, A, i, j, t);
      ObjectiveStepped(pr, A, i, j, FullStep(pr, A, i, j));
    }
  }

  /** The estimate by which the partner is selected is twice what the full step gains, where the curvature
      is positive. */
  lemma GainIsDecrease(pr: Problem, s: State, i: nat, j: nat)
    requires Inv(pr, s) && i < s.active && j < s.active && s.act[i] != s.act[j]
    requires pr.Curvature(s.act[i], s.act[j]) > 0.0
    ensures pr.Objective(pr.Stepped(s.A, s.act[i], s.act[j], FullStep(pr, s.A, s.act[i], s.act[j])))
         == pr.Objective(s.A) + 0.5 * Gain(pr, s, i, j)
  {
    hide Problem.Objective, Problem.Curvature, Problem.Stepped, Problem.Height, Parabola, Inv, Problem.Valid, Placed,
      Height;
    InvParts(pr, s);
    InvSizes(pr, s);
    HeightIs(pr, s, i);
    HeightIs(pr, s, j);
    var oi, oj := s.act[i], s.act[j];
    VertexIsLowest(pr.Objective(s.A), pr.Violation(s.A, oi, oj), pr.Curvature(oi, oj), 0.0);
    ObjectiveStepped(pr, s.A, oi, oj, FullStep(pr, s.A, oi, oj));
  }

  /** now is the alpha array of s after a clipped Newton step along the pair of positions (i, j):
      of length t, at most the full step, and shorter only when a bound of the box stops it. */
  ghost predicate PairMoved(pr: Problem, s: State, now: seq<real>, i: nat, j: nat, t: real)
    requires pr.Valid() && Placed(pr, s) && i < |s.act| && j < |s.act| && i != j
  {
    var oi, oj := s.act[i], s.act[j];
    && 0.0 < t <= FullStep(pr, s.A, oi, oj)
    && now == s.alpha[i := s.alpha[i] + (if s.y[i] == 1 then t else -t)]
                     [j := s.alpha[j] - (if s.y[j] == 1 then t else -t)]
    && 0.0 <= now[i] <= pr.C(oi) && 0.0 <= now[j] <= pr.C(oj)
    && (t < FullStep(pr, s.A, oi, oj) ==>
          now[i] == (if s.y[i] == 1 then pr.C(oi) else 0.0) || now[j] == (if s.y[j] == 1 then 0.0 else pr.C(oj)))
  }

  /** In the caller's order that is a step along the pair. */
  lemma PairMovedIs(pr: Problem, s: State, now: seq<real>, i: nat, j: nat, t: real)
    requires pr.Valid() && Placed(pr, s) && i < |s.act| && j < |s.act| && i != j
    requires PairMoved(pr, s, now, i, j, t)
    ensures pr.Stepped(s.A, s.act[i], s.act[j], t) == s.A[s.act[i] := now[i]][s.act[j] := now[j]]
  {
    PlacedPair(pr, s, i, j);
    SteppedIs(pr, s.A, s.act[i], s.act[j], t);
  }

  /** The pair has room to move in its box. */
  ghost predicate Room(pr: Problem, s: State, i: nat, j: nat)
    requires Placed(pr, s) && i < |s.act| && j < |s.act|
  {
    && (s.y[i] == 1 || s.y[i] == -1) && (s.y[j] == 1 || s.y[j] == -1)
    && 0.0 <= s.alpha[i] <= pr.C(s.act[i]) && 0.0 <= s.alpha[j] <= pr.C(s.act[j])
    && (if s.y[i] == 1 then s.alpha[i] < pr.C(s.act[i]) else 0.0 < s.alpha[i])
    && (if s.y[j] == 1 then 0.0 < s.alpha[j] else s.alpha[j] < pr.C(s.act[j]))
  }

  lemma RoomToMove(pr: Problem, s: State, nu: bool, i: nat, j: nat)
    requires Inv(pr, s) && Chosen(pr, s, nu, i, j)
    ensures i < s.active && j < s.active && i != j && Room(pr, s, i, j)
    ensures Height(s, j) - Height(s, i) > 0.0
    ensures nu ==> pr.y[s.act[i]] == pr.y[s.act[j]]
  {
    HeightIs(pr, s, i);
    HeightIs(pr, s, j);
    PlacedPair(pr, s, i, j);
  }

  method ClipAt(alpha: array<real>, i: int, j: int, yi: int, yj: int, Ci: real, Cj: real, delta: real,
                ghost t0: real, ghost pr: Problem, ghost s: State)
    returns (ghost t: real)
    requires pr.Valid() && Placed(pr, s) && 0 <= i < |s.act| && 0 <= j < |s.act| && i != j
    requires alpha[..] == s.alpha && yi == s.y[i] && yj == s.y[j] && Ci == pr.C(s.act[i]) && Cj == pr.C(s.act[j])
    requires Room(pr, s, i, j) && 0.0 < t0 == FullStep(pr, s.A, s.act[i], s.act[j])
    requires delta == (if yi != yj then (if yi == 1 then t0 else -t0) else (if yi == 1 then -t0 else t0))
    modifies alpha
    ensures PairMoved(pr, s, alpha[..], i, j, t)
  {
    hide FullStep;
    t := ClipPair(alpha, i, j, yi, yj, Ci, Cj, delta, t0);
    assert alpha[..] == s.alpha[i := alpha[i]][j := alpha[j]];
  }

  /** The step is the whole Newton step, or ends where one of the two variables meets its bound. */
  ghost predicate Longest(pr: Problem, A: seq<real>, A': seq<real>, i: nat, j: nat, t: real)
    requires pr.Valid() && |A| == |A'| == |pr.p| && i < |A| && j < |A|
  {
    || t == FullStep(pr, A, i, j)
    || (t < FullStep(pr, A, i, j)
        && (A'[i] == (if pr.y[i] == 1 then pr.C(i) else 0.0) || A'[j] == (if pr.y[j] == 1 then 0.0 else pr.C(j))))
  }

  lemma PairMovedLongest(pr: Problem, s: State, now: seq<real>, i: nat, j: nat, t: real)
    requires pr.Valid() && Placed(pr, s) && i < |s.act| && j < |s.act| && i != j
    requires PairMoved(pr, s, now, i, j, t)
    ensures Longest(pr, s.A, s.A[s.act[i] := now[i]][s.act[j] := now[j]], s.act[i], s.act[j], t)
  {
    PlacedPair(pr, s, i, j);
    hide FullStep;
  }

  /** What one optimization step of length t along the pair (i, j) achieves: it lowers the
      objective and keeps every conserved sum. */
  ghost predicate Progress(pr: Problem, nu: bool, A: seq<real>, A': seq<real>, i: nat, j: nat, t: real)
    requires pr.Valid() && |A| == |A'| == |pr.p| && i < |A| && j < |A|
  {
    && 0.0 < t && A' == pr.Stepped(A, i, j, t) && Longest(pr, A, A', i, j, t)
    && pr.Objective(A') <= pr.Objective(A) - 0.5 * pr.Violation(A, i, j) * t
    && pr.Objective(A') < pr.Objective(A)
    && pr.Balance(A') == pr.Balance(A)
    && (nu ==> pr.ClassSum(A', 1) == pr.ClassSum(A, 1) && pr.ClassSum(A', -1) == pr.ClassSum(A, -1))
  }

  lemma StepProgresses(pr: Problem, nu: bool, A: seq<real>, i: nat, j: nat, t: real)
    requires pr.Valid() && |A| == |pr.p| && i < |A| && j < |A| && i != j
    requires 0.0 < t <= FullStep(pr, A, i, j) && (nu ==> pr.y[i] == pr.y[j])
    requires Longest(pr, A, pr.Stepped(A, i, j, t), i, j, t)
    ensures Progress(pr, nu, A, pr.Stepped(A, i, j, t), i, j, t)
  {
    StepDescends(pr, A, i, j, Steepness(pr, i, j), t);
    BalanceStepped(pr, A, i, j, t);
  }

  /** A' is one optimization step away from A. */
  ghost predicate Improves(pr: Problem, nu: bool, A: seq<real>, A': seq<real>)
  {
    && pr.Valid() && |A| == |A'| == |pr.p|
    && exists i: nat, j: nat, t: real :: i < |A| && j < |A| && Progress(pr, nu, A, A', i, j, t)
  }

  /** The points of a run of steps. */
  ghost predicate Descent(pr: Problem, nu: bool, trail: seq<seq<real>>)
  {
    |trail| >= 1 && forall k :: 0 <= k < |trail| - 1 ==> Improves(pr, nu, trail[k], trail[k + 1])
  }

  lemma DescentNext(pr: Problem, nu: bool, trail: seq<seq<real>>, A: seq<real>)
    requires Descent(pr, nu, trail) && Improves(pr, nu, trail[|trail| - 1], A)
    ensures Descent(pr, nu, trail + [A])
  {
    hide Improves;
  }

  lemma ImprovedOnce(pr: Problem, nu: bool, A: seq<real>, A': seq<real>)
    requires Improves(pr, nu, A, A')
    ensures pr.Valid() && |A| == |A'| == |pr.p| && pr.Objective(A') < pr.Objective(A) && SameSums(pr, A, A', nu)
  {
    hide Problem.Objective, Problem.Valid, Problem.Stepped, Longest;
  }

  /** A clipped move with its bookkeeping is one whole optimization step. */
  lemma StepCompletes(pr: Problem, nu: bool, s: State, s': State, i: nat, j: nat, t: real)
    requires Inv(pr, s) && Chosen(pr, s, nu, i, j)
    requires |s'.alpha| == |s.act| && PairMoved(pr, s, s'.alpha, i, j, t)
    requires Moved(pr, s, s', i, j, s'.alpha[i], s'.alpha[j])
    ensures Inv(pr, s') && Progress(pr, nu, s.A, s'.A, s.act[i], s.act[j], t)
  {
    RoomToMove(pr, s, nu, i, j);
    PlacedPair(pr, s, i, j);
    PairMovedIs(pr, s, s'.alpha, i, j, t);
    PairMovedLongest(pr, s, s'.alpha, i, j, t);
    MovedKeepsInv(pr, s, s', i, j, s'.alpha[i], s'.alpha[j]);
    hide FullStep, Progress, Inv, Longest;
    StepProgresses(pr, nu, s.A, s.act[i], s.act[j], t);
  }

  /** The variables at positions below n, in the caller's order; the others 0. */
  ghost function Gathered(pr: Problem, s: State, n: nat): (v: seq<real>)
    requires Placed(pr, s)
    ensures |v| == |s.A|
  {
    seq(|s.A|, o requires 0 <= o < |s.A| => if s.pos[o] < n then s.A[o] else 0.0)
  }

  lemma GatherNext(pr: Problem, s: State, n: nat)
    requires Placed(pr, s) && n < |s.act|
    ensures Gathered(pr, s, n + 1) == Gathered(pr, s, n)[s.act[n] := Gathered(pr, s, n)[s.act[n]] + s.alpha[n]]
  {
    forall o | 0 <= o < |s.A| && o != s.act[n]
      ensures Gathered(pr, s, n + 1)[o] == Gathered(pr, s, n)[o]
    {
      assert s.pos[o] != n;
    }
    assert s.pos[s.act[n]] == n;
  }

  function ObjectiveTerm(alpha: real, g: real, p: real): real
  {
    alpha * (g + p)
  }

  /** One more term of the objective sum. */
  lemma GatherTerm(pr: Problem, s: State, n: nat)
    requires Inv(pr, s) && s.active == |pr.p| && n < |s.act|
    ensures var w := ObjectiveWeights(pr, s.A);
      Dot(w, Gathered(pr, s, n + 1)) == Dot(w, Gathered(pr, s, n)) + ObjectiveTerm(s.alpha[n], s.G[n], s.p[n])
  {
    hide Inv, Placed, Dot, Gathered, ObjectiveWeights, Problem.Valid;
    InvSizes(pr, s);
    var w := ObjectiveWeights(pr, s.A);
    WeightIs(pr, s, n);
    GatherNext(pr, s, n);
    DotShift(w, Gathered(pr, s, n), s.act[n], s.alpha[n]);
  }

  lemma WeightIs(pr: Problem, s: State, n: nat)
    requires Inv(pr, s) && s.active == |pr.p| && n < |s.act|
    ensures Placed(pr, s) && |ObjectiveWeights(pr, s.A)| == |s.A| == |s.alpha| == |s.G| == |s.p| == |s.act|
    ensures 0 <= s.act[n] < |s.A|
    ensures ObjectiveWeights(pr, s.A)[s.act[n]] == s.G[n] + s.p[n]
  {
  }

  /** Σ alpha[i](G[i] + p[i]), in the current order. */
  method SumObjective(alpha: array<real>, G: array<real>, p: array<real>, ghost pr: Problem, ghost s: State)
    returns (v: real)
    requires Inv(pr, s) && s.active == |pr.p| && alpha[..] == s.alpha && G[..] == s.G && p[..] == s.p
    ensures v == Dot(ObjectiveWeights(pr, s.A), Gathered(pr, s, |s.act|))
  {
    ghost var w := ObjectiveWeights(pr, s.A);
    v := 0.0;
    DotToZero(w, Gathered(pr, s, 0), |w|);
    assert |s.A| == |s.act| == |s.alpha| == |s.G| == |s.p| == |w| == |pr.p|;
    hide *;
    for i := 0 to alpha.Length
      invariant v == Dot(w, Gathered(pr, s, i))
    {
      GatherTerm(pr, s, i);
      v := v + ObjectiveTerm(alpha[i], G[i], p[i]);
    }
  }

  lemma GatherAll(pr: Problem, s: State)
    requires Placed(pr, s)
    ensures Gathered(pr, s, |s.act|) == s.A
  {
  }

  /** Offsets that separate each class separate the problem. */
  lemma SidesSeparate(pr: Problem, s: State, nu: bool, eps: real, pos: real, neg: real)
    requires Inv(pr, s) && s.active == |pr.p|
    requires if nu then Separates(s, 1, s.active, eps, pos) && Separates(s, -1, s.active, eps, neg)
             else pos == neg && Separates(s, 0, s.active, eps, pos)
    ensures Separated(pr, s.A, eps, pos, neg)
  {
    forall k | 0 <= k < s.active
      ensures var m := if s.y[k] == 1 then pos else neg;
        (UpAt(s, k) ==> m - eps <= Height(s, k)) && (LowAt(s, k) ==> Height(s, k) <= m + eps)
    {
      assert s.y[k] == pr.y[s.act[k]];
      assert InSide(s, if nu then s.y[k] else 0, k);
    }
    PositionsSeparated(pr, s, eps, pos, neg);
  }

  /** What Solve reports: objective value, offset, and the second offset of the nu-solver. */
  datatype SolutionInfo = SolutionInfo(obj: real, rho: Offset, r: Offset, upperBoundP: real, upperBoundN: real)

  /** Half the sum and half the difference of the offsets of the two classes. */
  ghost predicate Mixed(pos: Offset, neg: Offset, rho: Offset, r: Offset)
  {
    rho == pos.Plus(neg).Halved() && r == pos.Plus(neg.Negated()).Halved()
  }

  ghost predicate KindFor(pr: Problem, A: seq<real>, side: int, offset: Offset)
    requires pr.Valid() && |A| == |pr.p|
  {
    offset.Kind(CanRise(pr, A, side), CanFall(pr, A, side))
  }

  /** The offsets are numbers exactly when the variables leave them bounded, and the infinity of the open
      side or NaN otherwise; only the nu-solver has a second one. */
  ghost predicate OffsetsKind(pr: Problem, nu: bool, A: seq<real>, rho: Offset, r: Offset)
    requires pr.Valid() && |A| == |pr.p|
  {
    if nu then exists pos: Offset, neg: Offset ::
      KindFor(pr, A, 1, pos) && KindFor(pr, A, -1, neg) && Mixed(pos, neg, rho, r)
    else KindFor(pr, A, 0, rho) && r == Value(0.0)
  }

  /** rho and r combine the offsets of the two classes, or rho is the offset of both. */
  ghost predicate Combined(s: State, nu: bool, rho: Offset, r: Offset)
    requires 0 <= s.active <= |s.y| && |s.y| == |s.G| == |s.status|
  {
    if nu then
      exists pos: Offset, neg: Offset {:trigger OffsetFor(s, 1, s.active, pos), OffsetFor(s, -1, s.active, neg)} ::
      && OffsetFor(s, 1, s.active, pos) && OffsetFor(s, -1, s.active, neg)
      && Mixed(pos, neg, rho, r)
    else OffsetFor(s, 0, s.active, rho) && r == Value(0.0)
  }

  ghost predicate Reported(pr: Problem, nu: bool, eps: real, A: seq<real>, info: SolutionInfo)
    requires pr.Valid() && |A| == |pr.p|
  {
    && info.obj == pr.Objective(A)
    && OffsetsKind(pr, nu, A, info.rho, info.r)
    && (info.rho.Value? && info.r.Value? ==>
          Separated(pr, A, eps, info.rho.r + info.r.r, info.rho.r - info.r.r))
    && info.upperBoundP == pr.Cp && info.upperBoundN == pr.Cn
  }

  lemma LabelIs(pr: Problem, s: State, j: nat)
    requires pr.Valid() && Placed(pr, s) && j < |s.y|
    ensures s.y[j] == 1 || s.y[j] == -1
  {
    assert s.y[j] == pr.y[s.act[j]];
  }

  lemma OtherClassLow(s: State, side: int, n: int, g: Ext)
    requires 0 <= n < |s.y| && |s.y| == |s.G| == |s.status| && MaxLow(s, side, n, g) && side != 0 && s.y[n] != side
    ensures MaxLow(s, side, n + 1, g)
  {
    MaxLowNext(s, side, n, g);
    hide MaxLow;
  }

  lemma InvParts(pr: Problem, s: State)
    requires Inv(pr, s)
    ensures pr.Valid() && Placed(pr, s) && StatusOk(pr, s) && |s.act| == |pr.p| && 0 <= s.active <= |s.act|
    ensures forall k :: 0 <= k < |s.act| ==> 0 <= s.act[k] < |pr.p|
  {
  }

  /** The curvature of a pair without multiplying labels. */
  lemma CurvatureByLabels(pr: Problem, i: nat, j: nat)
    requires pr.Valid() && i < |pr.y| && j < |pr.y|
    ensures |pr.K| == |pr.y| && |pr.K[i]| == |pr.y| == |pr.K[j]|
    ensures pr.Curvature(i, j)
            == pr.K[i][i] + pr.K[j][j] + if pr.y[i] != pr.y[j] then 2.0 * pr.K[i][j] else -2.0 * pr.K[i][j]
  {
    assert (pr.y[i] == 1 || pr.y[i] == -1) && (pr.y[j] == 1 || pr.y[j] == -1);
  }

  /** The violation of a pair without multiplying labels. */
  lemma HeightsByLabels(pr: Problem, s: State, nu: bool, i: nat, j: nat)
    requires Inv(pr, s) && i < s.active && j < s.active
    ensures |s.y| == |s.G| == |s.act| == |pr.p| == |s.A| && 0 <= s.act[i] < |s.A| && 0 <= s.act[j] < |s.A|
    ensures (s.y[i] == 1 || s.y[i] == -1) && (s.y[j] == 1 || s.y[j] == -1) && pr.Valid()
    ensures Height(s, j) - Height(s, i) == pr.Violation(s.A, s.act[i], s.act[j])
    ensures Height(s, j) - Height(s, i)
            == if s.y[i] != s.y[j] then (if s.y[i] == 1 then -s.G[i] - s.G[j] else s.G[i] + s.G[j])
               else (if s.y[i] == 1 then s.G[j] - s.G[i] else s.G[i] - s.G[j])
  {
    LabelIs(pr, s, i);
    LabelIs(pr, s, j);
    PairIs(pr, s, nu, i, j);
    hide StatusOk, GradOk, GBarOk, Problem.Violation;
  }

  lemma InvSizes(pr: Problem, s: State)
    requires Inv(pr, s)
    ensures pr.Valid() && |s.A| == |pr.p| == |s.act| && forall k :: 0 <= k < |s.act| ==> 0 <= s.act[k] < |s.A|
    ensures pr.Feasible(s.A)
  {
  }

  lemma ChosenRange(pr: Problem, s: State, nu: bool, i: int, j: int)
    requires Inv(pr, s) && Chosen(pr, s, nu, i, j)
    ensures 0 <= i < s.active && 0 <= j < s.active
  {
  }

  /** A moved pair leaves the other variables alone, and the arrays still fit together. */
  lemma PairMovedOnly(pr: Problem, s: State, now: seq<real>, i: nat, j: nat, t: real)
    requires pr.Valid() && Placed(pr, s) && i < |s.act| && j < |s.act| && i != j && PairMoved(pr, s, now, i, j, t)
    ensures |now| == |s.alpha| == |s.act| == |s.A| && s.act[i] < |s.A| && s.act[j] < |s.A| && 0 <= s.act[i]
    ensures 0 <= s.act[j]
    ensures now == s.alpha[i := now[i]][j := now[j]]
    ensures Placed(pr, s.(A := s.A[s.act[i] := now[i]][s.act[j] := now[j]], alpha := now))
  {
    PlacedPair(pr, s, i, j);
    forall k | 0 <= k < |s.act| && k != i && k != j
      ensures s.act[k] != s.act[i] && s.act[k] != s.act[j]
    {
      PlacedPair(pr, s, i, k);
      PlacedPair(pr, s, j, k);
    }
    hide FullStep;
  }

  lemma PlacedAlpha(pr: Problem, s: State, k: nat)
    requires Placed(pr, s) && k < |s.act|
    ensures |s.alpha| == |s.act| == |s.A| && 0 <= s.act[k] < |s.A| && s.alpha[k] == s.A[s.act[k]]
  {
  }

  lemma PlaceOf(pr: Problem, s: State, o: nat)
    requires Placed(pr, s) && o < |s.act|
    ensures |s.pos| == |s.act| == |s.A| && 0 <= s.pos[o] < |s.act| && s.act[s.pos[o]] == o
  {
  }

  /** What an exchange of two positions gives, array by array. */
  lemma SwappedFits(pr: Problem, s: State, i: nat, j: nat)
    requires Placed(pr, s) && i < |s.act| && j < |s.act|
    ensures |s.act| == |s.y| == |s.p| == |s.alpha| == |s.status| == |s.G| == |s.GBar| == |s.pos|
    ensures 0 <= s.act[i] < |s.pos| && 0 <= s.act[j] < |s.pos|
    ensures Swapped(s, i, j)
         == State(Swap(s.act, i, j), s.pos[s.act[i] := j][s.act[j] := i], Swap(s.y, i, j), Swap(s.p, i, j),
                  Swap(s.alpha, i, j), Swap(s.status, i, j), Swap(s.G, i, j), Swap(s.GBar, i, j), s.active, s.A)
  {
    hide Swap;
  }

  lemma SwappedLabels(s: State, i: nat, j: nat)
    requires |s.act| == |s.y| == |s.p| == |s.alpha| == |s.status| == |s.G| == |s.GBar| && i < |s.act| && j < |s.act|
    requires 0 <= s.act[i] < |s.pos| && 0 <= s.act[j] < |s.pos|
    ensures Swapped(s, i, j).act == Swap(s.act, i, j) && Swapped(s, i, j).y == Swap(s.y, i, j)
  {
    hide Swap;
  }

  /** The second-order estimate from the curvature and the violation as they are computed. */
  lemma GainFrom(pr: Problem, s: State, i: int, j: int, quadCoef: real, gradDiff: real)
    requires pr.Valid() && Placed(pr, s) && 0 <= i < |s.act| && 0 <= j < |s.act|
    requires |s.y| == |s.G| == |s.act| && 0 <= s.act[i] < |pr.y| && 0 <= s.act[j] < |pr.y|
    requires quadCoef == pr.Curvature(s.act[i], s.act[j]) && gradDiff == Height(s, j) - Height(s, i)
    ensures Gain(pr, s, i, j) == -(gradDiff * gradDiff) / (if quadCoef > 0.0 then quadCoef else TAU)
  {
    hide Problem.Curvature, Height, Problem.Valid, Placed;
  }

  /** The curvature with the label of the second variable told apart, as the selection computes it. */
  lemma CurvatureBySecond(pr: Problem, i: nat, j: nat)
    requires pr.Valid() && i < |pr.y| && j < |pr.y|
    ensures |pr.K| == |pr.y| && |pr.K[i]| == |pr.y| == |pr.K[j]|
    ensures pr.Curvature(i, j)
         == pr.K[i][i] + pr.K[j][j] + (if pr.y[j] == 1 then -2.0 else 2.0) * pr.y[i] as real * pr.K[i][j]
  {
    CurvatureByLabels(pr, i, j);
    assert (pr.y[i] == 1 || pr.y[i] == -1) && (pr.y[j] == 1 || pr.y[j] == -1);
    hide Problem.Curvature, Problem.Valid;
  }

  /** Which of the two ways of rebuilding the tail computes fewer kernel values. */
  predicate RowsCheaper(nrFree: int, active: int, l: int)
  {
    nrFree * l > 2 * active * (l - active)
  }

  lemma WindowPlaced(pr: Problem, w: State, a: int)
    requires Inv(pr, w) && 0 <= a <= |w.act|
    ensures Placed(pr, w) && Placed(pr, w.(active := a)) && |w.act| == |w.y| == |w.G| == |w.status|
  {
    hide StatusOk, GradOk, GBarOk;
  }

  lemma OffsetFromTally(s: State, side: int, n: int, offset: Offset, t: Tally)
    requires 0 <= n <= |s.y| && |s.y| == |s.G| == |s.status| && Tallied(s, side, n, t) && offset == OffsetOf(t)
    ensures OffsetFor(s, side, n, offset)
  {
    hide Tallied, OffsetOf;
  }

  /** Both offsets are numbers exactly when their combinations are, and then give them back. */
  lemma MixedIs(pos: Offset, neg: Offset, rho: Offset, r: Offset)
    requires rho == pos.Plus(neg.Negated().Negated()).Halved() && r == pos.Plus(neg.Negated()).Halved()
    ensures Mixed(pos, neg, rho, r)
    ensures rho.Value? && r.Value? <==> pos.Value? && neg.Value?
    ensures rho.Value? && r.Value? ==> rho.r + r.r == pos.r && rho.r - r.r == neg.r
  {
  }

  lemma BothReported(pr: Problem, s: State, eps: real, pos: Offset, neg: Offset, rho: Offset, r: Offset)
    requires 0 <= s.active <= |s.y| && |s.y| == |s.G| == |s.status| && pr.Valid() && |s.A| == |pr.p|
    requires OffsetFor(s, 1, s.active, pos) && OffsetFor(s, -1, s.active, neg) && Mixed(pos, neg, rho, r)
    requires pos.Kind(CanRise(pr, s.A, 1), CanFall(pr, s.A, 1)) && neg.Kind(CanRise(pr, s.A, -1), CanFall(pr, s.A, -1))
    ensures Combined(s, true, rho, r) && OffsetsKind(pr, true, s.A, rho, r)
  {
    assert KindFor(pr, s.A, 1, pos) && KindFor(pr, s.A, -1, neg);
    hide OffsetFor, Mixed, Offset.Kind, CanRise, CanFall;
  }

  lemma OneReported(pr: Problem, s: State, rho: Offset, r: Offset)
    requires 0 <= s.active <= |s.y| && |s.y| == |s.G| == |s.status| && pr.Valid() && |s.A| == |pr.p|
    requires OffsetFor(s, 0, s.active, rho) && r == Value(0.0) && rho.Kind(CanRise(pr, s.A, 0), CanFall(pr, s.A, 0))
    ensures Combined(s, false, rho, r) && OffsetsKind(pr, false, s.A, rho, r)
  {
    hide OffsetFor, Mixed, Offset.Kind, CanRise, CanFall;
  }

  lemma StatusAt(pr: Problem, s: State, k: nat)
    requires pr.Valid() && Placed(pr, s) && StatusOk(pr, s) && k < |s.act|
    ensures |s.status| == |s.alpha| == |s.act| && 0 <= s.act[k] < |pr.p| == |pr.y|
    ensures s.status[k] == StatusOf(s.alpha[k], pr.C(s.act[k]))
  {
    hide StatusOf, Problem.C;
  }

  lemma MovedSizes(pr: Problem, s: State, s': State, i: nat, j: nat, ai: real, aj: real)
    requires pr.Valid() && Placed(pr, s) && i < |s.act| && j < |s.act| && Moved(pr, s, s', i, j, ai, aj)
    ensures s'.alpha == s.alpha[i := ai][j := aj] && s'.A == s.A[s.act[i] := ai][s.act[j] := aj]
    ensures |s.alpha| == |s.act| == |s'.alpha| && s'.act == s.act
  {
    hide GradientMoved, StatusOf, UpperValue, Problem.Valid;
  }

  /** The parts of a move, put together. */
  lemma MovedFrom(pr: Problem, s: State, s': State, i: nat, j: nat, ai: real, aj: real, di: real, dj: real)
    requires pr.Valid() && Placed(pr, s) && i < |s.act| && j < |s.act| && |s.alpha| == |s.act| == |s.A| == |s.status|
    requires |s.G| == |s.GBar| == |s.act| == |s'.G| == |s'.GBar|
    requires 0 <= s.act[i] < |s.A| == |pr.p| == |pr.y| && 0 <= s.act[j] < |s.A|
    requires forall k :: 0 <= k < |s.act| ==> 0 <= s.act[k] < |pr.p|
    requires s' == s.(A := s.A[s.act[i] := ai][s.act[j] := aj], alpha := s.alpha[i := ai][j := aj],
                      status := s.status[i := StatusOf(ai, pr.C(s.act[i]))][j := StatusOf(aj, pr.C(s.act[j]))],
                      G := s'.G, GBar := s'.GBar)
    requires GradientMoved(pr, s.act, s.G, s'.G, s.active, s.act[i], s.act[j], ai - s.alpha[i], aj - s.alpha[j])
    requires di == UpperValue(ai, pr.C(s.act[i])) - UpperValue(s.alpha[i], pr.C(s.act[i]))
    requires dj == UpperValue(aj, pr.C(s.act[j])) - UpperValue(s.alpha[j], pr.C(s.act[j]))
    requires GradientMoved(pr, s.act, s.GBar, s'.GBar, |s.act|, s.act[i], s.act[j], di, dj)
    ensures Moved(pr, s, s', i, j, ai, aj)
  {
    hide GradientMoved, StatusOf, UpperValue, Permutation, Problem.Valid;
  }

  class Solver {
    const l: int
    const nu: bool
    const Q: SvcQ
    const eps: real
    const Cp: real
    const Cn: real
    const y: array<int>
    const activeSet: array<int>
    const status: array<Status>
    const G: array<real>
    const GBar: array<real>
    const alpha: array<real>
    const p: array<real>
    var activeSize: int
    var unshrink: bool
    ghost const pr: Problem
    ghost var A: seq<real>    // alpha in the caller's order
    ghost var pos: seq<int>   // inverse of activeSet

    constructor (Q: SvcQ, p: array<real>, y: array<int>, alpha: array<real>, status: array<Status>,
                 activeSet: array<int>, G: array<real>, GBar: array<real>,
                 Cp: real, Cn: real, eps: real, nu: bool, ghost pr: Problem)
      ensures this.Q == Q && l == Q.l && this.eps == eps && this.nu == nu && this.Cp == Cp && this.Cn == Cn
      ensures this.p == p && this.y == y && this.alpha == alpha && this.status == status
      ensures this.activeSet == activeSet && this.G == G && this.GBar == GBar && this.pr == pr
      ensures A == alpha[..] && activeSize == l && !unshrink && pos == activeSet[..]
    {
      this.l, this.Q, this.Cp, this.Cn, this.eps, this.nu := Q.l, Q, Cp, Cn, eps, nu;
      this.p, this.y, this.alpha, this.status := p, y, alpha, status;
      this.activeSet, this.G, this.GBar := activeSet, G, GBar;
      this.pr := pr;
      activeSize, unshrink := Q.l, false;
      A, pos := alpha[..], activeSet[..];
    }

    /** Copies the problem; the active set is everything, in the caller's order. */
    static method Create(Q: SvcQ, p_: seq<real>, y_: seq<int>, alpha_: seq<real>,
                         Cp: real, Cn: real, eps: real, nu: bool, ghost K: seq<seq<real>>)
      returns (s: Solver)
      requires |p_| == |y_| == |alpha_| == Q.l && Q.Valid()
      requires Matches(Problem(K, p_, y_, Cp, Cn), Q.kernel)
      requires Q.y[..] == y_ && forall i :: 0 <= i < Q.l ==> Q.x[i] == i
      ensures fresh(s) && s.Joined() && Placed(s.pr, s.Snap()) && s.Identity()
      ensures s.Q == Q && s.eps == eps && s.nu == nu
      ensures s.pr == Problem(K, p_, y_, Cp, Cn) && s.A == alpha_ && s.activeSize == s.l && !s.unshrink
      ensures forall k :: 0 <= k < s.l ==> s.G[k] == s.p[k] && s.GBar[k] == 0.0
      ensures fresh(s.y) && fresh(s.activeSet) && fresh(s.status)
      ensures fresh(s.G) && fresh(s.GBar) && fresh(s.alpha) && fresh(s.p)
    {
      var p, y, alpha, status, activeSet, G, GBar := Copies(p_, y_, alpha_, Q.l);
      assert activeSet[..] == Q.x[..];
      assert Q.Shape();
      hide SvcQ.Valid, SvcQ.Shape, Matches;
      s := new Solver(Q, p, y, alpha, status, activeSet, G, GBar, Cp, Cn, eps, nu, Problem(K, p_, y_, Cp, Cn));
    }

    static method Copies(p_: seq<real>, y_: seq<int>, alpha_: seq<real>, n: nat)
      returns (p: array<real>, y: array<int>, alpha: array<real>, status: array<Status>, activeSet: array<int>,
               G: array<real>, GBar: array<real>)
      ensures fresh(p) && fresh(y) && fresh(alpha) && fresh(status) && fresh(activeSet) && fresh(G) && fresh(GBar)
      ensures G != GBar && G != alpha && G != p && GBar != alpha && GBar != p && alpha != p && y != activeSet
      ensures p[..] == p_ && y[..] == y_ && alpha[..] == alpha_ && status.Length == n
      ensures activeSet[..] == seq(n, i => i) && G[..] == p_ && GBar[..] == Zeros(n)
    {
      p := Clone(p_);
      y := Clone(y_);
      alpha := Clone(alpha_);
      status := Clone(seq(n, _ => Free));
      activeSet := Clone(seq(n, i => i));
      G := Clone(p_);
      GBar := Clone(Zeros(n));
    }

    /** The first part of Solve: status, gradient and G_bar of a feasible starting point. */
    method Initialize()
      requires Joined() && Placed(pr, Snap()) && Identity() && activeSize == l && pr.Feasible(A)
      requires forall k :: 0 <= k < l ==> G[k] == p[k] && GBar[k] == 0.0
      modifies status, G, GBar, Q.cache, Q.cache.prev, Q.cache.next, Q.cache.data, Q.cache.len
      ensures Valid()
    {
      InitStatus();
      InitGradient();
    }

    ghost predicate Shape()
    {
      && 0 <= l == Q.l && Q.Shape()
      && y.Length == activeSet.Length == status.Length == G.Length == GBar.Length == alpha.Length == p.Length == l
      && y != activeSet
      && Q.Excludes(y) && Q.Excludes(activeSet)
      && G != GBar && G != alpha && G != p && GBar != alpha && GBar != p && alpha != p
      && G != Q.QD && GBar != Q.QD && alpha != Q.QD && p != Q.QD
      && |pr.p| == l && pr.Cp == Cp && pr.Cn == Cn
      && Matches(pr, Q.kernel)
    }

    ghost function Snap(): State
      reads this, y, activeSet, status, G, GBar, alpha, p
    {
      State(activeSet[..], pos, y[..], p[..], alpha[..], status[..], G[..], GBar[..], activeSize, A)
    }

    /** The matrix object is permuted exactly like the solver. */
    ghost predicate Joined()
      reads this, y, activeSet, Q, Q.x, Q.y, Q.QD, Q.cache, Q.cache.prev, Q.cache.next, Q.cache.data, Q.cache.len
    {
      && Shape()
      && Q.Valid()
      && Q.x[..] == activeSet[..] && Q.y[..] == y[..]
    }

    ghost predicate Valid()
      reads this, y, activeSet, status, G, GBar, alpha, p, Q, Q.x, Q.y, Q.QD, Q.cache, Q.cache.prev, Q.cache.next,
        Q.cache.data, Q.cache.len
    {
      Joined() && Inv(pr, Snap())
    }

    function GetC(i: int): real
      requires 0 <= i < y.Length
      reads y
    {
      if y[i] > 0 then Cp else Cn
    }

    predicate IsUpper(i: int)
      requires 0 <= i < status.Length
      reads status
    {
      status[i] == UpperBound
    }

    predicate IsLower(i: int)
      requires 0 <= i < status.Length
      reads status
    {
      status[i] == LowerBound
    }

    predicate IsFree(i: int)
      requires 0 <= i < status.Length
      reads status
    {
      status[i] == Free
    }

    /** What the shape says about the problem and the arrays. */
    lemma Sizes()
      requires Shape()
      ensures pr.Valid() && 0 <= l == |pr.p| == |pr.y| == Q.l == Q.QD.Length && pr.Cp == Cp && pr.Cn == Cn
      ensures y.Length == activeSet.Length == status.Length == G.Length == GBar.Length == alpha.Length == p.Length == l
      ensures y != activeSet && G != GBar && G != alpha && G != p && GBar != alpha && GBar != p && alpha != p
      ensures G != Q.QD && GBar != Q.QD && alpha != Q.QD && p != Q.QD
      ensures y != Q.x && y != Q.y && y != Q.cache.prev && y != Q.cache.next && y != Q.cache.len
      ensures activeSet != Q.x && activeSet != Q.y
      ensures activeSet != Q.cache.prev && activeSet != Q.cache.next && activeSet != Q.cache.len
    {
      hide KernelCache.Cache.Shape;
    }

    lemma JoinedShape()
      requires Joined()
      ensures Shape() && Q.Valid() && Q.x[..] == activeSet[..] && Q.y[..] == y[..]
    {
      hide SvcQ.Valid;
    }

    lemma SnapIs()
      ensures Snap() == State(activeSet[..], pos, y[..], p[..], alpha[..], status[..], G[..], GBar[..], activeSize, A)
    {
    }

    lemma PlacedSizes()
      requires Shape() && Placed(pr, Snap())
      ensures 0 <= activeSize <= l == |A| == |pos| && pr.Valid()
      ensures forall k :: 0 <= k < l ==>
        0 <= activeSet[k] < l && y[k] == pr.y[activeSet[k]] && alpha[k] == A[activeSet[k]]
      ensures forall k :: 0 <= k < l ==> GetC(k) == pr.C(activeSet[k])
    {
      Sizes();
      hide Shape, SvcQ.Shape, Matches, Problem.Valid;
    }

    lemma ActiveRange()
      requires Shape() && Placed(pr, Snap())
      ensures 0 <= activeSize <= l
    {
      PlacedSizes();
      hide *;
    }

    lemma CostAt(i: int)
      requires Shape() && Placed(pr, Snap()) && 0 <= i < l
      ensures 0 <= activeSize <= l == |A| == |pr.p| == |pr.y| && i < activeSet.Length && i < y.Length
      ensures 0 <= activeSet[i] < l && GetC(i) == pr.C(activeSet[i])
    {
      Sizes();
      PlacedSizes();
      hide *;
    }

    /** Gradients and status play no part in how the variables are placed. */
    lemma StillPlaced(s: State)
      requires Shape() && Placed(pr, s) && s.act == activeSet[..] && s.pos == pos && s.y == y[..] && s.p == p[..]
      requires s.alpha == alpha[..] && s.A == A && s.active == activeSize
      ensures Placed(pr, Snap())
    {
      Sizes();
      hide Shape, SvcQ.Shape, Matches, Problem.Valid, Permutation;
    }

    method UpdateAlphaStatus(i: int)
      requires Shape() && 0 <= i < l
      modifies status
      ensures status[..] == old(status[..])[i := StatusOf(alpha[i], GetC(i))]
    {
      if alpha[i] >= GetC(i) {
        status[i] := UpperBound;
      } else if alpha[i] <= 0.0 {
        status[i] := LowerBound;
      } else {
        status[i] := Free;
      }
    }

    method InitStatus()
      requires Joined() && Placed(pr, Snap())
      modifies status
      ensures Joined() && Placed(pr, Snap()) && StatusOk(pr, Snap())
    {
      hide *;
      JoinedShape();
      Sizes();
      SnapIs();
      ghost var s := Snap();
      for i := 0 to l
        invariant forall k :: 0 <= k < i ==> status[k] == StatusOf(alpha[k], GetC(k))
      {
        UpdateAlphaStatus(i);
      }
      StillPlaced(s);
      StatusDone();
    }

    lemma StatusDone()
      requires Shape() && Placed(pr, Snap()) && status.Length == alpha.Length == y.Length == l
      requires forall k :: 0 <= k < l ==> status[k] == StatusOf(alpha[k], GetC(k))
      ensures StatusOk(pr, Snap())
    {
      PlacedSizes();
      hide Shape, StatusOf, GetC, Problem.C;
    }

    /** The gradients account for the first n variables of the caller's order. */
    ghost predicate Summed(n: nat)
      requires Shape() && Placed(pr, Snap()) && n <= l
      reads this, y, activeSet, status, G, GBar, alpha, p
    {
      && Tracks(pr, activeSet[..], pr.p, Upto(A, n), G[..], l)
      && Tracks(pr, activeSet[..], Zeros(l), Upto(pr.UpperPart(A), n), GBar[..], l)
    }

    ghost predicate Identity()
      requires Shape()
      reads activeSet
    {
      forall k :: 0 <= k < l ==> activeSet[k] == k
    }

    /** G and G_bar are summed up row by row over the variables away from their lower bound. */
    method InitGradient()
      requires Joined() && Placed(pr, Snap()) && StatusOk(pr, Snap()) && pr.Feasible(A)
      requires activeSize == l && Identity()
      requires forall k :: 0 <= k < l ==> G[k] == p[k] && GBar[k] == 0.0
      modifies G, GBar, Q.cache, Q.cache.prev, Q.cache.next, Q.cache.data, Q.cache.len
      ensures Valid()
    {
      hide *;
      JoinedShape();
      Sizes();
      NothingSummed();
      for i := 0 to l
        invariant Joined() && Placed(pr, Snap()) && StatusOk(pr, Snap())
        invariant Summed(i)
      {
        SumVariable(i);
      }
      AllSummed();
    }

    lemma NothingSummed()
      requires Shape() && Placed(pr, Snap()) && p.Length == G.Length == GBar.Length == l
      requires forall k :: 0 <= k < l ==> G[k] == p[k] && GBar[k] == 0.0
      ensures Summed(0)
    {
      PlacedSizes();
      Sizes();
      hide Shape, Tracks, Matches;
      TracksNothing(pr, activeSet[..], pr.p, Upto(A, 0), G[..]);
      TracksNothing(pr, activeSet[..], Zeros(l), Upto(pr.UpperPart(A), 0), GBar[..]);
    }

    lemma AllSummed()
      requires Joined() && Placed(pr, Snap()) && StatusOk(pr, Snap()) && pr.Feasible(A) && activeSize == l
      requires Shape() && l >= 0 && Summed(l)
      ensures Valid()
    {
      Sizes();
      PlacedSizes();
      hide Joined, Shape, Placed, StatusOk, Tracks, Problem.Feasible, Problem.Valid;
      assert Upto(A, l) == A && Upto(pr.UpperPart(A), l) == pr.UpperPart(A);
      assert activeSet[..] == Snap().act && G[..] == Snap().G && GBar[..] == Snap().GBar;
    }

    method SumVariable(i: int)
      requires Joined() && Placed(pr, Snap()) && StatusOk(pr, Snap()) && pr.Feasible(A)
      requires 0 <= i < l && Summed(i) && Identity()
      modifies G, GBar, Q.cache, Q.cache.prev, Q.cache.next, Q.cache.data, Q.cache.len
      ensures Joined() && Placed(pr, Snap()) && StatusOk(pr, Snap())
      ensures Summed(i + 1)
    {
      hide *;
      JoinedShape();
      Sizes();
      SnapIs();
      ghost var s := Snap();
      IdentityAt(i);
      if !IsLower(i) {
        var Qi := Row(i, l);
        AddVariable(i, Qi);
        StillPlaced(s);
        SnapIs();
        SameStatus(s, Snap());
      } else {
        NothingToSum(i);
      }
    }

    lemma IdentityAt(i: int)
      requires Shape() && Identity() && 0 <= i < l && activeSet.Length == l
      ensures activeSet[i] == i
    {
    }

    lemma SameStatus(s: State, s': State)
      requires Placed(pr, s) && Placed(pr, s') && StatusOk(pr, s)
      requires s.act == s'.act && s.alpha == s'.alpha && s.status == s'.status
      ensures StatusOk(pr, s')
    {
      hide StatusOf, Permutation;
    }

    /** A variable at its lower bound adds nothing. */
    lemma NothingToSum(i: int)
      requires Shape() && Placed(pr, Snap()) && StatusOk(pr, Snap()) && pr.Feasible(A) && 0 <= i < l && Summed(i)
      requires Identity()
      requires i < status.Length && IsLower(i)
      ensures Summed(i + 1)
    {
      PlacedSizes();
      Sizes();
      hide Shape, Tracks, Matches;
      assert status[i] == StatusOf(A[i], pr.C(i));
      UptoGrows(A, i);
      UptoGrows(pr.UpperPart(A), i);
    }

    method AddVariable(i: int, Qi: seq<real>)
      requires Shape() && Placed(pr, Snap()) && StatusOk(pr, Snap())
      requires 0 <= i < l && Summed(i) && activeSet[i] == i && |Qi| == l
      requires forall k :: 0 <= k < l ==> Qi[k] == pr.K[i][activeSet[k]]
      modifies G, GBar
      ensures Summed(i + 1)
    {
      hide *;
      PlacedSizes();
      Sizes();
      SummedParts(i);
      UpperAt(i);
      ghost var act, U := activeSet[..], pr.UpperPart(A);
      var C := GetC(i);
      UptoGrows(A, i);
      UptoGrows(U, i);
      UptoEnds(A, i);
      UptoEnds(U, i);
      ghost var s := Snap();
      SnapIs();
      AddRow(G, Qi, alpha[i], pr, act, pr.p, Upto(A, i), i);
      if IsUpper(i) {
        AddRow(GBar, Qi, C, pr, act, Zeros(l), Upto(U, i), i);
      }
      StillPlaced(s);
      SummedFrom(i + 1);
    }

    lemma SummedParts(n: nat)
      requires Shape() && Placed(pr, Snap()) && n <= l && Summed(n)
      ensures |A| == l == |pr.p| == |Zeros(l)| == |pr.UpperPart(A)| == |Upto(A, n)| == |Upto(pr.UpperPart(A), n)|
      ensures pr.Valid() && G.Length == GBar.Length == activeSet.Length == l
      ensures forall k :: 0 <= k < l ==> 0 <= activeSet[k] < |pr.p|
      ensures Tracks(pr, activeSet[..], pr.p, Upto(A, n), G[..], l)
      ensures Tracks(pr, activeSet[..], Zeros(l), Upto(pr.UpperPart(A), n), GBar[..], l)
    {
      Sizes();
      PlacedSizes();
      hide Tracks, Shape, Placed;
    }

    lemma SummedFrom(n: nat)
      requires Shape() && Placed(pr, Snap()) && n <= l && pr.Valid() && |A| == l == |pr.p| == |pr.y|
      requires G.Length == GBar.Length == activeSet.Length == l && forall k :: 0 <= k < l ==> 0 <= activeSet[k] < |pr.p|
      requires Tracks(pr, activeSet[..], pr.p, Upto(A, n), G[..], l)
      requires |pr.UpperPart(A)| == l == |Zeros(l)|
      requires Tracks(pr, activeSet[..], Zeros(l), Upto(pr.UpperPart(A), n), GBar[..], l)
      ensures Summed(n)
    {
      hide Tracks, Shape, Placed, Problem.Valid;
    }

    /** The value of variable i in the sum for G_bar. */
    lemma UpperAt(i: int)
      requires Shape() && Placed(pr, Snap()) && StatusOk(pr, Snap())
      requires 0 <= i < l == status.Length == activeSet.Length == alpha.Length
      requires activeSet[i] == i && i < y.Length
      ensures |A| == l == |pr.UpperPart(A)| == |pr.y| && alpha[i] == A[i]
      ensures pr.UpperPart(A)[i] == (if IsUpper(i) then GetC(i) else 0.0)
    {
      PlacedSizes();
      Sizes();
      assert status[i] == StatusOf(alpha[i], pr.C(activeSet[i]));
      hide Shape, Placed, StatusOk;
    }

    /** A row of Q in the current order. */
    method Row(i: int, want: int) returns (row: seq<real>)
      requires Joined() && Placed(pr, Snap()) && 0 <= i < l && 1 <= want <= l
      modifies Q.cache`order, Q.cache`size, Q.cache.prev, Q.cache.next, Q.cache.data, Q.cache.len
      ensures Joined()
      ensures want <= |row| <= l
      ensures forall c :: 0 <= c < |row| ==> row[c] == pr.K[activeSet[i]][activeSet[c]]
      ensures KernelCache.Newest(Q.cache.order) == i && Q.cache.data[i] == row
      ensures old(KernelCache.Newest(Q.cache.order)) in {-1, i}
        || Q.cache.data[old(KernelCache.Newest(Q.cache.order))] == old(Q.cache.data[KernelCache.Newest(Q.cache.order)])
    {
      JoinedShape();
      Sizes();
      PlacedSizes();
      ghost var s := Snap();
      row := Q.GetQ(i, want);
      RowIs(i, row, s);
      hide SvcQ.Valid, SvcQ.Shape, SvcQ.Entry, Placed, Matches;
    }

    lemma RowIs(i: int, row: seq<real>, s: State)
      requires Shape() && Placed(pr, s) && s.act == activeSet[..] && s.y == y[..] && Q.x[..] == s.act && Q.y[..] == s.y
      requires 0 <= i < l && |row| <= l && activeSet.Length == l
      requires forall c :: 0 <= c < |row| ==> row[c] == Q.Entry(i, c)
      ensures forall c :: 0 <= c < |row| ==>
                0 <= activeSet[i] < |pr.p| && 0 <= activeSet[c] < |pr.p| && pr.Valid()
                  && row[c] == pr.K[activeSet[i]][activeSet[c]]
    {
      Sizes();
      forall c | 0 <= c < |row|
        ensures row[c] == pr.K[activeSet[i]][activeSet[c]]
      {
        EntryIs(pr, s, Q.kernel, i, c);
      }
      hide Matches, SvcQ.Excludes;
    }

    /** Two positions trade places in the matrix and in every array. */
    method SwapIndex(i: int, j: int)
      requires Joined() && Placed(pr, Snap()) && 0 <= i < l && 0 <= j < l
      modifies this`pos, y, activeSet, status, G, GBar, alpha, p, Q.x, Q.y, Q.QD, Q.cache, Q.cache.prev, Q.cache.next,
        Q.cache.data, Q.cache.len
      ensures Joined()
      ensures Snap() == Swapped(old(Snap()), i, j)
    {
      hide *;
      JoinedShape();
      Sizes();
      ghost var s := Snap();
      SnapIs();
      SwappedFits(pr, s, i, j);
      Q.SwapIndex(i, j);
      SwapArrays(i, j);
      SnapIs();
      SwappedLabels(s, i, j);
      JoinedFrom();
    }

    lemma JoinedFrom()
      requires Shape() && Q.Valid() && Q.x[..] == activeSet[..] && Q.y[..] == y[..]
      ensures Joined()
    {
      hide Shape, SvcQ.Valid;
    }

    method SwapArrays(i: int, j: int)
      requires Shape() && Placed(pr, Snap()) && 0 <= i < l && 0 <= j < l
      modifies this`pos, y, activeSet, status, G, GBar, alpha, p
      ensures Snap() == Swapped(old(Snap()), i, j)
    {
      hide *;
      Sizes();
      SnapIs();
      SwappedFits(pr, Snap(), i, j);
      SwapCells(y, i, j);
      SwapCells(G, i, j);
      SwapCells(status, i, j);
      SwapCells(alpha, i, j);
      SwapCells(p, i, j);
      pos := pos[activeSet[i] := j][activeSet[j] := i];
      SwapCells(activeSet, i, j);
      SwapCells(GBar, i, j);
      SnapIs();
    }

    /** First loop of the selection: the most violating up-variable of a class (side 0: of both). */
    method FindUp(side: int) returns (g: Ext, idx: int)
      requires Shape() && Placed(pr, Snap())
      ensures MaxUp(Snap(), side, activeSize, g, idx)
    {
      ghost var s := Snap();
      g, idx := NegInf, -1;
      for t := 0 to activeSize
        invariant MaxUp(s, side, t, g, idx)
      {
        if side == 0 || y[t] == side {
          if y[t] == 1 {
            if !IsUpper(t) {
              if AtLeast(-G[t], g) {
                g, idx := Finite(-G[t]), t;
              }
            }
          } else {
            if !IsLower(t) {
              if AtLeast(G[t], g) {
                g, idx := Finite(G[t]), t;
              }
            }
          }
        }
      }
    }

    /** The second-order estimate of the pair (i, j); row is row i of Q. */
    method ObjDiff(i: int, j: int, row: seq<real>, gradDiff: real) returns (diff: real)
      requires Joined() && Placed(pr, Snap()) && 0 <= i < l && 0 <= j < |row| <= l
      requires row[j] == pr.K[activeSet[i]][activeSet[j]]
      requires gradDiff == Height(Snap(), j) - Height(Snap(), i)
      ensures diff == Gain(pr, Snap(), i, j)
    {
      hide Joined, Shape, Snap, SvcQ.Valid, SvcQ.Shape, Matches, Placed, Gain, Height, Problem.Valid, Problem.Curvature;
      JoinedShape();
      Sizes();
      PlacedSizes();
      QDIs(i);
      QDIs(j);
      CurvatureBySecond(pr, activeSet[i], activeSet[j]);
      SnapIs();
      var quadCoef;
      if y[j] == 1 {
        quadCoef := Q.QD[i] + Q.QD[j] - 2.0 * y[i] as real * row[j];
      } else {
        quadCoef := Q.QD[i] + Q.QD[j] + 2.0 * y[i] as real * row[j];
      }
      GainFrom(pr, Snap(), i, j, quadCoef, gradDiff);
      if quadCoef > 0.0 {
        diff := -(gradDiff * gradDiff) / quadCoef;
      } else {
        diff := -(gradDiff * gradDiff) / TAU;
      }
    }

    /** best is the best position below n and diff its estimate. */
    ghost predicate BestSoFar(ip: int, in_: int, n: int, best: int, diff: real)
      requires Shape() && Placed(pr, Snap()) && 0 <= n <= l && -1 <= ip < l && -1 <= in_ < l
      reads this, y, activeSet, status, G, GBar, alpha, p
    {
      && BestLow(pr, Snap(), ip, in_, n, best)
      && (best >= 0 ==> diff == Gain(pr, Snap(), Partner(Snap(), ip, in_, best), best))
    }

    /** A violating position j with partner i challenges the best one so far. */
    method Challenge(i: int, j: int, row: seq<real>, gradDiff: real, best: int, objDiffMin: real, ghost ip: int,
                     ghost in_: int)
      returns (newBest: int, newMin: real)
      requires Joined() && Placed(pr, Snap()) && -1 <= ip < l && -1 <= in_ < l && 0 <= j < activeSize
      requires BestSoFar(ip, in_, j, best, objDiffMin)
      requires Candidate(Snap(), ip, in_, j) && i == Partner(Snap(), ip, in_, j)
      requires ActiveRow(pr, activeSet[..], activeSize, i, row)
      requires gradDiff == Height(Snap(), j) - Height(Snap(), i)
      ensures BestSoFar(ip, in_, j + 1, newBest, newMin)
    {
      hide SvcQ.Valid, Gain;
      BestLowNext(pr, Snap(), ip, in_, j, best);
      newBest, newMin := best, objDiffMin;
      var objDiff := ObjDiff(i, j, row, gradDiff);
      if best < 0 || objDiff <= objDiffMin {
        newBest, newMin := j, objDiff;
      }
    }

    lemma MatchesValid()
      requires Shape()
      ensures pr.Valid()
    {
    }

    lemma RowIndex(idx: int, row: seq<real>)
      requires Shape() && Placed(pr, Snap()) && ActiveRow(pr, activeSet[..], activeSize, idx, row)
      ensures -1 <= idx < activeSize <= l
    {
    }

    /** Second loop of the selection, with the up-variables ip and in_ of the two classes: the
        largest y_j G_j of each class, and the violating position with the best estimate. */
    method ScanLow(gp: Ext, ip: int, Qp: seq<real>, gn: Ext, in_: int, Qn: seq<real>)
      returns (gp2: Ext, gn2: Ext, best: int)
      requires Joined() && Placed(pr, Snap())
      requires ActiveRow(pr, activeSet[..], activeSize, ip, Qp) && gp == UpValue(Snap(), ip)
      requires ActiveRow(pr, activeSet[..], activeSize, in_, Qn) && gn == UpValue(Snap(), in_)
      ensures MaxLow(Snap(), 1, activeSize, gp2) && MaxLow(Snap(), -1, activeSize, gn2)
      ensures BestLow(pr, Snap(), ip, in_, activeSize, best)
    {
      hide SvcQ.Valid, SvcQ.Shape, Gain, MaxLow, BestLow, ActiveRow, Matches, Permutation, Candidate, UpValue, Height,
        Problem.Valid;
      MatchesValid();
      RowIndex(ip, Qp);
      RowIndex(in_, Qn);
      ghost var s := Snap();
      MaxLowStart(s);
      BestLowStart(pr, s, ip, in_);
      gp2, gn2, best := NegInf, NegInf, -1;
      var objDiffMin := 0.0;  // meaningful once best >= 0
      for j := 0 to activeSize
        invariant MaxLow(s, 1, j, gp2) && MaxLow(s, -1, j, gn2)
        invariant BestSoFar(ip, in_, j, best, objDiffMin)
      {
        LabelIs(pr, s, j);
        if y[j] == 1 {
          OtherClassLow(s, -1, j, gn2);
          gp2, best, objDiffMin := ScanOne(j, gp, ip, Qp, gp2, best, objDiffMin, ip, in_);
        } else {
          OtherClassLow(s, 1, j, gp2);
          gn2, best, objDiffMin := ScanOne(j, gn, in_, Qn, gn2, best, objDiffMin, ip, in_);
        }
      }
    }

    /** What the tests of the loop body mean. */
    lemma ScanFacts(j: int, g: Ext, i: int, best: int, diff: real, ip: int, in_: int)
      requires Shape() && Placed(pr, Snap()) && -1 <= ip < activeSize && -1 <= in_ < activeSize
      requires 0 <= j < activeSize <= l
      requires i == Partner(Snap(), ip, in_, j) && g == UpValue(Snap(), i) && BestSoFar(ip, in_, j, best, diff)
      ensures Height(Snap(), j) == if y[j] == 1 then G[j] else -G[j]
      ensures LowAt(Snap(), j) <==> (y[j] == 1 && !IsLower(j)) || (y[j] != 1 && !IsUpper(j))
      ensures InSide(Snap(), y[j], j)
      ensures Candidate(Snap(), ip, in_, j) <==> LowAt(Snap(), j) && g.Finite? && g.r + Height(Snap(), j) > 0.0
      ensures g.Finite? ==> 0 <= i < activeSize && g.r == -Height(Snap(), i)
      ensures !Candidate(Snap(), ip, in_, j) ==> BestSoFar(ip, in_, j + 1, best, diff)
    {
      Sizes();
      PlacedSizes();
      hide SvcQ.Shape, Shape, Matches, Placed, Gain;
      BestLowNext(pr, Snap(), ip, in_, j, best);
      hide BestLow;
    }

    /** The body of that loop for position j, whose class has the up-variable i of value g. */
    method ScanOne(j: int, g: Ext, i: int, row: seq<real>, g2: Ext, best: int, objDiffMin: real, ghost ip: int,
                   ghost in_: int)
      returns (newG2: Ext, newBest: int, newMin: real)
      requires Joined() && Placed(pr, Snap()) && -1 <= ip < activeSize && -1 <= in_ < activeSize && 0 <= j < activeSize
      requires i == Partner(Snap(), ip, in_, j) && ActiveRow(pr, activeSet[..], activeSize, i, row)
      requires g == UpValue(Snap(), i)
      requires BestSoFar(ip, in_, j, best, objDiffMin) && MaxLow(Snap(), y[j], j, g2)
      ensures MaxLow(Snap(), y[j], j + 1, newG2)
      ensures BestSoFar(ip, in_, j + 1, newBest, newMin)
    {
      hide SvcQ.Valid, SvcQ.Shape, Shape, Matches, Joined, Placed, Gain, BestSoFar, BestLow, MaxLow, LowAt, Candidate,
        Partner, ActiveRow, UpValue, IsLower, IsUpper, InSide, Height;
      JoinedShape();
      Sizes();
      PlacedSizes();
      ScanFacts(j, g, i, best, objDiffMin, ip, in_);
      MaxLowNext(Snap(), y[j], j, g2);
      newG2, newBest, newMin := g2, best, objDiffMin;
      var height := if y[j] == 1 then G[j] else -G[j];
      if (y[j] == 1 && !IsLower(j)) || (y[j] != 1 && !IsUpper(j)) {
        if AtLeast(height, g2) {
          newG2 := Finite(height);
        }
        if g.Finite? && g.r + height > 0.0 {
          newBest, newMin := Challenge(i, j, row, g.r + height, best, objDiffMin, ip, in_);
        }
      }
    }

    /** The row of an up-variable, if there is one. */
    method RowOf(idx: int) returns (row: seq<real>)
      requires Joined() && Placed(pr, Snap()) && -1 <= idx < activeSize
      modifies Q.cache`order, Q.cache`size, Q.cache.prev, Q.cache.next, Q.cache.data, Q.cache.len
      ensures Joined() && ActiveRow(pr, activeSet[..], activeSize, idx, row)
    {
      row := [];
      if idx != -1 {
        row := Row(idx, activeSize);
      }
    }

    method RowsOf(ip: int, in_: int) returns (Qp: seq<real>, Qn: seq<real>)
      requires Joined() && Placed(pr, Snap()) && -1 <= ip < activeSize && -1 <= in_ < activeSize
      modifies Q.cache`order, Q.cache`size, Q.cache.prev, Q.cache.next, Q.cache.data, Q.cache.len
      ensures Joined() && ActiveRow(pr, activeSet[..], activeSize, ip, Qp)
      ensures ActiveRow(pr, activeSet[..], activeSize, in_, Qn)
    {
      hide SvcQ.Valid;
      Qp := RowOf(ip);
      Qn := RowOf(in_);
    }

    /** Two rows at once. The second request leaves the storage of the first column in place. */
    method RowPair(i: int, j: int) returns (Qi: seq<real>, Qj: seq<real>)
      requires Joined() && Placed(pr, Snap()) && 0 <= i < activeSize && 0 <= j < activeSize && i != j
      modifies Q.cache`order, Q.cache`size, Q.cache.prev, Q.cache.next, Q.cache.data, Q.cache.len
      ensures Joined() && ActiveRow(pr, activeSet[..], activeSize, i, Qi)
      ensures ActiveRow(pr, activeSet[..], activeSize, j, Qj)
      ensures Q.cache.data[i] == Qi && Q.cache.data[j] == Qj
    {
      hide SvcQ.Valid;
      Qi := Row(i, activeSize);
      Qj := Row(j, activeSize);
    }

    /** select_working_set of Solver: one partner for both classes. */
    method SelectPlain() returns (optimal: bool, i: int, j: int)
      requires Joined() && Placed(pr, Snap()) && 0.0 < eps && !nu
      modifies Q.cache`order, Q.cache`size, Q.cache.prev, Q.cache.next, Q.cache.data, Q.cache.len
      ensures Joined()
      ensures optimal <==> ActiveOptimal(Snap(), nu, eps)
      ensures !optimal ==> Chosen(pr, Snap(), nu, i, j)
    {
      hide SvcQ.Valid, MaxUp, MaxLow, BestLow, Chosen, ActiveOptimal;
      ghost var s := Snap();
      var gmax, gmaxIdx := FindUp(0);
      UpValueIs(s, 0, gmax, gmaxIdx);
      var Qi := RowOf(gmaxIdx);
      var gp2, gn2, best := ScanLow(gmax, gmaxIdx, Qi, gmax, gmaxIdx, Qi);
      var gmax2 := Larger(gp2, gn2);
      StopTest(pr, s, nu, eps, gmaxIdx, gmaxIdx, gp2, gn2, best);
      optimal := SumBelow(gmax, gmax2, eps);
      i, j := gmaxIdx, best;
    }

    lemma UpValueIs(s: State, side: int, g: Ext, idx: int)
      requires 0 <= s.active <= |s.y| && |s.y| == |s.G| == |s.status| && MaxUp(s, side, s.active, g, idx)
      ensures -1 <= idx < s.active && g == UpValue(s, idx)
    {
    }

    lemma BestLowRange(pr: Problem, s: State, ip: int, in_: int, best: int)
      requires pr.Valid() && Placed(pr, s) && -1 <= ip < |s.act| && -1 <= in_ < |s.act| && 0 <= s.active <= |s.act|
      requires BestLow(pr, s, ip, in_, s.active, best)
      ensures best < s.active
    {
      hide Placed, Problem.Valid;
    }

    /** select_working_set of Solver_NU: a partner of its own for each class. */
    method SelectNu() returns (optimal: bool, i: int, j: int)
      requires Joined() && Placed(pr, Snap()) && 0.0 < eps && nu
      modifies Q.cache`order, Q.cache`size, Q.cache.prev, Q.cache.next, Q.cache.data, Q.cache.len
      ensures Joined()
      ensures optimal <==> ActiveOptimal(Snap(), nu, eps)
      ensures !optimal ==> Chosen(pr, Snap(), nu, i, j)
    {
      hide Joined, Shape, Placed, SvcQ.Valid, SvcQ.Shape, Matches, MaxUp, MaxLow, BestLow, ActiveOptimal, Chosen,
        SumBelow;
      JoinedShape();
      Sizes();
      PlacedSizes();
      ghost var s := Snap();
      var gmaxp, ip := FindUp(1);
      var gmaxn, in_ := FindUp(-1);
      UpValueIs(s, 1, gmaxp, ip);
      UpValueIs(s, -1, gmaxn, in_);
      var Qp, Qn := RowsOf(ip, in_);
      var gp2, gn2, best := ScanLow(gmaxp, ip, Qp, gmaxn, in_, Qn);
      StopTest(pr, s, nu, eps, ip, in_, gp2, gn2, best);
      BestLowRange(pr, s, ip, in_, best);
      optimal := SumBelow(gmaxp, gp2, eps) && SumBelow(gmaxn, gn2, eps);
      i, j := -1, best;
      if !optimal {
        i := if y[best] == 1 then ip else in_;
      }
    }

    method SelectWorkingSet() returns (optimal: bool, i: int, j: int)
      requires Joined() && Placed(pr, Snap()) && 0.0 < eps
      modifies Q.cache`order, Q.cache`size, Q.cache.prev, Q.cache.next, Q.cache.data, Q.cache.len
      ensures Joined()
      ensures optimal <==> ActiveOptimal(Snap(), nu, eps)
      ensures !optimal ==> Chosen(pr, Snap(), nu, i, j)
    {
      if nu {
        optimal, i, j := SelectNu();
      } else {
        optimal, i, j := SelectPlain();
      }
    }

    lemma QDIs(i: int)
      requires Joined() && Placed(pr, Snap()) && 0 <= i < l
      ensures Q.QD[i] == pr.K[activeSet[i]][activeSet[i]]
    {
      Sizes();
      PlacedSizes();
      hide SvcQ.Excludes, Problem.Valid, SvcQ.CoherentBut, KernelCache.Cache.Valid;
      DiagonalIs(pr, Snap(), Q.kernel, Q.QD[..], i);
    }

    /** The curvature of a pair, as a Newton step reads it. */
    lemma CurvatureRead(i: int, j: int, Qi: seq<real>)
      requires Joined() && Placed(pr, Snap()) && 0 <= i < activeSize && 0 <= j < activeSize
      requires ActiveRow(pr, activeSet[..], activeSize, i, Qi)
      ensures activeSize <= l == Q.QD.Length && j < |Qi| && pr.Valid() && |pr.y| == |pr.p| == |A|
      ensures 0 <= activeSet[i] < |A| && 0 <= activeSet[j] < |A|
      ensures y[i] == pr.y[activeSet[i]] && y[j] == pr.y[activeSet[j]]
      ensures Q.QD[i] == pr.K[activeSet[i]][activeSet[i]] && Q.QD[j] == pr.K[activeSet[j]][activeSet[j]]
      ensures Qi[j] == pr.K[activeSet[i]][activeSet[j]]
    {
      hide SvcQ.Valid, Matches;
      MatchesValid();
      QDIs(i);
      QDIs(j);
    }

    /** The unclipped step along a pair: its signed form delta, and its length. */
    method NewtonStep(i: int, j: int, Qi: seq<real>) returns (delta: real, ghost t0: real)
      requires Valid() && 0 <= i < activeSize && 0 <= j < activeSize && ActiveRow(pr, activeSet[..], activeSize, i, Qi)
      requires Height(Snap(), j) - Height(Snap(), i) > 0.0
      ensures 0.0 < t0 == FullStep(pr, A, activeSet[i], activeSet[j])
      ensures delta == if y[i] != y[j] then (if y[i] == 1 then t0 else -t0) else (if y[i] == 1 then -t0 else t0)
    {
      hide SvcQ.Valid, SvcQ.Shape, Inv, Placed, Matches, ActiveRow, Problem.Valid, Problem.Curvature, Problem.Violation,
        Height;
      InvParts(pr, Snap());
      CurvatureRead(i, j, Qi);
      CurvatureByLabels(pr, activeSet[i], activeSet[j]);
      HeightsByLabels(pr, Snap(), nu, i, j);
      ghost var viol, steep := Height(Snap(), j) - Height(Snap(), i), Steepness(pr, activeSet[i], activeSet[j]);
      var quadCoef;
      if y[i] != y[j] {
        quadCoef := Q.QD[i] + Q.QD[j] + 2.0 * Qi[j];
      } else {
        quadCoef := Q.QD[i] + Q.QD[j] - 2.0 * Qi[j];
      }
      if quadCoef <= 0.0 {
        quadCoef := TAU;
      }
      var numerator := if y[i] != y[j] then -G[i] - G[j] else G[i] - G[j];
      delta := numerator / quadCoef;
      t0 := viol / steep;
      Quotients(viol, steep);
    }

    /** Moves alpha[i] and alpha[j]: a clipped Newton step along the pair. */
    method MovePair(i: int, j: int, Qi: seq<real>) returns (ghost t: real)
      requires Valid() && Chosen(pr, Snap(), nu, i, j) && ActiveRow(pr, activeSet[..], activeSize, i, Qi)
      modifies alpha
      ensures PairMoved(pr, old(Snap()), alpha[..], i, j, t)
    {
      ghost var s := Snap();
      RoomToMove(pr, s, nu, i, j);
      var delta, t0 := NewtonStep(i, j, Qi);
      t := ClipAt(alpha, i, j, y[i], y[j], GetC(i), GetC(j), delta, t0, pr, s);
    }

    /** The gradient of the active variables follows the two alphas. */
    method UpdateGradient(i: int, j: int, Qi: seq<real>, Qj: seq<real>, di: real, dj: real)
      requires Shape() && Placed(pr, Snap()) && 0 <= i < l && 0 <= j < l
      requires ActiveRow(pr, activeSet[..], activeSize, i, Qi) && ActiveRow(pr, activeSet[..], activeSize, j, Qj)
      modifies G
      ensures GradientMoved(pr, activeSet[..], old(G[..]), G[..], activeSize, activeSet[i], activeSet[j], di, dj)
    {
      ghost var was, act := G[..], activeSet[..];
      AddTwoRows(G, activeSize, Qi, Qj, di, dj);
      GradientMovedIs(pr, act, was, G[..], activeSize, act[i], act[j], Qi, Qj, di, dj);
    }

    /** G_bar follows variable i into or out of its upper bound C. */
    method AdjustGBar(i: int, wasUpper: bool, C: real, ghost a: real) returns (ghost d: real)
      requires Joined() && Placed(pr, Snap()) && 0 <= i < l
      requires wasUpper == (a >= C) && IsUpper(i) == (alpha[i] >= C)
      modifies GBar, Q.cache, Q.cache.prev, Q.cache.next, Q.cache.data, Q.cache.len
      ensures Joined() && Placed(pr, Snap())
      ensures d == UpperValue(alpha[i], C) - UpperValue(a, C)
      ensures RowAdded(pr, activeSet[..], old(GBar[..]), GBar[..], activeSet[i], d)
    {
      hide SvcQ.Valid, SvcQ.Shape, RowAdded, Joined, Shape, Snap, Placed, Matches, Problem.Valid;
      JoinedShape();
      Sizes();
      PlacedSizes();
      SnapIs();
      ghost var s := Snap();
      ghost var was, act := GBar[..], activeSet[..];
      RowAddedZero(pr, act, was, act[i]);
      d := 0.0;
      if wasUpper != IsUpper(i) {
        var Qi := Row(i, l);
        var c := if wasUpper then -C else C;
        AddMultiple(GBar, Qi, c);
        RowAddedIs(pr, act, was, GBar[..], act[i], Qi, c);
        d := c;
        StillPlaced(s);
      }
    }

    /** Status and G_bar catch up with the two alphas. */
    method UpdateBounds(i: int, j: int, ghost ai: real, ghost aj: real) returns (ghost di: real, ghost dj: real)
      requires Joined() && Placed(pr, Snap()) && 0 <= i < l && 0 <= j < l && i != j
      requires status[i] == StatusOf(ai, GetC(i)) && status[j] == StatusOf(aj, GetC(j))
      modifies status, GBar, Q.cache, Q.cache.prev, Q.cache.next, Q.cache.data, Q.cache.len
      ensures Joined() && Placed(pr, Snap())
      ensures status[..] == old(status[..])[i := StatusOf(alpha[i], GetC(i))][j := StatusOf(alpha[j], GetC(j))]
      ensures di == UpperValue(alpha[i], GetC(i)) - UpperValue(ai, GetC(i))
      ensures dj == UpperValue(alpha[j], GetC(j)) - UpperValue(aj, GetC(j))
      ensures GradientMoved(pr, activeSet[..], old(GBar[..]), GBar[..], l, activeSet[i], activeSet[j], di, dj)
    {
      hide SvcQ.Valid, SvcQ.Shape, RowAdded, GradientMoved, Joined, Shape, Snap, Placed, Matches, Problem.Valid,
        UpperValue;
      JoinedShape();
      Sizes();
      PlacedSizes();
      SnapIs();
      ghost var s := Snap();
      ghost var act, was := activeSet[..], GBar[..];
      var ui, uj := IsUpper(i), IsUpper(j);
      UpdateAlphaStatus(i);
      UpdateAlphaStatus(j);
      StillPlaced(s);
      di := AdjustGBar(i, ui, GetC(i), ai);
      ghost var mid := GBar[..];
      dj := AdjustGBar(j, uj, GetC(j), aj);
      RowAddedTwice(pr, act, was, mid, GBar[..], act[i], act[j], di, dj);
    }

    /** The first half of a step: the rows, and the move of the two alphas in both orders. */
    method MoveAlphas(i: int, j: int) returns (Qi: seq<real>, Qj: seq<real>, oldI: real, oldJ: real, ghost t: real)
      requires Valid() && Chosen(pr, Snap(), nu, i, j)
      modifies this`A, alpha, Q.cache, Q.cache.prev, Q.cache.next, Q.cache.data, Q.cache.len
      ensures Joined() && Placed(pr, Snap()) && oldI == old(alpha[i]) && oldJ == old(alpha[j])
      ensures ActiveRow(pr, activeSet[..], activeSize, i, Qi) && ActiveRow(pr, activeSet[..], activeSize, j, Qj)
      ensures PairMoved(pr, old(Snap()), alpha[..], i, j, t)
      ensures A == old(A)[activeSet[i] := alpha[i]][activeSet[j] := alpha[j]]
    {
      hide *;
      ValidParts();
      Sizes();
      SnapIs();
      ghost var s := Snap();
      ChosenRange(pr, s, nu, i, j);
      CostAt(i);
      CostAt(j);
      RoomToMove(pr, s, nu, i, j);
      Qi, Qj := RowPair(i, j);
      ValidFrom();
      oldI, oldJ := alpha[i], alpha[j];
      t := MovePair(i, j, Qi);
      PairMovedOnly(pr, s, alpha[..], i, j, t);
      JoinedShape();
      A := A[activeSet[i] := alpha[i]][activeSet[j] := alpha[j]];
      JoinedFrom();
      SnapIs();
    }

    lemma ValidFrom()
      requires Joined() && Inv(pr, Snap())
      ensures Valid()
    {
      hide Joined, Inv, Snap;
    }

    /** One optimization step along a chosen pair. It moves the solution t along the pair inside
        the box, keeps every conserved sum and the bookkeeping, and lowers the objective. */
    method TakeStep(i: int, j: int) returns (ghost t: real)
      requires Valid() && Chosen(pr, Snap(), nu, i, j)
      modifies this`A, alpha, G, GBar, status, Q.cache, Q.cache.prev, Q.cache.next, Q.cache.data, Q.cache.len
      ensures Valid()
      ensures Progress(pr, nu, old(A), A, activeSet[i], activeSet[j], t)
    {
      hide *;
      ValidParts();
      Sizes();
      PlacedSizes();
      SnapIs();
      ghost var s := Snap();
      ChosenRange(pr, s, nu, i, j);
      RoomToMove(pr, s, nu, i, j);
      var Qi, Qj, oldI, oldJ;
      Qi, Qj, oldI, oldJ, t := MoveAlphas(i, j);
      PairMovedOnly(pr, s, alpha[..], i, j, t);
      SnapIs();
      AlphasMovedFrom(s, i, j, oldI, oldJ);
      FollowAlphas(i, j, Qi, Qj, oldI, oldJ, s);
      SnapIs();
      MovedSizes(pr, s, Snap(), i, j, alpha[i], alpha[j]);
      StepCompletes(pr, nu, s, Snap(), i, j, t);
      ValidFrom();
    }

    lemma AlphasMovedFrom(s: State, i: int, j: int, oldI: real, oldJ: real)
      requires Shape() && Placed(pr, Snap()) && Inv(pr, s) && 0 <= i < activeSize <= l && 0 <= j < activeSize && i != j
      requires l == |s.act| == |s.alpha| == |s.A| == alpha.Length && 0 <= s.act[i] < l && 0 <= s.act[j] < l
      requires oldI == s.alpha[i] && oldJ == s.alpha[j]
      requires Snap() == s.(A := s.A[s.act[i] := alpha[i]][s.act[j] := alpha[j]],
                            alpha := s.alpha[i := alpha[i]][j := alpha[j]])
      ensures AlphasMoved(s, i, j, oldI, oldJ)
    {
      hide Shape, Placed, Inv, Snap;
    }

    /** Only the alphas of positions i and j, in both orders, differ from state s. */
    ghost predicate AlphasMoved(s: State, i: int, j: int, oldI: real, oldJ: real)
      reads this, y, activeSet, status, G, GBar, alpha, p
    {
      && Shape() && Placed(pr, Snap()) && Inv(pr, s) && 0 <= i < activeSize && 0 <= j < activeSize && i != j
      && oldI == s.alpha[i] && oldJ == s.alpha[j]
      && Snap() == s.(A := s.A[s.act[i] := alpha[i]][s.act[j] := alpha[j]],
                      alpha := s.alpha[i := alpha[i]][j := alpha[j]])
    }

    lemma MovedAlphas(s: State, i: int, j: int, oldI: real, oldJ: real)
      requires Shape() && AlphasMoved(s, i, j, oldI, oldJ)
      ensures Placed(pr, Snap()) && pr.Valid() && Placed(pr, s) && 0 <= i < activeSize <= l && 0 <= j < activeSize
      ensures i != j
      ensures |s.act| == |s.A| == |s.alpha| == |s.status| == |s.G| == |s.GBar| == l == |pr.p| == |pr.y|
      ensures l == status.Length == y.Length
      ensures forall k :: 0 <= k < |s.act| ==> 0 <= s.act[k] < |pr.p|
      ensures 0 <= s.act[i] < l && 0 <= s.act[j] < l && s.act == activeSet[..] && s.active == activeSize
      ensures alpha.Length == l
      ensures oldI == s.alpha[i] && oldJ == s.alpha[j]
      ensures Snap() == s.(A := s.A[s.act[i] := alpha[i]][s.act[j] := alpha[j]],
                           alpha := s.alpha[i := alpha[i]][j := alpha[j]])
      ensures status[i] == StatusOf(oldI, GetC(i)) && status[j] == StatusOf(oldJ, GetC(j))
      ensures GetC(i) == pr.C(s.act[i]) && GetC(j) == pr.C(s.act[j])
    {
      Sizes();
      ActiveRange();
      CostAt(i);
      CostAt(j);
      InvParts(pr, s);
      StatusAt(pr, s, i);
      StatusAt(pr, s, j);
      assert Snap().status == status[..] && Snap().act == activeSet[..];
      hide Shape, Inv, StatusOf, GetC, Problem.Valid;
    }

    /** The gradients and the status catch up with a pair of alphas moved since state s. */
    method FollowAlphas(i: int, j: int, Qi: seq<real>, Qj: seq<real>, oldI: real, oldJ: real, ghost s: State)
      requires Joined() && AlphasMoved(s, i, j, oldI, oldJ)
      requires ActiveRow(pr, activeSet[..], activeSize, i, Qi) && ActiveRow(pr, activeSet[..], activeSize, j, Qj)
      modifies G, GBar, status, Q.cache, Q.cache.prev, Q.cache.next, Q.cache.data, Q.cache.len
      ensures Joined() && Moved(pr, s, Snap(), i, j, alpha[i], alpha[j])
    {
      hide *;
      JoinedShape();
      Sizes();
      MovedAlphas(s, i, j, oldI, oldJ);
      SnapIs();
      ghost var was := Snap();
      UpdateGradient(i, j, Qi, Qj, alpha[i] - oldI, alpha[j] - oldJ);
      StillPlaced(was);
      ghost var di, dj := UpdateBounds(i, j, oldI, oldJ);
      SnapIs();
      MovedFrom(pr, s, Snap(), i, j, alpha[i], alpha[j], di, dj);
    }

    /** The active gradient is untouched since g0, and the tail accounts for v. */
    ghost predicate TailIs(g0: seq<real>, v: seq<real>)
      requires Shape() && Placed(pr, Snap()) && |g0| == l && |v| == l
      reads this, y, activeSet, status, G, GBar, alpha, p
    {
      && (forall k :: 0 <= k < activeSize ==> G[k] == g0[k])
      && TailTracks(pr, activeSet[..], v, G[..], activeSize)
    }

    /** Restores the gradient of the inactive variables from G_bar and the free variables. */
    method ReconstructGradient()
      requires Valid()
      modifies G, Q.cache, Q.cache.prev, Q.cache.next, Q.cache.data, Q.cache.len
      ensures Joined() && Inv(pr, Snap().(active := l))
      ensures forall k :: 0 <= k < activeSize ==> G[k] == old(G[k])
    {
      hide *;
      ValidParts();
      Sizes();
      PlacedSizes();
      SnapIs();
      ghost var s := Snap();
      if activeSize == l {
        return;
      }
      FilledAll(pr, s);
      StartTail();
      SnapIs();
      var nrFree := CountFree();
      if RowsCheaper(nrFree, activeSize, l) {
        RowsNeedOne(nrFree, activeSize, l);
        TailByRows(s);
      } else {
        TailByColumns(s);
      }
      StillPlaced(s);
      TailParts(s);
      Reconstructed(pr, s, G[..]);
    }

    /** The row variant is chosen only when something is active. */
    lemma RowsNeedOne(nrFree: int, active: int, l: int)
      requires 0 <= nrFree <= active <= l && RowsCheaper(nrFree, active, l)
      ensures 1 <= active
    {
      assert active == 0 ==> nrFree * l == 0;
    }

    lemma TailParts(s: State)
      requires Shape() && Snap() == s.(G := G[..]) && Placed(pr, Snap()) && |s.G| == l && |s.A| == l
      requires TailIs(s.G, s.A)
      ensures pr.Valid() && G.Length == l && |s.act| == l == |pr.p| && forall k :: 0 <= k < l ==> 0 <= s.act[k] < |pr.p|
      ensures forall k :: 0 <= k < s.active && k < l ==> G[k] == s.G[k]
      ensures TailTracks(pr, s.act, s.A, G[..], s.active)
    {
      Sizes();
      PlacedSizes();
      hide Shape, Matches, Problem.Valid, Placed, TailTracks;
    }

    method StartTail()
      requires Valid()
      modifies G
      ensures Joined() && Placed(pr, Snap())
      ensures TailIs(old(G[..]), pr.UpperPart(A))
    {
      hide *;
      ValidParts();
      Sizes();
      PlacedSizes();
      SnapIs();
      ghost var g0, s := G[..], Snap();
      for j := activeSize to l
        invariant forall k :: 0 <= k < activeSize ==> G[k] == g0[k]
        invariant forall k :: activeSize <= k < j ==> G[k] == GBar[k] + p[k]
      {
        G[j] := GBar[j] + p[j];
      }
      StillPlaced(s);
      TailStarts(s);
    }

    lemma ValidParts()
      requires Valid()
      ensures Joined() && Shape() && Inv(pr, Snap()) && pr.Valid() && Placed(pr, Snap()) && StatusOk(pr, Snap())
      ensures GBarOk(pr, Snap()) && pr.Feasible(A) && |A| == |pr.p| == |pr.y| && 0 <= activeSize <= l
    {
      JoinedShape();
      hide Joined, Shape, Placed, StatusOk, GradOk, GBarOk, Settled;
      assert Placed(pr, Snap());
      PlacedSizes();
      Sizes();
    }

    lemma TailStarts(s: State)
      requires Shape() && Placed(pr, Snap()) && Placed(pr, s) && pr.Valid() && GBarOk(pr, s) && |A| == |pr.p| == |pr.y|
      requires s.act == activeSet[..] && s.GBar == GBar[..] && s.A == A && s.active == activeSize && |s.G| == l
      requires G.Length == GBar.Length == p.Length == l
      requires forall k :: 0 <= k < activeSize && k < l ==> G[k] == s.G[k]
      requires forall k :: 0 <= activeSize <= k < l ==> G[k] == GBar[k] + p[k]
      ensures TailIs(s.G, pr.UpperPart(A))
    {
      Sizes();
      PlacedSizes();
      hide Shape, Matches, Problem.Valid, Problem.UpperPart, Dot;
      assert forall k :: 0 <= k < l ==> p[k] == Snap().p[k] == pr.p[activeSet[k]];
      assert forall k :: 0 <= k < l ==> GBar[k] == s.GBar[k] && activeSet[k] == s.act[k];
    }

    method CountFree() returns (nrFree: int)
      requires Shape() && 0 <= activeSize <= l
      ensures 0 <= nrFree <= activeSize
    {
      nrFree := 0;
      for j := 0 to activeSize
        invariant 0 <= nrFree <= j
      {
        if IsFree(j) {
          nrFree := nrFree + 1;
        }
      }
    }

    /** Column by column: every free active variable is added to the whole tail. */
    method TailByColumns(ghost s: State)
      requires Joined() && Inv(pr, s) && Snap() == s.(G := G[..]) && TailIs(s.G, Filled(pr, s, 0))
      modifies G, Q.cache, Q.cache.prev, Q.cache.next, Q.cache.data, Q.cache.len
      ensures Joined() && Snap() == s.(G := G[..]) && TailIs(s.G, Filled(pr, s, s.active))
    {
      hide *;
      JoinedShape();
      Sizes();
      SnapIs();
      InvParts(pr, s);
      PlacedWithG(pr, s, G[..]);
      PlacedSizes();
      for i := 0 to activeSize
        invariant Joined() && Snap() == s.(G := G[..]) && Placed(pr, Snap()) && TailIs(s.G, Filled(pr, s, i))
      {
        FilledNext(pr, s, i);
        SnapIs();
        FreeAt(s, i);
        if IsFree(i) {
          AddColumn(i, s);
        }
      }
    }

    lemma FreeAt(s: State, i: int)
      requires 0 <= i < status.Length && s.status == status[..]
      ensures |s.status| == status.Length && (IsFree(i) <==> s.status[i] == Free)
    {
    }

    method AddColumn(i: int, ghost s: State)
      requires Joined() && Inv(pr, s) && Snap() == s.(G := G[..]) && 0 <= i < activeSize
      requires TailIs(s.G, Filled(pr, s, i)) && s.status[i] == Free
      modifies G, Q.cache, Q.cache.prev, Q.cache.next, Q.cache.data, Q.cache.len
      ensures Joined() && Snap() == s.(G := G[..]) && Placed(pr, Snap()) && TailIs(s.G, Filled(pr, s, i + 1))
    {
      hide SvcQ.Valid, StatusOk, GradOk, GBarOk, Settled, Filled, Inv, TailTracks, Problem.Valid, Permutation;
      InvParts(pr, s);
      ghost var act, v := activeSet[..], Filled(pr, s, i);
      FilledNext(pr, s, i);
      var Qi := Row(i, l);
      AddTail(G, activeSize, Qi, alpha[i], pr, act, v, act[i]);
    }

    /** Row by row: every inactive position sums up the free active variables itself. */
    method TailByRows(ghost s: State)
      requires Joined() && Inv(pr, s) && Snap() == s.(G := G[..]) && TailIs(s.G, Filled(pr, s, 0)) && 1 <= activeSize
      modifies G, Q.cache, Q.cache.prev, Q.cache.next, Q.cache.data, Q.cache.len
      ensures Joined() && Snap() == s.(G := G[..]) && TailIs(s.G, Filled(pr, s, s.active))
    {
      hide *;
      JoinedShape();
      Sizes();
      SnapIs();
      InvParts(pr, s);
      PlacedWithG(pr, s, G[..]);
      TailIsMixed(s);
      for i := activeSize to l
        invariant Joined() && Snap() == s.(G := G[..])
        invariant MixedTail(pr, s, G[..], i)
      {
        RowFill(i, s);
        SnapIs();
      }
      PlacedWithG(pr, s, G[..]);
      MixedIsTail(s);
    }

    lemma TailIsMixed(s: State)
      requires Shape() && Inv(pr, s) && Snap() == s.(G := G[..]) && |s.act| == |s.A| == |s.G| == l == G.Length
      requires Placed(pr, Snap())
      requires TailIs(s.G, Filled(pr, s, 0)) && 0 <= s.active
      ensures MixedTail(pr, s, G[..], s.active)
    {
      TailFacts(s, 0);
      hide Shape, Inv, TailIs, Filled, Dot, Problem.Valid, Placed;
      InvParts(pr, s);
    }

    lemma MixedIsTail(s: State)
      requires Shape() && Inv(pr, s) && Snap() == s.(G := G[..]) && |s.act| == |s.A| == |s.G| == l == G.Length
      requires Placed(pr, Snap())
      requires MixedTail(pr, s, G[..], l) && 0 <= s.active
      ensures TailIs(s.G, Filled(pr, s, s.active))
    {
      InvParts(pr, s);
      Sizes();
      hide Shape, Inv, Filled, Dot, Problem.Valid, Placed, Matches;
      assert Snap().act == s.act == activeSet[..] && Snap().active == s.active == activeSize;
    }

    /** What TailIs says of a completed vector. */
    lemma TailFacts(s: State, n: nat)
      requires Shape() && Inv(pr, s) && Snap() == s.(G := G[..]) && |s.act| == |s.A| == |s.G| == l == G.Length
      requires Placed(pr, Snap())
      requires TailIs(s.G, Filled(pr, s, n))
      ensures pr.Valid() && Placed(pr, s) && |s.act| == |pr.p|
      ensures forall k :: 0 <= k < |s.act| ==> 0 <= s.act[k] < |pr.p|
      ensures forall k :: 0 <= k < s.active && k < l ==> G[k] == s.G[k]
      ensures forall k :: 0 <= s.active <= k < |s.act| ==>
                G[k] == pr.p[s.act[k]] + Dot(pr.K[s.act[k]], Filled(pr, s, n))
    {
      InvParts(pr, s);
      Sizes();
      hide Shape, Inv, Filled, Dot, Problem.Valid, Placed, Matches;
      assert Snap().act == s.act == activeSet[..] && Snap().active == s.active == activeSize;
    }

    method RowFill(i: int, ghost s: State)
      requires Joined() && Inv(pr, s) && Snap() == s.(G := G[..]) && 1 <= activeSize <= i < l
      requires MixedTail(pr, s, G[..], i)
      modifies G, Q.cache, Q.cache.prev, Q.cache.next, Q.cache.data, Q.cache.len
      ensures Joined() && Snap() == s.(G := G[..])
      ensures MixedTail(pr, s, G[..], i + 1)
    {
      hide *;
      JoinedShape();
      Sizes();
      SnapIs();
      InvParts(pr, s);
      PlacedWithG(pr, s, G[..]);
      PlacedSizes();
      ghost var g := G[..];
      MixedAt(pr, s, g, i);
      var Qi := Row(i, activeSize);
      FillPosition(G, i, activeSize, alpha, status, Qi, pr, s);
      MixedNext(pr, s, g, G[..], i);
      SnapIs();
    }

    /** The snapshot with the first n positions taken as active. */
    ghost function Window(n: int): State
      reads this, y, activeSet, status, G, GBar, alpha, p
    {
      Snap().(active := n)
    }

    /** The largest y_k G_k over the movable-down positions of a class (side 0: of both). */
    method FindLow(side: int) returns (low: Ext)
      requires Shape() && Placed(pr, Snap())
      ensures MaxLow(Snap(), side, activeSize, low)
    {
      ghost var s := Snap();
      MaxLowStart(s);
      hide MaxLow;
      low := NegInf;
      for i := 0 to activeSize
        invariant MaxLow(s, side, i, low)
      {
        MaxLowNext(s, side, i, low);
        if side == 0 || y[i] == side {
          if y[i] == 1 {
            if !IsLower(i) {
              if AtLeast(G[i], low) {
                low := Finite(G[i]);
              }
            }
          } else {
            if !IsUpper(i) {
              if AtLeast(-G[i], low) {
                low := Finite(-G[i]);
              }
            }
          }
        }
      }
    }

    /** First loop of do_shrinking for one class (side 0: for both): its two running maxima. */
    method FindMaxima(side: int) returns (up: Ext, low: Ext)
      requires Shape() && Placed(pr, Snap())
      ensures UpMax(Snap(), side, activeSize, up) && MaxLow(Snap(), side, activeSize, low)
    {
      var idx;
      up, idx := FindUp(side);
      low := FindLow(side);
    }

    /** The thresholds of the shrinking test. */
    method FindLimits() returns (m: Limits)
      requires Shape() && Placed(pr, Snap())
      ensures LimitsOf(Snap(), nu, m)
    {
      if nu {
        var posUp, posLow := FindMaxima(1);
        var negUp, negLow := FindMaxima(-1);
        m := Limits(posUp, posLow, negLow, negUp);
      } else {
        var up, low := FindMaxima(0);
        m := Limits(up, low, low, up);
      }
    }

    /** Shrinks the problem: once no admissible pair violates optimality by more than ten eps, the whole
        gradient is rebuilt and everything becomes active again, one time; then exactly the bounded
        variables are dropped whose pairs with the active set on entry all have negative violations. */
    method DoShrinking() returns (ghost m: Limits, ghost n: int)
      requires Valid()
      modifies this`activeSize, this`unshrink, this`pos, y, activeSet, status, G, GBar, alpha, p
      modifies Q.x, Q.y, Q.QD, Q.cache, Q.cache.prev, Q.cache.next, Q.cache.data, Q.cache.len
      ensures Valid() && unchanged(this`A)
      ensures LimitsOf(old(Snap()), nu, m)
      ensures n == (if unshrink && !old(unshrink) then l else old(activeSize)) && activeSize <= n <= l
      ensures Sorted(Snap(), activeSize, activeSize, n, m)
      ensures unshrink <==> old(unshrink) || NearlyOptimal(old(Snap()), nu, eps * 10.0)
      ensures ShrunkTo(old(Snap()), nu, Snap(), n)
    {
      hide *;
      ValidParts();
      Sizes();
      SnapLabels();
      ghost var s := Snap();
      var limits := FindLimits();
      m := limits;
      LimitsNear(s, nu, m, eps * 10.0);
      if !unshrink && !Exceeds2(limits.posUp, limits.posLow, eps * 10.0)
        && !Exceeds2(limits.negUp, limits.negLow, eps * 10.0) {
        Unshrink();
      }
      n := activeSize;
      Partition(limits);
      ValidParts();
      Sizes();
      SnapLabels();
      SortedByHarm(s, nu, m, Snap(), n);
    }

    lemma SnapLabels()
      requires Shape() && Placed(pr, Snap())
      ensures |Snap().y| == |Snap().G| == |Snap().status| == l && 0 <= Snap().active == activeSize <= l
      ensures forall k :: 0 <= k < |Snap().y| ==> Snap().y[k] == 1 || Snap().y[k] == -1
    {
      PlacedSizes();
      Sizes();
      hide Shape, SvcQ.Shape, Matches;
    }

    /** Rebuilds the whole gradient, once, and makes every variable active again. */
    method Unshrink()
      requires Valid()
      modifies this`activeSize, this`unshrink, G, Q.cache, Q.cache.prev, Q.cache.next, Q.cache.data, Q.cache.len
      ensures Valid() && activeSize == l && unshrink
    {
      hide *;
      ValidParts();
      JoinedShape();
      SnapIs();
      unshrink := true;
      JoinedFrom();
      SnapIs();
      ValidFrom();
      ReconstructGradient();
      JoinedShape();
      SnapIs();
      activeSize := l;
      JoinedFrom();
      SnapIs();
      ValidFrom();
    }

    /** Moves what passes the test to the front of the active prefix and cuts off the rest. */
    method Partition(m: Limits)
      requires Valid()
      modifies this`activeSize, this`pos, y, activeSet, status, G, GBar, alpha, p
      modifies Q.x, Q.y, Q.QD, Q.cache, Q.cache.prev, Q.cache.next, Q.cache.data, Q.cache.len
      ensures Valid() && activeSize <= old(activeSize)
      ensures Sorted(Snap(), activeSize, activeSize, old(activeSize), m)
    {
      hide Joined, Shape, SvcQ.Valid, SvcQ.Shape, Matches, Inv, Placed, Sorted, BeShrunk, Problem.Valid;
      ValidParts();
      Sizes();
      PlacedSizes();
      ghost var n := activeSize;
      SnapIs();
      WindowIs(n);
      SortedStart(Snap(), n, m);
      var i := 0;
      while i < activeSize
        invariant 0 <= i && 0 <= activeSize <= n
        invariant Joined() && Inv(pr, Window(n)) && Sorted(Window(n), i, activeSize, n, m)
        decreases activeSize - i
      {
        WindowIs(n);
        WindowTest(i, m, n);
        if BeShrunk(status[i], y[i], G[i], m) {
          DropAt(i, m, n);
        } else {
          SortedPass(Window(n), i, activeSize, n, m);
        }
        i := i + 1;
      }
      WindowIs(n);
      SnapIs();
      SortedEnd(Window(n), i, activeSize, n, m, activeSize);
      SortedShrinks(pr, Window(n), activeSize, n, m);
      ValidFrom();
    }

    lemma WindowIs(n: int)
      ensures Window(n) == State(activeSet[..], pos, y[..], p[..], alpha[..], status[..], G[..], GBar[..], n, A)
    {
    }

    lemma WindowTest(i: int, m: Limits, n: int)
      requires 0 <= i < l == status.Length == y.Length == G.Length
      ensures |Window(n).y| == |Window(n).G| == |Window(n).status| == l
      ensures ShrunkAt(Window(n), i, m) <==> BeShrunk(status[i], y[i], G[i], m)
    {
      hide BeShrunk;
    }

    /** Position i fails the test: the last passing position behind it takes its place, or the
        active prefix ends here. */
    method DropAt(i: int, m: Limits, ghost n: int)
      requires 0 <= i < activeSize <= n <= l
      requires Joined() && Inv(pr, Window(n)) && Sorted(Window(n), i, activeSize, n, m) && ShrunkAt(Window(n), i, m)
      modifies this`activeSize, this`pos, y, activeSet, status, G, GBar, alpha, p
      modifies Q.x, Q.y, Q.QD, Q.cache, Q.cache.prev, Q.cache.next, Q.cache.data, Q.cache.len
      ensures i <= activeSize < old(activeSize)
      ensures Joined() && Inv(pr, Window(n)) && Sorted(Window(n), i + 1, activeSize, n, m)
    {
      hide Joined, Shape, SvcQ.Valid, SvcQ.Shape, Matches, Inv, Placed, Sorted, BeShrunk, Problem.Valid;
      JoinedShape();
      Sizes();
      activeSize := activeSize - 1;
      JoinedFrom();
      WindowIs(n);
      while activeSize > i
        invariant i <= activeSize < old(activeSize)
        invariant Joined() && Window(n) == old(Window(n))
        invariant Sorted(Window(n), i, activeSize + 1, n, m)
      {
        WindowTest(activeSize, m, n);
        if !BeShrunk(status[activeSize], y[activeSize], G[activeSize], m) {
          SwapInWindow(i, activeSize, m, n);
          return;
        }
        SortedMore(Window(n), i, activeSize, n, m);
        JoinedShape();
        activeSize := activeSize - 1;
        JoinedFrom();
        WindowIs(n);
      }
      WindowTest(i, m, n);
      SortedEmpty(Window(n), i, n, m);
    }

    method SwapInWindow(i: int, j: int, ghost m: Limits, ghost n: int)
      requires 0 <= i < j < n <= l && 0 <= activeSize <= l
      requires Joined() && Inv(pr, Window(n)) && Sorted(Window(n), i, j + 1, n, m)
      requires ShrunkAt(Window(n), i, m) && !ShrunkAt(Window(n), j, m)
      modifies this`pos, y, activeSet, status, G, GBar, alpha, p
      modifies Q.x, Q.y, Q.QD, Q.cache, Q.cache.prev, Q.cache.next, Q.cache.data, Q.cache.len
      ensures Joined() && Inv(pr, Window(n)) && Sorted(Window(n), i + 1, j, n, m)
    {
      hide *;
      JoinedShape();
      Sizes();
      WindowIs(n);
      SnapIs();
      ghost var w := Window(n);
      WindowPlaced(pr, w, activeSize);
      SwappedFits(pr, w, i, j);
      SwappedFits(pr, Snap(), i, j);
      SwapKeepsInv(pr, w, i, j);
      SwapSorts(pr, w, i, j, n, m);
      SwapIndex(i, j);
      WindowIs(n);
      SnapIs();
    }

    /** Rebuilds the whole gradient, makes everything active and selects again. */
    method SelectFromAll() returns (optimal: bool, i: int, j: int)
      requires Valid() && 0.0 < eps
      modifies this`activeSize, G, Q.cache, Q.cache.prev, Q.cache.next, Q.cache.data, Q.cache.len
      ensures Valid() && activeSize == l
      ensures optimal <==> ActiveOptimal(Snap(), nu, eps)
      ensures !optimal ==> Chosen(pr, Snap(), nu, i, j)
    {
      hide SvcQ.Valid, StatusOk, GradOk, GBarOk, Settled, Matches, Chosen, ActiveOptimal;
      ReconstructGradient();
      activeSize := l;
      optimal, i, j := SelectWorkingSet();
    }

    /** Counts a turn; every so often the active set is shrunk. */
    method CountDown(counter0: int, shrinking: bool) returns (counter: int)
      requires Valid()
      modifies this`activeSize, this`unshrink, this`pos, y, activeSet, status, G, GBar, alpha, p
      modifies Q.x, Q.y, Q.QD, Q.cache, Q.cache.prev, Q.cache.next, Q.cache.data, Q.cache.len
      ensures Valid() && A == old(A)
      ensures if shrinking && counter0 == 1
        then ShrunkTo(old(Snap()), nu, Snap(), if unshrink && !old(unshrink) then l else old(activeSize))
        else Snap() == old(Snap())
      ensures unshrink <==>
        old(unshrink) || (shrinking && counter0 == 1 && NearlyOptimal(old(Snap()), nu, eps * 10.0))
      ensures counter == if counter0 != 1 then counter0 - 1 else if l < 1000 then l else 1000
    {
      hide *;
      ValidParts();
      Sizes();
      SnapLabels();
      counter := counter0 - 1;
      if counter == 0 {
        counter := if l < 1000 then l else 1000;
        if shrinking {
          ghost var _, _ := DoShrinking();
        }
      }
    }

    /** One turn of the optimization loop: perhaps shrink, select, and step. When the active set
        is optimal the gradient is rebuilt and everything is looked at again before giving up.
        `mid` is the state in which the active set is searched, `again` says that it was optimal. */
    method Iterate(counter0: int, shrinking: bool)
      returns (counter: int, done: bool, ghost mid: State, ghost again: bool)
      requires Valid() && 0.0 < eps
      modifies this`activeSize, this`unshrink, this`pos, this`A, y, activeSet, status, G, GBar, alpha, p
      modifies Q.x, Q.y, Q.QD, Q.cache, Q.cache.prev, Q.cache.next, Q.cache.data, Q.cache.len
      ensures Valid()
      ensures done ==> A == old(A) && activeSize == l && ActiveOptimal(Snap(), nu, eps)
      ensures !done ==> Improves(pr, nu, old(A), A)
      ensures 0 <= mid.active <= |mid.y| && |mid.y| == |mid.G| == |mid.status|
      ensures if shrinking && counter0 == 1
        then ShrunkTo(old(Snap()), nu, mid, if unshrink && !old(unshrink) then l else old(activeSize))
        else mid == old(Snap())
      ensures unshrink <==>
        old(unshrink) || (shrinking && counter0 == 1 && NearlyOptimal(old(Snap()), nu, eps * 10.0))
      ensures again <==> ActiveOptimal(mid, nu, eps)
      ensures activeSize == if again then l else mid.active
      ensures !done ==> counter == if again then 1 else if counter0 != 1 then counter0 - 1
        else if l < 1000 then l else 1000
    {
      hide *;
      done := false;
      counter := CountDown(counter0, shrinking);
      ValidParts();
      Sizes();
      SnapLabels();
      mid := Snap();
      var optimal, i, j := SelectWorkingSet();
      ValidFrom();
      again := optimal;
      if optimal {
        optimal, i, j := SelectFromAll();
        if optimal {
          done := true;
          return;
        }
        counter := 1;
      }
      StepOnce(i, j);
    }

    /** A step along a chosen pair, seen from the caller's order. */
    method StepOnce(i: int, j: int)
      requires Valid() && Chosen(pr, Snap(), nu, i, j)
      modifies this`A, alpha, G, GBar, status, Q.cache, Q.cache.prev, Q.cache.next, Q.cache.data, Q.cache.len
      ensures Valid()
      ensures Improves(pr, nu, old(A), A)
    {
      hide SvcQ.Valid, SvcQ.Shape, Matches, Chosen, Inv, Placed, Progress;
      InvParts(pr, Snap());
      InvSizes(pr, Snap());
      ChosenRange(pr, Snap(), nu, i, j);
      ghost var oi, oj := activeSet[i], activeSet[j];
      ghost var t := TakeStep(i, j);
      InvSizes(pr, Snap());
    }

    /** calculate_rho for one class (side 0: for both): the mean height of the free variables, or
        else the middle of the interval left by the bounded ones. */
    method CalculateOffset(side: int) returns (offset: Offset, ghost t: Tally)
      requires Shape() && Placed(pr, Snap())
      ensures Tallied(Snap(), side, activeSize, t) && offset == OffsetOf(t)
    {
      ghost var s := Snap();
      hide Tallied;
      var nrFree: nat, sumFree: real := 0, 0.0;
      var negUb, lb := NegInf, NegInf;
      t := Tally(NegInf, NegInf, 0, 0.0, 0.0, 0.0);
      TallyStart(s, side, t);
      for i := 0 to activeSize
        invariant Tallied(s, side, i, t)
        invariant t.negUb == negUb && t.lb == lb && t.free == nrFree && t.sum == sumFree
      {
        assert s.y[i] == pr.y[s.act[i]];
        TallyGrows(s, side, i, t);
        if side == 0 || y[i] == side {
          t := TallyNext(s, i, t);
          var yG := if y[i] == 1 then G[i] else -G[i];
          if IsUpper(i) {
            if y[i] == -1 {
              negUb := Max(-yG, negUb);
            } else {
              lb := Max(yG, lb);
            }
          } else if IsLower(i) {
            if y[i] == 1 {
              negUb := Max(-yG, negUb);
            } else {
              lb := Max(yG, lb);
            }
          } else {
            nrFree := nrFree + 1;
            sumFree := sumFree + yG;
          }
        }
      }
      if nrFree > 0 {
        offset := Value(sumFree / nrFree as real);
      } else {
        offset := UpperEnd(negUb).Plus(LowerEnd(lb)).Halved();
      }
    }

    /** calculate_rho: one offset for both classes, or half the difference of two in the nu-problem,
        where half their sum is returned as well. Finite offsets separate the classes up to eps. */
    method CalculateRho() returns (rho: Offset, r: Offset)
      requires Valid() && activeSize == l && 0.0 < eps && ActiveOptimal(Snap(), nu, eps)
      ensures Combined(Snap(), nu, rho, r) && OffsetsKind(pr, nu, A, rho, r)
      ensures rho.Value? && r.Value? ==> Separated(pr, A, eps, rho.r + r.r, rho.r - r.r)
    {
      hide *;
      ValidParts();
      Sizes();
      SnapIs();
      ghost var s := Snap();
      if nu {
        var pos, tp := CalculateOffset(1);
        var neg, tn := CalculateOffset(-1);
        var r1, r2 := pos, neg.Negated();
        rho, r := r1.Plus(r2.Negated()).Halved(), r1.Plus(r2).Halved();
        MixedIs(pos, neg, rho, r);
        OffsetFromTally(s, 1, l, pos, tp);
        OffsetFromTally(s, -1, l, neg, tn);
        OffsetKind(pr, s, 1, pos);
        OffsetKind(pr, s, -1, neg);
        BothReported(pr, s, eps, pos, neg, rho, r);
        if pos.Value? && neg.Value? {
          OffsetSeparates(s, nu, eps, 1, tp);
          OffsetSeparates(s, nu, eps, -1, tn);
          SidesSeparate(pr, s, nu, eps, pos.r, neg.r);
        }
      } else {
        ghost var t;
        rho, t := CalculateOffset(0);
        r := Value(0.0);
        OffsetFromTally(s, 0, l, rho, t);
        OffsetKind(pr, s, 0, rho);
        OneReported(pr, s, rho, r);
        if rho.Value? {
          OffsetSeparates(s, nu, eps, 0, t);
          SidesSeparate(pr, s, nu, eps, rho.r, rho.r);
        }
      }
    }

    /** The objective value from the gradient, summed up in the current order. */
    method CalculateObjective() returns (obj: real)
      requires Valid() && activeSize == l
      ensures obj == pr.Objective(A)
    {
      var v := SumObjective(alpha, G, p, pr, Snap());
      GatherAll(pr, Snap());
      hide Inv, SvcQ.Valid, Matches;
      ObjectiveFromWeights(pr, A);
      obj := v / 2.0;
    }

    /** Puts the solution back into the caller's array, in the caller's order. */
    method PutBack(alpha_: array<real>)
      requires Valid() && alpha_.Length == l && alpha_ != alpha
      modifies alpha_
      ensures alpha_[..] == A
    {
      hide SvcQ.Valid, SvcQ.Shape, Matches, Inv, Placed, Permutation;
      ghost var s := Snap();
      InvParts(pr, s);
      for i := 0 to l
        invariant forall k :: 0 <= k < i ==> alpha_[s.act[k]] == A[s.act[k]]
      {
        PlacedAlpha(pr, s, i);
        alpha_[activeSet[i]] := alpha[i];
      }
      forall o | 0 <= o < l
        ensures alpha_[o] == A[o]
      {
        PlaceOf(pr, s, o);
      }
    }

    /** The last part of Solve: the report, and the solution back in the caller's order. */
    method Finish(alpha_: array<real>) returns (info: SolutionInfo)
      requires Valid() && activeSize == l && 0.0 < eps && ActiveOptimal(Snap(), nu, eps)
      requires alpha_.Length == l && alpha_ != alpha
      modifies alpha_
      ensures alpha_[..] == A && pr.Feasible(A) && pr.EpsOptimal(A, eps, nu) && Reported(pr, nu, eps, A, info)
    {
      hide SvcQ.Valid, SvcQ.Shape, Matches, ActiveOptimal, Separated, Inv, Combined, OffsetsKind, Problem.EpsOptimal,
        Problem.Feasible, Problem.Objective;
      InvSizes(pr, Snap());
      FullOptimal(pr, Snap(), nu, eps);
      var rho, r := CalculateRho();
      var obj := CalculateObjective();
      PutBack(alpha_);
      info := SolutionInfo(obj, rho, r, Cp, Cn);
    }

    /** The optimization loop, for at most `fuel` turns: the source has no bound of its own. Each
        turn that does not finish lowers the objective, and every turn keeps the conserved sums. */
    method Optimize(shrinking: bool, fuel: nat) returns (finished: bool, ghost trail: seq<seq<real>>)
      requires Valid() && 0.0 < eps
      modifies this`activeSize, this`unshrink, this`pos, this`A, y, activeSet, status, G, GBar, alpha, p
      modifies Q.x, Q.y, Q.QD, Q.cache, Q.cache.prev, Q.cache.next, Q.cache.data, Q.cache.len
      ensures Valid()
      ensures pr.Objective(A) <= pr.Objective(old(A)) && SameSums(pr, old(A), A, nu)
      ensures finished ==> activeSize == l && ActiveOptimal(Snap(), nu, eps)
      ensures Descent(pr, nu, trail) && trail[0] == old(A) && trail[|trail| - 1] == A
      ensures |trail| <= fuel + 1 && (!finished ==> |trail| == fuel + 1)
    {
      hide SvcQ.Valid, StatusOk, GradOk, GBarOk, Settled, Matches, ActiveOptimal, Improves;
      var counter := (if l < 1000 then l else 1000) + 1;
      finished, trail := false, [A];
      var iter := 0;
      while iter < fuel && !finished
        invariant Valid()
        invariant Descent(pr, nu, trail) && trail[0] == old(A) && trail[|trail| - 1] == A
        invariant iter <= fuel && |trail| == if finished then iter else iter + 1
        invariant pr.Objective(A) <= pr.Objective(old(A)) && SameSums(pr, old(A), A, nu)
        invariant finished ==> activeSize == l && ActiveOptimal(Snap(), nu, eps)
        decreases fuel - iter, !finished
      {
        ghost var was := A;
        ghost var mid, again;
        counter, finished, mid, again := Iterate(counter, shrinking);
        if !finished {
          ImprovedOnce(pr, nu, was, A);
          DescentNext(pr, nu, trail, A);
          trail := trail + [A];
        }
        iter := iter + 1;
      }
    }
  }

  /** A solution that meets the stopping rule over all variables of the caller's problem, no worse
      than the start and with the same conserved sums, with a faithful report. */
  ghost predicate Solved(pr: Problem, nu: bool, eps: real, start: seq<real>, A: seq<real>, info: SolutionInfo)
    requires pr.Valid() && |start| == |A| == |pr.p|
  {
    && pr.Feasible(A) && SameSums(pr, start, A, nu)
    && pr.EpsOptimal(A, eps, nu)
    && pr.Objective(A) <= pr.Objective(start)
    && Reported(pr, nu, eps, A, info)
  }

  /** A solution keeps each variable between 0 and the bound of its class. */
  lemma SolvedInBox(K: seq<seq<real>>, p: seq<real>, y: seq<int>, Cp: real, Cn: real, nu: bool, eps: real,
                    start: seq<real>, A: seq<real>, info: SolutionInfo, o: nat)
    requires Problem(K, p, y, Cp, Cn).Valid() && |start| == |A| == |p| && o < |p|
    requires Solved(Problem(K, p, y, Cp, Cn), nu, eps, start, A, info)
    ensures 0.0 <= A[o] && (y[o] == 1 ==> A[o] <= Cp) && (y[o] == -1 ==> A[o] <= Cn)
  {
    hide Problem.EpsOptimal, Reported, Problem.Objective, SameSums;
  }

  /** For a convex problem a solution is within eps·½Σ|β-α| of every feasible β with the sums of the start. */
  lemma SolvedIsNearOptimal(pr: Problem, nu: bool, eps: real, start: seq<real>, A: seq<real>, info: SolutionInfo,
                            B: seq<real>)
    requires pr.Valid() && |start| == |A| == |B| == |pr.p| && 0.0 <= eps && Solved(pr, nu, eps, start, A, info)
    requires PositiveSemidefinite(pr.K) && pr.Feasible(B) && SameSums(pr, start, B, nu)
    ensures pr.Objective(A) <= pr.Objective(B) + eps * (0.5 * Norm(Minus(B, A)))
  {
    hide Problem.Feasible, Problem.EpsOptimal, PositiveSemidefinite, Reported;
    StoppingRuleBoundsGap(pr, A, B, eps, nu);
  }

  /** Solves the problem from the feasible point in alpha_ and writes the solution back there, in
      the caller's order, after a run of strictly descending steps; alpha_ is untouched when the turns
      run out first. */
  method Solve(Q: SvcQ, p_: seq<real>, y_: seq<int>, alpha_: array<real>, Cp: real, Cn: real, eps: real,
               nu: bool, shrinking: bool, fuel: nat, ghost K: seq<seq<real>>)
    returns (finished: bool, info: SolutionInfo, ghost trail: seq<seq<real>>)
    requires |p_| == |y_| == alpha_.Length == Q.l && Q.Valid() && alpha_ != Q.QD && 0.0 < eps
    requires Matches(Problem(K, p_, y_, Cp, Cn), Q.kernel)
    requires Problem(K, p_, y_, Cp, Cn).Feasible(alpha_[..])
    requires Q.y[..] == y_ && forall i :: 0 <= i < Q.l ==> Q.x[i] == i
    modifies alpha_, Q.x, Q.y, Q.QD, Q.cache, Q.cache.prev, Q.cache.next, Q.cache.data, Q.cache.len
    ensures Q.Valid()
    ensures finished ==> Solved(Problem(K, p_, y_, Cp, Cn), nu, eps, old(alpha_[..]), alpha_[..], info)
    ensures !finished ==> alpha_[..] == old(alpha_[..])
    ensures Descent(Problem(K, p_, y_, Cp, Cn), nu, trail) && trail[0] == old(alpha_[..])
    ensures if finished then |trail| <= fuel + 1 && trail[|trail| - 1] == alpha_[..] else |trail| == fuel + 1
  {
    hide Descent, SvcQ.Valid, Matches, StatusOk, GradOk, GBarOk, Settled, ActiveOptimal, Permutation, Problem.Feasible,
      Reported;
    var s := Solver.Create(Q, p_, y_, alpha_[..], Cp, Cn, eps, nu, K);
    s.Initialize();
    finished, trail := s.Optimize(shrinking, fuel);
    info := SolutionInfo(0.0, NaN, NaN, Cp, Cn);
    if finished {
      info := s.Finish(alpha_);
    }
  }

  method SwapCells<T>(a: array<T>, i: int, j: int)
    requires 0 <= i < a.Length && 0 <= j < a.Length
    modifies a
    ensures a[..] == Swap(old(a[..]), i, j)
  {
    a[i], a[j] := a[j], a[i];
  }
}
