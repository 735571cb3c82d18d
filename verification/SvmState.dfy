/** The bookkeeping state of the solver as a value: everything is stored in the current order,
    which is a permutation act of the caller's order, and all sums are stated in the caller's. */
module SvmState {
  import opened Vectors
  import opened SvmProblem
  import opened KernelMatrix

  datatype Status = LowerBound | UpperBound | Free

  function StatusOf(a: real, c: real): Status
  {
    if a >= c then UpperBound else if a <= 0.0 then LowerBound else Free
  }

  datatype State = State(
    act: seq<int>,        // active_set: the caller's index of each position
    pos: seq<int>,  // the position of each of the caller's indices
    y: seq<int>, p: seq<real>, alpha: seq<real>, status: seq<Status>,
    G: seq<real>, GBar: seq<real>,
    active: int,          // active_size
    A: seq<real>)         // alpha in the caller's order

  /** act is a permutation of 0..n-1 and inv is its inverse. */
  ghost predicate Permutation(act: seq<int>, inv: seq<int>, n: nat)
  {
    && |act| == |inv| == n
    && (forall k :: 0 <= k < n ==> 0 <= act[k] < n && inv[act[k]] == k)
    && (forall o :: 0 <= o < n ==> 0 <= inv[o] < n && act[inv[o]] == o)
  }

  /** Every per-variable array carries the value of the variable placed there. */
  ghost predicate Placed(pr: Problem, s: State)
  {
    && Permutation(s.act, s.pos, |pr.p|)
    && |s.A| == |s.y| == |s.p| == |s.alpha| == |s.status| == |s.G| == |s.GBar| == |pr.p| == |pr.y|
    && 0 <= s.active <= |pr.p|
    && (forall k :: 0 <= k < |s.act| ==>
      s.y[k] == pr.y[s.act[k]] && s.p[k] == pr.p[s.act[k]] && s.alpha[k] == s.A[s.act[k]])
  }

  ghost predicate StatusOk(pr: Problem, s: State)
    requires Placed(pr, s)
  {
    forall k :: 0 <= k < |s.act| ==> s.status[k] == StatusOf(s.alpha[k], pr.C(s.act[k]))
  }

  /** g holds off + K·v, position by position, on the first n positions. */
  ghost predicate Tracks(pr: Problem, act: seq<int>, off: seq<real>, v: seq<real>, g: seq<real>, n: int)
    requires pr.Valid() && |off| == |v| == |pr.p| && |g| == |act|
    requires forall k :: 0 <= k < |act| ==> 0 <= act[k] < |pr.p|
  {
    forall k :: 0 <= k < n && k < |act| ==> g[k] == off[act[k]] + Dot(pr.K[act[k]], v)
  }

  /** The gradient Qα + p is exact on the first n positions. */
  ghost predicate GradOk(pr: Problem, s: State, n: int)
    requires pr.Valid() && Placed(pr, s)
  {
    Tracks(pr, s.act, pr.p, s.A, s.G, n)
  }

  /** G_bar is the gradient contribution of the variables at their upper bound, everywhere. */
  ghost predicate GBarOk(pr: Problem, s: State)
    requires pr.Valid() && Placed(pr, s)
  {
    Tracks(pr, s.act, Zeros(|pr.p|), pr.UpperPart(s.A), s.GBar, |s.act|)
  }

  function Zeros(n: nat): seq<real>
  {
    seq(n, _ => 0.0)
  }

  /** No inactive variable is free. */
  ghost predicate Settled(s: State)
  {
    forall k :: 0 <= s.active <= k < |s.status| ==> s.status[k] != Free
  }

  ghost predicate Inv(pr: Problem, s: State)
  {
    && pr.Valid()
    && Placed(pr, s)
    && pr.Feasible(s.A)
    && StatusOk(pr, s)
    && GradOk(pr, s, s.active)
    && GBarOk(pr, s)
    && Settled(s)
  }

  /** Two positions trade places in every array. */
  function Swapped(s: State, i: nat, j: nat): State
    requires |s.act| == |s.y| == |s.p| == |s.alpha| == |s.status| == |s.G| == |s.GBar|
    requires i < |s.act| && j < |s.act|
    requires 0 <= s.act[i] < |s.pos| && 0 <= s.act[j] < |s.pos|
  {
    s.(act := Swap(s.act, i, j), y := Swap(s.y, i, j), p := Swap(s.p, i, j), alpha := Swap(s.alpha, i, j),
       status := Swap(s.status, i, j), G := Swap(s.G, i, j), GBar := Swap(s.GBar, i, j),
       pos := s.pos[s.act[i] := j][s.act[j] := i])
  }

  lemma PermutationRange(act: seq<int>, inv: seq<int>, n: nat)
    requires Permutation(act, inv, n)
    ensures |act| == |inv| == n && forall k :: 0 <= k < n ==> 0 <= act[k] < n
  {
  }

  lemma PermutationSwapped(act: seq<int>, inv: seq<int>, n: nat, i: nat, j: nat)
    requires Permutation(act, inv, n) && i < n && j < n
    ensures 0 <= act[i] < |inv| && 0 <= act[j] < |inv| && Permutation(Swap(act, i, j), inv[act[i] := j][act[j] := i], n)
  {
  }

  lemma PlacedSwapped(pr: Problem, s: State, i: nat, j: nat)
    requires Placed(pr, s) && i < |s.act| && j < |s.act|
    ensures Placed(pr, Swapped(s, i, j))
  {
    hide Permutation;
    PermutationRange(s.act, s.pos, |pr.p|);
    PermutationSwapped(s.act, s.pos, |pr.p|, i, j);
  }

  lemma TracksSwapped(pr: Problem, act: seq<int>, off: seq<real>, v: seq<real>, g: seq<real>, n: int, i: nat, j: nat)
    requires pr.Valid() && |off| == |v| == |pr.p| && |g| == |act| && i < n <= |act| && j < n
    requires forall k :: 0 <= k < |act| ==> 0 <= act[k] < |pr.p|
    requires Tracks(pr, act, off, v, g, n)
    ensures Tracks(pr, Swap(act, i, j), off, v, Swap(g, i, j), n)
  {
  }

  /** swap_index is a pure relabelling: the invariant survives and nothing changes in the
      caller's order, as long as the pair lies inside the active prefix. */
  lemma SwapKeepsInv(pr: Problem, s: State, i: nat, j: nat)
    requires Inv(pr, s) && i < s.active && j < s.active
    ensures Inv(pr, Swapped(s, i, j))
  {
    PlacedSwapped(pr, s, i, j);
    TracksSwapped(pr, s.act, pr.p, s.A, s.G, s.active, i, j);
    TracksSwapped(pr, s.act, Zeros(|pr.p|), pr.UpperPart(s.A), s.GBar, |s.act|, i, j);
  }

  lemma SwapRelabels(pr: Problem, s: State, i: nat, j: nat, o: nat)
    requires Placed(pr, s) && i < |s.act| && j < |s.act| && o < |s.act|
    ensures var k, k' := s.pos[o], Swapped(s, i, j).pos[o];
      && s.alpha[k] == Swapped(s, i, j).alpha[k'] && s.G[k] == Swapped(s, i, j).G[k']
      && s.status[k] == Swapped(s, i, j).status[k'] && s.GBar[k] == Swapped(s, i, j).GBar[k']
  {
  }

  /** Shrinking the active prefix is harmless when only bounded variables drop out. */
  lemma ShrinkKeepsInv(pr: Problem, s: State, n: int)
    requires Inv(pr, s) && 0 <= n <= s.active
    requires forall k :: n <= k < s.active ==> s.status[k] != Free
    ensures Inv(pr, s.(active := n))
  {
  }

  /** Two coordinates of the caller's vector change; the others stay. */
  lemma DotTwoShifts(a: seq<real>, b: seq<real>, i: nat, j: nat, di: real, dj: real)
    requires |a| == |b| && i < |b| && j < |b| && i != j
    ensures Dot(a, b[i := b[i] + di][j := b[j] + dj]) == Dot(a, b) + a[i] * di + a[j] * dj
  {
    DotShift(a, b, i, di);
    DotShift(a, b[i := b[i] + di], j, dj);
  }

  /** Adding multiples of two rows keeps track of a two-coordinate change. */
  lemma TracksFollows(pr: Problem, act: seq<int>, off: seq<real>, v: seq<real>, was: seq<real>, now: seq<real>, n: int,
                      i: nat, j: nat, vi: real, vj: real)
    requires pr.Valid() && |off| == |v| == |pr.p| && |was| == |now| == |act| && i < |v| && j < |v| && i != j
    requires forall k :: 0 <= k < |act| ==> 0 <= act[k] < |pr.p|
    requires Tracks(pr, act, off, v, was, n)
    requires GradientMoved(pr, act, was, now, n, i, j, vi - v[i], vj - v[j])
    ensures Tracks(pr, act, off, v[i := vi][j := vj], now, n)
  {
    var di, dj := vi - v[i], vj - v[j];
    assert v[i := vi][j := vj] == v[i := v[i] + di][j := v[j] + dj];
    forall k | 0 <= k < n && k < |act|
      ensures now[k] == off[act[k]] + Dot(pr.K[act[k]], v[i := vi][j := vj])
    {
      var o := act[k];
      DotTwoShifts(pr.K[o], v, i, j, di, dj);
      assert pr.K[o][i] == pr.K[i][o] && pr.K[o][j] == pr.K[j][o];
    }
  }

  /** Adding c times row o keeps track of a change of coordinate o by c. */
  lemma TracksAddRow(pr: Problem, act: seq<int>, off: seq<real>, v: seq<real>, was: seq<real>, now: seq<real>, n: int,
                     o: nat, c: real)
    requires pr.Valid() && |off| == |v| == |pr.p| && |was| == |now| == |act| && o < |v|
    requires forall k :: 0 <= k < |act| ==> 0 <= act[k] < |pr.p|
    requires Tracks(pr, act, off, v, was, n)
    requires forall k :: 0 <= k < n && k < |act| ==> now[k] == was[k] + c * pr.K[o][act[k]]
    ensures Tracks(pr, act, off, v[o := v[o] + c], now, n)
  {
    forall k | 0 <= k < n && k < |act|
      ensures now[k] == off[act[k]] + Dot(pr.K[act[k]], v[o := v[o] + c])
    {
      DotShift(pr.K[act[k]], v, o, c);
      assert pr.K[act[k]][o] == pr.K[o][act[k]];
    }
  }

  lemma TracksNothing(pr: Problem, act: seq<int>, off: seq<real>, v: seq<real>, g: seq<real>)
    requires pr.Valid() && |off| == |v| == |pr.p| && |g| == |act|
    requires forall k :: 0 <= k < |act| ==> 0 <= act[k] < |pr.p|
    requires forall o :: 0 <= o < |v| ==> v[o] == 0.0
    requires forall k :: 0 <= k < |act| ==> g[k] == off[act[k]]
    ensures Tracks(pr, act, off, v, g, |act|)
  {
    forall k | 0 <= k < |act|
      ensures Dot(pr.K[act[k]], v) == 0.0
    {
      DotToZero(pr.K[act[k]], v, |v|);
    }
  }

  lemma SignTimes(y: int, t: real)
    requires y == 1 || y == -1
    ensures (y as real) * t == if y == 1 then t else -t
  {
  }

  lemma SteppedIs(pr: Problem, A: seq<real>, i: nat, j: nat, t: real)
    requires pr.Valid() && |A| == |pr.p| && i < |A| && j < |A|
    ensures pr.Stepped(A, i, j, t)
         == A[i := A[i] + (if pr.y[i] == 1 then t else -t)][j := A[j] - (if pr.y[j] == 1 then t else -t)]
  {
    SignTimes(pr.y[i], t);
    SignTimes(pr.y[j], t);
  }

  lemma PlacedPair(pr: Problem, s: State, i: nat, j: nat)
    requires Placed(pr, s) && i < |s.act| && j < |s.act| && i != j
    ensures s.act[i] != s.act[j]
    ensures s.alpha[i] == s.A[s.act[i]] && s.alpha[j] == s.A[s.act[j]]
    ensures s.y[i] == pr.y[s.act[i]] && s.y[j] == pr.y[s.act[j]]
  {
    assert s.pos[s.act[i]] == i && s.pos[s.act[j]] == j;
  }

  lemma PlacedWithG(pr: Problem, s: State, g: seq<real>)
    requires Placed(pr, s) && |g| == |s.act|
    ensures Placed(pr, s.(G := g))
  {
    assert |s.act| == |pr.p|;
    hide Permutation;
  }

  /** What a variable contributes to G_bar. */
  function UpperValue(a: real, c: real): real
  {
    if a >= c then c else 0.0
  }

  lemma UpperPartFollows(pr: Problem, A: seq<real>, i: nat, j: nat, ai: real, aj: real)
    requires |A| == |pr.y| && i < |A| && j < |A| && i != j
    ensures pr.UpperPart(A[i := ai][j := aj])
         == pr.UpperPart(A)[i := UpperValue(ai, pr.C(i))][j := UpperValue(aj, pr.C(j))]
  {
  }

  /** The state after two alphas have changed and all bookkeeping has caught up. */
  ghost predicate Moved(pr: Problem, s: State, s': State, i: nat, j: nat, ai: real, aj: real)
    requires pr.Valid() && Placed(pr, s) && i < |s.act| && j < |s.act|
  {
    var oi, oj := s.act[i], s.act[j];
    && s' == s.(A := s.A[oi := ai][oj := aj], alpha := s.alpha[i := ai][j := aj],
                status := s.status[i := StatusOf(ai, pr.C(oi))][j := StatusOf(aj, pr.C(oj))],
                G := s'.G, GBar := s'.GBar)
    && |s'.G| == |s'.GBar| == |s.act|
    && GradientMoved(pr, s.act, s.G, s'.G, s.active, oi, oj, ai - s.alpha[i], aj - s.alpha[j])
    && GradientMoved(pr, s.act, s.GBar, s'.GBar, |s.act|, oi, oj,
                     UpperValue(ai, pr.C(oi)) - UpperValue(s.alpha[i], pr.C(oi)),
                     UpperValue(aj, pr.C(oj)) - UpperValue(s.alpha[j], pr.C(oj)))
  }

  /** now is was plus di times row oi and dj times row oj of Q, on the first n positions. */
  ghost predicate GradientMoved(pr: Problem, act: seq<int>, was: seq<real>, now: seq<real>, n: int,
                                oi: int, oj: int, di: real, dj: real)
    requires pr.Valid() && |was| == |now| == |act|
    requires 0 <= oi < |pr.p| && 0 <= oj < |pr.p|
    requires forall k :: 0 <= k < |act| ==> 0 <= act[k] < |pr.p|
  {
    forall k :: 0 <= k < n && k < |act| ==>
      now[k] == was[k] + (pr.K[oi][act[k]] * di + pr.K[oj][act[k]] * dj)
  }

  /** What a move leaves alone, and how the two gradients follow it. */
  lemma MovedFacts(pr: Problem, s: State, s': State, i: nat, j: nat, ai: real, aj: real)
    requires Inv(pr, s) && i < s.active && j < s.active && Moved(pr, s, s', i, j, ai, aj)
    ensures pr.Valid() && Placed(pr, s) && |s.act| == |s.G| == |s.GBar| == |s'.G| == |s'.GBar|
    ensures |s.A| == |pr.p| == |s.act|
    ensures forall k :: 0 <= k < |s.act| ==> 0 <= s.act[k] < |pr.p|
    ensures s'.act == s.act && s'.active == s.active <= |s.act| && s'.A == s.A[s.act[i] := ai][s.act[j] := aj]
    ensures s.alpha[i] == s.A[s.act[i]] && s.alpha[j] == s.A[s.act[j]]
    ensures GradientMoved(pr, s.act, s.G, s'.G, s.active, s.act[i], s.act[j], ai - s.alpha[i], aj - s.alpha[j])
    ensures GradientMoved(pr, s.act, s.GBar, s'.GBar, |s.act|, s.act[i], s.act[j],
                          UpperValue(ai, pr.C(s.act[i])) - UpperValue(s.alpha[i], pr.C(s.act[i])),
                          UpperValue(aj, pr.C(s.act[j])) - UpperValue(s.alpha[j], pr.C(s.act[j])))
    ensures Tracks(pr, s.act, pr.p, s.A, s.G, s.active)
    ensures |pr.UpperPart(s.A)| == |pr.p| == |Zeros(|pr.p|)| == |pr.y|
    ensures Tracks(pr, s.act, Zeros(|pr.p|), pr.UpperPart(s.A), s.GBar, |s.act|)
  {
    hide GradientMoved, Tracks, StatusOk, Settled, StatusOf, UpperValue, Problem.Feasible, Problem.Valid;
  }

  /** The arrays of a moved state still fit together. */
  lemma MovedIsPlaced(pr: Problem, s: State, s': State, i: nat, j: nat, ai: real, aj: real)
    requires Inv(pr, s) && i < s.active && j < s.active && i != j && Moved(pr, s, s', i, j, ai, aj)
    ensures Placed(pr, s') && s.act[i] != s.act[j]
  {
    PlacedPair(pr, s, i, j);
    hide GradientMoved, GradOk, GBarOk, StatusOk, Settled, StatusOf, UpperValue, Problem.Feasible, Problem.Valid;
  }

  lemma UpperPartAt(pr: Problem, A: seq<real>, o: nat)
    requires |A| == |pr.y| && o < |A|
    ensures |pr.UpperPart(A)| == |A| && pr.UpperPart(A)[o] == UpperValue(A[o], pr.C(o))
  {
  }

  lemma MovedKeepsGradient(pr: Problem, s: State, s': State, i: nat, j: nat, ai: real, aj: real)
    requires Inv(pr, s) && i < s.active && j < s.active && s.act[i] != s.act[j]
    requires Moved(pr, s, s', i, j, ai, aj) && Placed(pr, s')
    ensures pr.Valid() && GradOk(pr, s', s'.active)
  {
    hide *;
    MovedFacts(pr, s, s', i, j, ai, aj);
    TracksFollows(pr, s.act, pr.p, s.A, s.G, s'.G, s.active, s.act[i], s.act[j], ai, aj);
    GradFromTracks(pr, s');
  }

  lemma GradFromTracks(pr: Problem, s: State)
    requires pr.Valid() && Placed(pr, s) && Tracks(pr, s.act, pr.p, s.A, s.G, s.active)
    ensures GradOk(pr, s, s.active)
  {
  }

  lemma GBarFromTracks(pr: Problem, s: State)
    requires pr.Valid() && Placed(pr, s) && Tracks(pr, s.act, Zeros(|pr.p|), pr.UpperPart(s.A), s.GBar, |s.act|)
    ensures GBarOk(pr, s)
  {
  }

  lemma MovedKeepsGBar(pr: Problem, s: State, s': State, i: nat, j: nat, ai: real, aj: real)
    requires Inv(pr, s) && i < s.active && j < s.active && s.act[i] != s.act[j]
    requires Moved(pr, s, s', i, j, ai, aj) && Placed(pr, s')
    ensures pr.Valid() && GBarOk(pr, s')
  {
    hide *;
    MovedFacts(pr, s, s', i, j, ai, aj);
    var oi, oj := s.act[i], s.act[j];
    UpperPartFollows(pr, s.A, oi, oj, ai, aj);
    UpperPartAt(pr, s.A, oi);
    UpperPartAt(pr, s.A, oj);
    TracksFollows(pr, s.act, Zeros(|pr.p|), pr.UpperPart(s.A), s.GBar, s'.GBar, |s.act|, oi, oj,
                  UpperValue(ai, pr.C(oi)), UpperValue(aj, pr.C(oj)));
    GBarFromTracks(pr, s');
  }

  /** The new values stay in the box and get their status; no inactive variable becomes free. */
  lemma MovedKeepsStatus(pr: Problem, s: State, s': State, i: nat, j: nat, ai: real, aj: real)
    requires Inv(pr, s) && i < s.active && j < s.active && i != j && Moved(pr, s, s', i, j, ai, aj) && Placed(pr, s')
    requires 0.0 <= ai <= pr.C(s.act[i]) && 0.0 <= aj <= pr.C(s.act[j])
    ensures pr.Feasible(s'.A) && StatusOk(pr, s') && Settled(s')
  {
    hide GradientMoved, GradOk, GBarOk, StatusOf, UpperValue;
  }

  lemma InvFromParts(pr: Problem, s: State)
    requires pr.Valid() && Placed(pr, s) && pr.Feasible(s.A) && StatusOk(pr, s) && GradOk(pr, s, s.active)
    requires GBarOk(pr, s) && Settled(s)
    ensures Inv(pr, s)
  {
  }

  /** The gradient bookkeeping survives any feasible move of two active variables. */
  lemma MovedKeepsInv(pr: Problem, s: State, s': State, i: nat, j: nat, ai: real, aj: real)
    requires Inv(pr, s) && i < s.active && j < s.active && i != j
    requires Moved(pr, s, s', i, j, ai, aj)
    requires 0.0 <= ai <= pr.C(s.act[i]) && 0.0 <= aj <= pr.C(s.act[j])
    ensures Inv(pr, s')
  {
    hide *;
    MovedIsPlaced(pr, s, s', i, j, ai, aj);
    MovedKeepsGradient(pr, s, s', i, j, ai, aj);
    MovedKeepsGBar(pr, s, s', i, j, ai, aj);
    MovedKeepsStatus(pr, s, s', i, j, ai, aj);
    InvFromParts(pr, s');
  }
}
