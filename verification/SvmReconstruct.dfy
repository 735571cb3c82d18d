/** Why both ways of reconstructing the inactive part of the gradient give Qα + p. */
module SvmReconstruct {
  import opened Vectors
  import opened SvmProblem
  import opened SvmState

  /** The upper-bound part of α completed with the free variables at positions below n. */
  ghost function Filled(pr: Problem, s: State, n: nat): (v: seq<real>)
    requires Placed(pr, s)
    ensures |v| == |s.A|
  {
    seq(|s.A|, o requires 0 <= o < |s.A| =>
      if s.status[s.pos[o]] == Free && s.pos[o] < n then s.A[o] else pr.UpperPart(s.A)[o])
  }

  lemma FilledNext(pr: Problem, s: State, n: nat)
    requires Placed(pr, s) && StatusOk(pr, s) && n < |s.act|
    ensures s.status[n] == Free
            ==> Filled(pr, s, n + 1) == Filled(pr, s, n)[s.act[n] := Filled(pr, s, n)[s.act[n]] + s.alpha[n]]
    ensures s.status[n] != Free ==> Filled(pr, s, n + 1) == Filled(pr, s, n)
  {
    var v, w := Filled(pr, s, n), Filled(pr, s, n + 1);
    forall o | 0 <= o < |s.A| && o != s.act[n]
      ensures w[o] == v[o]
    {
      assert s.pos[o] != n;
    }
    assert s.pos[s.act[n]] == n;
    if s.status[n] == Free {
      assert s.alpha[n] < pr.C(s.act[n]);
    }
  }

  /** A settled state is completed by its active free variables. */
  lemma FilledAll(pr: Problem, s: State)
    requires Inv(pr, s)
    ensures Filled(pr, s, 0) == pr.UpperPart(s.A)
    ensures Filled(pr, s, s.active) == s.A
  {
    forall o | 0 <= o < |s.A|
      ensures Filled(pr, s, s.active)[o] == s.A[o]
    {
      var k := s.pos[o];
      assert s.act[k] == o && s.status[k] == StatusOf(s.alpha[k], pr.C(o));
    }
  }

  /** g holds p + K·v on the positions from lo on. */
  ghost predicate TailTracks(pr: Problem, act: seq<int>, v: seq<real>, g: seq<real>, lo: int)
    requires pr.Valid() && |v| == |pr.p| && |g| == |act|
    requires forall k :: 0 <= k < |act| ==> 0 <= act[k] < |pr.p|
  {
    forall k :: 0 <= lo <= k < |act| ==> g[k] == pr.p[act[k]] + Dot(pr.K[act[k]], v)
  }

  /** Adding c times row o to the tail keeps track of a change of coordinate o by c. */
  lemma TailAddRow(pr: Problem, act: seq<int>, v: seq<real>, was: seq<real>, now: seq<real>, lo: int, o: nat, c: real)
    requires pr.Valid() && |v| == |pr.p| && |was| == |now| == |act| && o < |v| && 0 <= lo
    requires forall k :: 0 <= k < |act| ==> 0 <= act[k] < |pr.p|
    requires TailTracks(pr, act, v, was, lo)
    requires forall k :: lo <= k < |act| ==> now[k] == was[k] + c * pr.K[o][act[k]]
    ensures TailTracks(pr, act, v[o := v[o] + c], now, lo)
  {
    forall k | lo <= k < |act|
      ensures now[k] == pr.p[act[k]] + Dot(pr.K[act[k]], v[o := v[o] + c])
    {
      DotShift(pr.K[act[k]], v, o, c);
      assert pr.K[act[k]][o] == pr.K[o][act[k]];
    }
  }

  /** The active gradient is that of s; the tail is complete below i and upper-bound part only above. */
  ghost predicate MixedTail(pr: Problem, s: State, g: seq<real>, i: int)
    requires Inv(pr, s) && |g| == |s.act|
  {
    && (forall k :: 0 <= k < s.active ==> g[k] == s.G[k])
    && (forall k :: s.active <= k < |s.act| ==>
          g[k] == pr.p[s.act[k]] + Dot(pr.K[s.act[k]], Filled(pr, s, if k < i then s.active else 0)))
  }

  lemma MixedAt(pr: Problem, s: State, g: seq<real>, i: nat)
    requires Inv(pr, s) && |g| == |s.act| && MixedTail(pr, s, g, i) && s.active <= i < |s.act|
    ensures pr.Valid() && Placed(pr, s) && 0 <= s.act[i] < |pr.p| == |pr.K| && |pr.K[s.act[i]]| == |Filled(pr, s, 0)|
    ensures g[i] == pr.p[s.act[i]] + Dot(pr.K[s.act[i]], Filled(pr, s, 0))
  {
    hide Filled, Dot, StatusOk, GradOk, GBarOk;
  }

  /** Position i has been completed. */
  lemma MixedNext(pr: Problem, s: State, was: seq<real>, now: seq<real>, i: nat)
    requires Inv(pr, s) && |was| == |now| == |s.act| && MixedTail(pr, s, was, i) && s.active <= i < |s.act|
    requires 0 <= s.active
    requires 0 <= s.act[i] < |pr.p| == |pr.K| && |pr.K[s.act[i]]| == |Filled(pr, s, s.active)|
    requires now == was[i := pr.p[s.act[i]] + Dot(pr.K[s.act[i]], Filled(pr, s, s.active))]
    ensures MixedTail(pr, s, now, i + 1)
  {
    hide Filled, Dot, StatusOk, GradOk, GBarOk;
    forall k | s.active <= k < |s.act|
      ensures now[k] == pr.p[s.act[k]] + Dot(pr.K[s.act[k]], Filled(pr, s, if k < i + 1 then s.active else 0))
    {
      assert k != i ==> now[k] == was[k];
    }
  }

  /** What one more active position contributes to the sum of row o. */
  lemma FillStep(pr: Problem, s: State, o: nat, n: nat)
    requires pr.Valid() && Placed(pr, s) && StatusOk(pr, s) && n < |s.act| && o < |pr.p|
    ensures Dot(pr.K[o], Filled(pr, s, n + 1))
         == Dot(pr.K[o], Filled(pr, s, n)) + (if s.status[n] == Free then s.alpha[n] * pr.K[o][s.act[n]] else 0.0)
  {
    FilledNext(pr, s, n);
    DotShift(pr.K[o], Filled(pr, s, n), s.act[n], s.alpha[n]);
  }

  /** The gradient is exact on the active prefix and on the tail, hence everywhere. */
  lemma Reconstructed(pr: Problem, s: State, g: seq<real>)
    requires Inv(pr, s) && |g| == |s.act|
    requires forall k :: 0 <= k < s.active ==> g[k] == s.G[k]
    requires TailTracks(pr, s.act, s.A, g, s.active)
    ensures Inv(pr, s.(G := g, active := |s.act|))
  {
  }
}
