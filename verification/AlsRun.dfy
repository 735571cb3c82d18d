/** Runs of coordinate updates: which parameter is set to its minimiser when. */
module AlsRun {
  import opened FactorizationMachine
  import opened AlsLoss

  /** A parameter of the machine. */
  datatype Slot = Bias | Weight(p: nat) | Factor(k: nat, p: nat)

  /** m' is m with one parameter at its minimiser. */
  ghost predicate Drawn(task: Task, m: Machine, m': Machine, slot: Slot)
  {
    && task.Valid(|m.w|) && m.Shaped() && |m'.w| == |m.w| && |m'.v| == |m.v|
    && match slot
       case Bias => m' == SetW0(m, m'.w0) && BestW0(task, m, m'.w0)
       case Weight(p) => p < |m.w| && m' == SetW(m, p, m'.w[p]) && BestW(task, m, p, m'.w[p])
       case Factor(k, p) =>
         k < |m.v| && p < |m.w| && p < |m'.v[k]| && m' == SetV(m, k, p, m'.v[k][p]) && BestV(task, m, k, p, m'.v[k][p])
  }

  lemma DrawnDescends(task: Task, m: Machine, m': Machine, slot: Slot)
    requires Drawn(task, m, m', slot)
    ensures task.Valid(|m.w|) && m.Shaped() && task.Valid(|m'.w|) && m'.Shaped() && task.Loss(m') <= task.Loss(m)
  {
    hide BestW0, BestW, BestV, Task.Loss;
    match slot
    case Bias => BestDescends(task, m, 0, 0, m'.w0);
    case Weight(p) => BestDescends(task, m, 0, p, m'.w[p]);
    case Factor(k, p) => BestDescends(task, m, k, p, m'.v[k][p]);
  }

  /** The machines ms arise one from the other by setting the listed parameters in turn. */
  ghost predicate Run(task: Task, ms: seq<Machine>, slots: seq<Slot>)
  {
    |ms| == |slots| + 1 && forall i :: 0 <= i < |slots| ==> Drawn(task, ms[i], ms[i + 1], slots[i])
  }

  /** A run from m to m'. */
  ghost predicate Leads(task: Task, m: Machine, m': Machine, ms: seq<Machine>, slots: seq<Slot>)
  {
    Run(task, ms, slots) && ms[0] == m && ms[|slots|] == m'
  }

  lemma LeadsNowhere(task: Task, m: Machine)
    ensures Leads(task, m, m, [m], [])
  {
  }

  lemma LeadsOn(task: Task, m: Machine, m': Machine, next: Machine, ms: seq<Machine>, slots: seq<Slot>, slot: Slot)
    requires Leads(task, m, m', ms, slots) && Drawn(task, m', next, slot)
    ensures Leads(task, m, next, ms + [next], slots + [slot])
  {
    hide Drawn;
  }

  lemma LeadsJoin(task: Task, m: Machine, m': Machine, next: Machine, ms: seq<Machine>, slots: seq<Slot>,
                  more: seq<Machine>, rest: seq<Slot>)
    requires Leads(task, m, m', ms, slots) && Leads(task, m', next, more, rest)
    ensures |more| >= 1 && Leads(task, m, next, ms + more[1..], slots + rest)
  {
    hide Drawn;
    var all, list := ms + more[1..], slots + rest;
    forall i | 0 <= i < |list|
      ensures Drawn(task, all[i], all[i + 1], list[i])
    {
      if i >= |slots| {
        assert all[i] == more[i - |slots|] && all[i + 1] == more[i + 1 - |slots|];
      }
    }
  }

  /** The loss never rises along a run. */
  lemma {:induction false} RunDescends(task: Task, ms: seq<Machine>, slots: seq<Slot>, n: nat)
    requires Run(task, ms, slots) && n <= |slots| && task.Valid(|ms[0].w|) && ms[0].Shaped()
    ensures task.Valid(|ms[n].w|) && ms[n].Shaped() && task.Loss(ms[n]) <= task.Loss(ms[0])
  {
    hide Drawn, Task.Loss;
    if n > 0 {
      RunDescends(task, ms, slots, n - 1);
      DrawnDescends(task, ms[n - 1], ms[n], slots[n - 1]);
    }
  }

  lemma LeadsDescends(task: Task, m: Machine, m': Machine, ms: seq<Machine>, slots: seq<Slot>)
    requires Leads(task, m, m', ms, slots) && task.Valid(|m.w|) && m.Shaped()
    ensures task.Valid(|m'.w|) && m'.Shaped() && task.Loss(m') <= task.Loss(m)
  {
    hide Task.Loss, Drawn;
    RunDescends(task, ms, slots, |slots|);
  }

  // ---- the order of the updates ----

  function Weights(n: nat): seq<Slot>
  {
    if n == 0 then [] else Weights(n - 1) + [Weight(n - 1)]
  }

  function FactorValues(k: nat, n: nat): seq<Slot>
  {
    if n == 0 then [] else FactorValues(k, n - 1) + [Factor(k, n - 1)]
  }

  function Factors(m: nat, n: nat): seq<Slot>
  {
    if m == 0 then [] else Factors(m - 1, n) + FactorValues(m - 1, n)
  }

  lemma NoFactors(n: nat)
    ensures Factors(0, n) == []
  {
  }

  lemma FactorsNext(m: nat, n: nat)
    ensures Factors(m + 1, n) == Factors(m, n) + FactorValues(m, n)
  {
  }

  /** One round of learn: the bias, the weights, then factor by factor. */
  function Round(n: nat, m: nat): seq<Slot>
  {
    [Bias] + Weights(n) + Factors(m, n)
  }

  function Rounds(n: nat, m: nat, rounds: nat): seq<Slot>
  {
    if rounds == 0 then [] else Rounds(n, m, rounds - 1) + Round(n, m)
  }
}
