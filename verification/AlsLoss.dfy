/** The regularised squared error of a factorization machine, as a function of one parameter at a time. */
module AlsLoss {
  import opened Vectors
  import opened LeastSquares
  import opened FactorizationMachine

  /** Training rows with targets and the three regularisers. */
  datatype Task = Task(X: seq<Row>, Y: seq<real>, regW0: real, regW: real, regV: real) {
    ghost predicate Valid(size: nat)
    {
      && |X| == |Y| && (forall i :: 0 <= i < |X| ==> Within(X[i], size) && NoRepeats(X[i]))
      && regW0 > 0.0 && regW > 0.0 && regV > 0.0
    }

    /** Prediction minus target, row by row. */
    ghost function Residuals(m: Machine): (e: seq<real>)
      requires Valid(|m.w|) && m.Shaped()
      ensures |e| == |X|
    {
      seq(|X|, i requires 0 <= i < |X| => m.Prediction(X[i]) - Y[i])
    }

    /** The regularisation of all parameters. */
    ghost function Penalty(m: Machine): real
    {
      Ridge(regW0, m.w0) + regW * Dot(m.w, m.w) + regV * Norms(m.v, |m.v|)
    }

    /** Squared error plus regularisation. */
    ghost function Loss(m: Machine): real
      requires Valid(|m.w|) && m.Shaped()
    {
      Dot(Residuals(m), Residuals(m)) + Penalty(m)
    }

    /** The rows' values of a factor: Σ v x. */
    ghost function FactorSums(c: seq<real>): (q: seq<real>)
      requires forall i :: 0 <= i < |X| ==> Within(X[i], |c|)
      ensures |q| == |X|
    {
      seq(|X|, i requires 0 <= i < |X| => Weighted(c, X[i], |X[i]|))
    }

    // ---- the directions in which the residuals move ----

    ghost function Ones(): (h: seq<real>)
      ensures |h| == |X|
    {
      seq(|X|, _ => 1.0)
    }

    ghost function Coefs(p: nat): (h: seq<real>)
      ensures |h| == |X|
    {
      seq(|X|, i requires 0 <= i < |X| => Coef(X[i], p, |X[i]|))
    }

    ghost function Slopes(c: seq<real>, p: nat): (h: seq<real>)
      requires (forall i :: 0 <= i < |X| ==> Within(X[i], |c|)) && p < |c|
      ensures |h| == |X|
    {
      seq(|X|, i requires 0 <= i < |X| => Slope(c, X[i], p))
    }
  }

  ghost function Norms(v: seq<seq<real>>, n: nat): real
    requires n <= |v|
  {
    if n == 0 then 0.0 else Norms(v, n - 1) + Dot(v[n - 1], v[n - 1])
  }

  lemma {:induction false} NormsShift(v: seq<seq<real>>, k: nat, c: seq<real>, n: nat)
    requires n <= |v| && k < |v|
    ensures Norms(v[k := c], n) == Norms(v, n) + if k < n then Dot(c, c) - Dot(v[k], v[k]) else 0.0
  {
    if n > 0 {
      NormsShift(v, k, c, n - 1);
    }
  }

  lemma SquareShift(c: seq<real>, p: nat, t: real)
    requires p < |c|
    ensures Dot(c[p := t], c[p := t]) == Dot(c, c) + t * t - c[p] * c[p]
  {
    DotUpdate(c, c, p, t);
    DotUpdate(c[p := t], c, p, t);
    DotComm(c[p := t], c);
  }

  // ---- changing one parameter ----

  function SetW0(m: Machine, t: real): Machine
  {
    m.(w0 := t)
  }

  function SetW(m: Machine, p: nat, t: real): Machine
    requires p < |m.w|
  {
    m.(w := m.w[p := t])
  }

  function SetV(m: Machine, k: nat, p: nat, t: real): Machine
    requires k < |m.v| && p < |m.v[k]|
  {
    m.(v := m.v[k := m.v[k][p := t]])
  }

  lemma {:induction false} SameFactors(a: Machine, b: Machine, row: Row, n: nat)
    requires a.Shaped() && b.Shaped() && a.v == b.v && |a.w| == |b.w| && Within(row, |a.w|) && n <= |a.v|
    ensures a.Factors(row, n) == b.Factors(row, n)
  {
    if n > 0 {
      SameFactors(a, b, row, n - 1);
    }
  }

  lemma ResidualsW0(task: Task, m: Machine, t: real)
    requires task.Valid(|m.w|) && m.Shaped()
    ensures SetW0(m, t).Shaped() && task.Residuals(SetW0(m, t)) == Along(task.Residuals(m), task.Ones(), t - m.w0)
  {
    var b := SetW0(m, t);
    assert b.Shaped();
    forall i | 0 <= i < |task.X|
      ensures b.Prediction(task.X[i]) == m.Prediction(task.X[i]) + (t - m.w0)
    {
      SameFactors(m, b, task.X[i], |m.v|);
    }
  }

  lemma ResidualsW(task: Task, m: Machine, p: nat, t: real)
    requires task.Valid(|m.w|) && m.Shaped() && p < |m.w|
    ensures SetW(m, p, t).Shaped()
    ensures task.Residuals(SetW(m, p, t)) == Along(task.Residuals(m), task.Coefs(p), t - m.w[p])
  {
    var b := SetW(m, p, t);
    assert b.Shaped();
    forall i | 0 <= i < |task.X|
      ensures task.Residuals(b)[i] == Along(task.Residuals(m), task.Coefs(p), t - m.w[p])[i]
    {
      SameFactors(m, b, task.X[i], |m.v|);
      WeightedShift(m.w, task.X[i], p, t, |task.X[i]|);
      assert task.Coefs(p)[i] == Coef(task.X[i], p, |task.X[i]|);
    }
  }

  lemma ResidualsV(task: Task, m: Machine, k: nat, p: nat, t: real)
    requires task.Valid(|m.w|) && m.Shaped() && k < |m.v| && p < |m.w|
    ensures SetV(m, k, p, t).Shaped()
    ensures task.Residuals(SetV(m, k, p, t)) == Along(task.Residuals(m), task.Slopes(m.v[k], p), t - m.v[k][p])
  {
    var b := SetV(m, k, p, t);
    assert b.Shaped();
    forall i | 0 <= i < |task.X|
      ensures task.Residuals(b)[i] == Along(task.Residuals(m), task.Slopes(m.v[k], p), t - m.v[k][p])[i]
    {
      FactorsShift(m, b, task.X[i], k, p, t, |m.v|);
      assert task.Slopes(m.v[k], p)[i] == Slope(m.v[k], task.X[i], p);
    }
  }

  lemma FactorSumsV(task: Task, c: seq<real>, p: nat, t: real)
    requires (forall i :: 0 <= i < |task.X| ==> Within(task.X[i], |c|)) && p < |c|
    ensures task.FactorSums(c[p := t]) == Along(task.FactorSums(c), task.Coefs(p), t - c[p])
  {
    var sums := task.FactorSums(c[p := t]);
    forall i | 0 <= i < |task.X|
      ensures sums[i] == Along(task.FactorSums(c), task.Coefs(p), t - c[p])[i]
    {
      WeightedShift(c, task.X[i], p, t, |task.X[i]|);
      assert task.Coefs(p)[i] == Coef(task.X[i], p, |task.X[i]|);
    }
  }

  // ---- the loss along one parameter ----

  /** The residuals with the parameter's own contribution taken out. */
  ghost function Without(e: seq<real>, h: seq<real>, old': real): (a: seq<real>)
    requires |e| == |h|
    ensures |a| == |e|
  {
    Along(e, h, -old')
  }

  lemma WithoutThenWith(e: seq<real>, h: seq<real>, was: real, t: real)
    requires |e| == |h|
    ensures Along(e, h, t - was) == Along(Without(e, h, was), h, t)
  {
    AlongFrom(e, h, -was, t);
    assert -was + t == t - was;
  }

  /** A change that moves the residuals along h and leaves `rest` of the penalty. */
  lemma LossAlong(task: Task, m: Machine, b: Machine, h: seq<real>, was: real, t: real, reg: real, rest: real)
    requires task.Valid(|m.w|) && m.Shaped() && task.Valid(|b.w|) && b.Shaped() && |h| == |task.X|
    requires task.Residuals(b) == Along(task.Residuals(m), h, t - was)
    requires task.Penalty(b) == Ridge(reg, t) + rest
    ensures task.Loss(b) == Fit(Without(task.Residuals(m), h, was), h, reg, t) + rest
  {
    hide Task.Residuals, Task.Penalty, Task.Valid, Machine.Shaped, Without, Along, Ridge, Dot;
    WithoutThenWith(task.Residuals(m), h, was, t);
  }

  lemma LossAtW0(task: Task, m: Machine, t: real)
    requires task.Valid(|m.w|) && m.Shaped()
    ensures SetW0(m, t).Shaped()
    ensures task.Loss(SetW0(m, t)) == Fit(Without(task.Residuals(m), task.Ones(), m.w0), task.Ones(), task.regW0, t)
            + (task.regW * Dot(m.w, m.w) + task.regV * Norms(m.v, |m.v|))
  {
    hide Task.Residuals, Task.Valid, Task.Loss, Without, Along, Ridge, Dot, Norms, Fit;
    ResidualsW0(task, m, t);
    LossAlong(task, m, SetW0(m, t), task.Ones(), m.w0, t, task.regW0,
              task.regW * Dot(m.w, m.w) + task.regV * Norms(m.v, |m.v|));
  }

  /** What the loss has besides the fit of weight p. */
  ghost function RestW(task: Task, m: Machine, p: nat): real
    requires p < |m.w|
  {
    Ridge(task.regW0, m.w0) + task.regW * (Dot(m.w, m.w) - m.w[p] * m.w[p]) + task.regV * Norms(m.v, |m.v|)
  }

  lemma PenaltyW(task: Task, m: Machine, p: nat, t: real)
    requires p < |m.w|
    ensures task.Penalty(SetW(m, p, t)) == Ridge(task.regW, t) + RestW(task, m, p)
  {
    SquareShift(m.w, p, t);
    RegularisedSum(task.regW, Dot(m.w, m.w), t, m.w[p], Dot(SetW(m, p, t).w, SetW(m, p, t).w));
    hide Ridge, Dot, Norms;
  }

  lemma LossAtW(task: Task, m: Machine, p: nat, t: real)
    requires task.Valid(|m.w|) && m.Shaped() && p < |m.w|
    ensures SetW(m, p, t).Shaped() && task.Loss(SetW(m, p, t))
            == Fit(Without(task.Residuals(m), task.Coefs(p), m.w[p]), task.Coefs(p), task.regW, t) + RestW(task, m, p)
  {
    hide Task.Residuals, Task.Valid, Task.Loss, Task.Coefs, Task.Penalty, Without, Along, Ridge, Dot, Norms, Fit, RestW;
    ResidualsW(task, m, p, t);
    PenaltyW(task, m, p, t);
    LossAlong(task, m, SetW(m, p, t), task.Coefs(p), m.w[p], t, task.regW, RestW(task, m, p));
  }

  lemma RegularisedSum(reg: real, d: real, t: real, was: real, d': real)
    requires d' == d + t * t - was * was
    ensures reg * d' == Ridge(reg, t) + reg * (d - was * was)
  {
    assert reg * d' == reg * (d - was * was) + reg * (t * t);
  }

  /** What the loss has besides the fit of factor value k, p. */
  ghost function RestV(task: Task, m: Machine, k: nat, p: nat): real
    requires k < |m.v| && p < |m.v[k]|
  {
    Ridge(task.regW0, m.w0) + task.regW * Dot(m.w, m.w) + task.regV * (Norms(m.v, |m.v|) - m.v[k][p] * m.v[k][p])
  }

  lemma PenaltyV(task: Task, m: Machine, k: nat, p: nat, t: real)
    requires k < |m.v| && p < |m.v[k]|
    ensures task.Penalty(SetV(m, k, p, t)) == Ridge(task.regV, t) + RestV(task, m, k, p)
  {
    var b := SetV(m, k, p, t);
    SquareShift(m.v[k], p, t);
    NormsShift(m.v, k, m.v[k][p := t], |m.v|);
    RegularisedSum(task.regV, Norms(m.v, |m.v|), t, m.v[k][p], Norms(b.v, |b.v|));
    hide Ridge, Dot, Norms;
  }

  lemma LossAtV(task: Task, m: Machine, k: nat, p: nat, t: real)
    requires task.Valid(|m.w|) && m.Shaped() && k < |m.v| && p < |m.w|
    ensures SetV(m, k, p, t).Shaped() && task.Loss(SetV(m, k, p, t))
            == Fit(Without(task.Residuals(m), task.Slopes(m.v[k], p), m.v[k][p]), task.Slopes(m.v[k], p), task.regV, t)
               + RestV(task, m, k, p)
  {
    hide Task.Residuals, Task.Loss, Task.Slopes, Task.Penalty, Without, Along, Ridge, Dot, Norms, Fit, RestV;
    ResidualsV(task, m, k, p, t);
    PenaltyV(task, m, k, p, t);
    LossAlong(task, m, SetV(m, k, p, t), task.Slopes(m.v[k], p), m.v[k][p], t, task.regV, RestV(task, m, k, p));
  }

  // ---- the closed forms are the minimisers ----

  lemma PositiveWeight(h: seq<real>, reg: real)
    requires reg > 0.0
    ensures Dot(h, h) + reg > 0.0
  {
    SquaresNonNegative(h, |h|);
  }

  ghost predicate BestW0(task: Task, m: Machine, best: real)
    requires task.Valid(|m.w|) && m.Shaped()
  {
    forall t: real :: SetW0(m, t).Shaped() && SetW0(m, best).Shaped()
                      && task.Loss(SetW0(m, best)) <= task.Loss(SetW0(m, t))
  }

  ghost predicate BestW(task: Task, m: Machine, p: nat, best: real)
    requires task.Valid(|m.w|) && m.Shaped() && p < |m.w|
  {
    forall t: real :: SetW(m, p, t).Shaped() && SetW(m, p, best).Shaped()
                      && task.Loss(SetW(m, p, best)) <= task.Loss(SetW(m, p, t))
  }

  ghost predicate BestV(task: Task, m: Machine, k: nat, p: nat, best: real)
    requires task.Valid(|m.w|) && m.Shaped() && k < |m.v| && p < |m.w|
  {
    forall t: real :: SetV(m, k, p, t).Shaped() && SetV(m, k, p, best).Shaped()
                      && task.Loss(SetV(m, k, p, best)) <= task.Loss(SetV(m, k, p, t))
  }

  lemma W0Minimises(task: Task, m: Machine, best: real)
    requires task.Valid(|m.w|) && m.Shaped() && Dot(task.Ones(), task.Ones()) + task.regW0 > 0.0
    requires best == Best(Without(task.Residuals(m), task.Ones(), m.w0), task.Ones(), task.regW0)
    ensures BestW0(task, m, best)
  {
    LossAtW0(task, m, best);
    forall t: real
      ensures SetW0(m, t).Shaped() && task.Loss(SetW0(m, best)) <= task.Loss(SetW0(m, t))
    {
      LossAtW0(task, m, t);
      BestFit(Without(task.Residuals(m), task.Ones(), m.w0), task.Ones(), task.regW0, t);
    }
    hide Task.Loss, Task.Valid, Fit, Best, Without, Dot;
  }

  lemma WMinimises(task: Task, m: Machine, p: nat, best: real)
    requires task.Valid(|m.w|) && m.Shaped() && p < |m.w| && Dot(task.Coefs(p), task.Coefs(p)) + task.regW > 0.0
    requires best == Best(Without(task.Residuals(m), task.Coefs(p), m.w[p]), task.Coefs(p), task.regW)
    ensures BestW(task, m, p, best)
  {
    LossAtW(task, m, p, best);
    forall t: real
      ensures SetW(m, p, t).Shaped() && task.Loss(SetW(m, p, best)) <= task.Loss(SetW(m, p, t))
    {
      LossAtW(task, m, p, t);
      BestFit(Without(task.Residuals(m), task.Coefs(p), m.w[p]), task.Coefs(p), task.regW, t);
    }
    hide Task.Loss, Task.Valid, Fit, Best, Without, Dot, RestW;
  }

  lemma VMinimises(task: Task, m: Machine, k: nat, p: nat, best: real)
    requires task.Valid(|m.w|) && m.Shaped() && k < |m.v| && p < |m.w|
    requires Dot(task.Slopes(m.v[k], p), task.Slopes(m.v[k], p)) + task.regV > 0.0
    requires best == Best(Without(task.Residuals(m), task.Slopes(m.v[k], p), m.v[k][p]), task.Slopes(m.v[k], p),
                          task.regV)
    ensures BestV(task, m, k, p, best)
  {
    LossAtV(task, m, k, p, best);
    forall t: real
      ensures SetV(m, k, p, t).Shaped() && task.Loss(SetV(m, k, p, best)) <= task.Loss(SetV(m, k, p, t))
    {
      LossAtV(task, m, k, p, t);
      BestFit(Without(task.Residuals(m), task.Slopes(m.v[k], p), m.v[k][p]), task.Slopes(m.v[k], p), task.regV, t);
    }
    hide Task.Loss, Task.Valid, Fit, Best, Without, Dot, RestV;
  }

  /** A minimiser is no worse than the value it replaces. */
  lemma BestDescends(task: Task, m: Machine, k: nat, p: nat, best: real)
    requires task.Valid(|m.w|) && m.Shaped()
    ensures BestW0(task, m, best) ==> SetW0(m, best).Shaped() && task.Loss(SetW0(m, best)) <= task.Loss(m)
    ensures p < |m.w| && BestW(task, m, p, best)
            ==> SetW(m, p, best).Shaped() && task.Loss(SetW(m, p, best)) <= task.Loss(m)
    ensures k < |m.v| && p < |m.w| && BestV(task, m, k, p, best)
            ==> SetV(m, k, p, best).Shaped() && task.Loss(SetV(m, k, p, best)) <= task.Loss(m)
  {
    assert SetW0(m, m.w0) == m;
    assert p < |m.w| ==> SetW(m, p, m.w[p]) == m;
    assert k < |m.v| && p < |m.w| ==> m.v[k][p := m.v[k][p]] == m.v[k] && SetV(m, k, p, m.v[k][p]) == m;
    hide Task.Loss, Task.Valid;
  }
}
