/** Alternating least squares: every draw sets one parameter to the exact minimiser and keeps the
    residuals and factor sums equal to a full recomputation. */
module Als {
  import opened Vectors
  import opened LeastSquares
  import opened FactorizationMachine
  import opened SparseData
  import opened AlsLoss
  import opened AlsRun

  class FmModel {
    var w0: real
    var w: seq<real>
    var v: seq<seq<real>>

    constructor (w0: real, w: seq<real>, v: seq<seq<real>>)
      ensures Value() == Machine(w0, w, v)
    {
      this.w0, this.w, this.v := w0, w, v;
    }

    function Value(): Machine
      reads this
    {
      Machine(w0, w, v)
    }

    /** The prediction in linear time, with the caller's buffers for the sums of every factor. */
    method Predict(row: Row, sum: array<real>, sumSqr: array<real>) returns (result: real)
      requires Value().Shaped() && Within(row, |w|) && sum != sumSqr && sum.Length == sumSqr.Length == |v|
      modifies sum, sumSqr
      ensures result == Value().Prediction(row)
    {
      hide Weighted, Squares, Term, Times, Interaction, Machine.Factors, Machine.Prediction, HalfGap;
      Empty(Value(), w, row);
      PredictionIs(Value(), row);
      result := 0.0;
      result := result + w0;
      for i := 0 to |row|
        invariant result == w0 + Weighted(w, row, i)
      {
        WeightedNext(w, row, i);
        result := result + w[row[i].index] * row[i].value;
      }
      for i := 0 to |v|
        invariant result == w0 + Weighted(w, row, |row|) + Value().Factors(row, i)
      {
        sum[i] := 0.0;
        sumSqr[i] := 0.0;
        Empty(Value(), v[i], row);
        for j := 0 to |row|
          invariant sum[i] == Weighted(v[i], row, j) && sumSqr[i] == Squares(v[i], row, j)
        {
          WeightedNext(v[i], row, j);
          var d := v[i][row[j].index] * row[j].value;
          sum[i] := sum[i] + d;
          sumSqr[i] := sumSqr[i] + d * d;
        }
        InteractionNext(Value(), row, i, sum[i], sumSqr[i]);
        result := result + 0.5 * (sum[i] * sum[i] - sumSqr[i]);
      }
    }
  }

  lemma Empty(m: Machine, c: seq<real>, row: Row)
    requires m.Shaped() && Within(row, |m.w|) && |c| == |m.w|
    ensures Weighted(c, row, 0) == 0.0 && Squares(c, row, 0) == 0.0 && m.Factors(row, 0) == 0.0
  {
  }

  lemma WeightedNext(c: seq<real>, row: Row, j: nat)
    requires j < |row| && Within(row, |c|)
    ensures var d := c[row[j].index] * row[j].value;
      && Weighted(c, row, j + 1) == Weighted(c, row, j) + d
      && Squares(c, row, j + 1) == Squares(c, row, j) + d * d
  {
  }

  lemma InteractionNext(m: Machine, row: Row, i: nat, s: real, q: real)
    requires m.Shaped() && Within(row, |m.w|) && i < |m.v|
    requires s == Weighted(m.v[i], row, |row|) && q == Squares(m.v[i], row, |row|)
    ensures m.Factors(row, i + 1) == m.Factors(row, i) + 0.5 * (s * s - q)
  {
  }

  lemma PredictionIs(m: Machine, row: Row)
    requires m.Shaped() && Within(row, |m.w|)
    ensures m.Prediction(row) == m.w0 + Weighted(m.w, row, |row|) + m.Factors(row, |m.v|)
  {
  }

  // ---- sums over a column as sums over all rows ----

  /** Σ a_r h_r over the rows of the first c column entries. */
  ghost function ColumnDot(col: Row, a: seq<real>, h: seq<real>, c: nat): real
    requires |a| == |h| && c <= |col| && Within(col, |a|)
  {
    if c == 0 then 0.0 else ColumnDot(col, a, h, c - 1) + a[col[c - 1].index] * h[col[c - 1].index]
  }

  lemma NamedLast(col: Row, i: nat, c: nat)
    requires 0 < c <= |col|
    ensures NamedBefore(col, i, c) <==> NamedBefore(col, i, c - 1) || col[c - 1].index == i
  {
  }

  lemma LastUnnamed(col: Row, c: nat, n: nat)
    requires 0 < n && c <= |col| && Ascending(col) && (c > 0 ==> col[c - 1].index != n - 1)
    requires forall k :: 0 <= k < c ==> col[k].index < n
    ensures !NamedBefore(col, n - 1, c) && forall k :: 0 <= k < c ==> col[k].index < n - 1
  {
  }

  lemma {:induction false} ColumnDotIsDot(col: Row, a: seq<real>, h: seq<real>, c: nat, n: nat)
    requires |a| == |h| && n <= |a| && c <= |col| && Within(col, |a|) && Ascending(col)
    requires forall k :: 0 <= k < c ==> col[k].index < n
    requires forall i :: 0 <= i < n && !NamedBefore(col, i, c) ==> h[i] == 0.0
    ensures ColumnDot(col, a, h, c) == DotTo(a, h, n)
    decreases n
  {
    if n > 0 {
      hide NamedBefore, ColumnDot, DotTo;
      if c > 0 && col[c - 1].index == n - 1 {
        forall i | 0 <= i < n - 1 && !NamedBefore(col, i, c - 1)
          ensures h[i] == 0.0
        {
          NamedLast(col, i, c);
        }
        ColumnDotIsDot(col, a, h, c - 1, n - 1);
        SameLastTerm(col, a, h, c, n);
      } else {
        LastUnnamed(col, c, n);
        ColumnDotIsDot(col, a, h, c, n - 1);
        NoLastTerm(a, h, n);
      }
    } else {
      DotStarts(col, a, h);
    }
  }

  lemma DotStarts(col: Row, a: seq<real>, h: seq<real>)
    requires |a| == |h| && Within(col, |a|)
    ensures ColumnDot(col, a, h, 0) == 0.0 == DotTo(a, h, 0)
  {
  }

  lemma SameLastTerm(col: Row, a: seq<real>, h: seq<real>, c: nat, n: nat)
    requires |a| == |h| && 0 < n <= |a| && 0 < c <= |col| && Within(col, |a|) && col[c - 1].index == n - 1
    ensures ColumnDot(col, a, h, c) - ColumnDot(col, a, h, c - 1) == DotTo(a, h, n) - DotTo(a, h, n - 1)
  {
  }

  lemma NoLastTerm(a: seq<real>, h: seq<real>, n: nat)
    requires |a| == |h| && 0 < n <= |a| && h[n - 1] == 0.0
    ensures DotTo(a, h, n) == DotTo(a, h, n - 1)
  {
  }

  /** e after the first c column entries have been moved along h. */
  ghost predicate MovedBy(was: seq<real>, e: seq<real>, h: seq<real>, d: real, col: Row, c: nat)
  {
    && |e| == |was| == |h|
    && forall i :: 0 <= i < |e| ==> e[i] == was[i] + if NamedBefore(col, i, c) then d * h[i] else 0.0
  }

  lemma MoveNext(was: seq<real>, e: seq<real>, h: seq<real>, d: real, col: Row, c: nat)
    requires MovedBy(was, e, h, d, col, c) && c < |col| && Within(col, |e|) && Ascending(col)
    ensures var r := col[c].index;
            e[r] == was[r] && MovedBy(was, e[r := e[r] + d * h[r]], h, d, col, c + 1)
  {
    var r := col[c].index;
    assert !NamedBefore(col, r, c);
    hide NamedBefore;
    var next := e[r := e[r] + d * h[r]];
    forall i | 0 <= i < |e|
      ensures next[i] == was[i] + if NamedBefore(col, i, c + 1) then d * h[i] else 0.0
    {
      NamedLast(col, i, c + 1);
    }
  }

  lemma MovedAll(was: seq<real>, e: seq<real>, h: seq<real>, d: real, col: Row)
    requires MovedBy(was, e, h, d, col, |col|)
    requires forall i :: 0 <= i < |h| && !NamedBefore(col, i, |col|) ==> h[i] == 0.0
    ensures e == Along(was, h, d)
  {
    hide NamedBefore;
    forall i | 0 <= i < |e|
      ensures e[i] == Along(was, h, d)[i]
    {
      assert h[i] == 0.0 ==> d * h[i] == 0.0;
    }
  }

  /** The column names every row where h is not zero. */
  ghost predicate Supports(col: Row, h: seq<real>)
  {
    Within(col, |h|) && Ascending(col) && forall i :: 0 <= i < |h| && !NamedBefore(col, i, |col|) ==> h[i] == 0.0
  }

  lemma SupportedDot(col: Row, a: seq<real>, h: seq<real>)
    requires Supports(col, h) && |a| == |h|
    ensures ColumnDot(col, a, h, |col|) == Dot(a, h)
  {
    ColumnDotIsDot(col, a, h, |col|, |h|);
  }

  // ---- one pass for the closed form, one for the residuals ----

  method BiasSum(e: seq<real>, w0: real, ghost h: seq<real>) returns (sum: real)
    requires |e| == |h| && forall i :: 0 <= i < |h| ==> h[i] == 1.0
    ensures sum == Dot(Without(e, h, w0), h)
  {
    sum := 0.0;
    ghost var a := Without(e, h, w0);
    for i := 0 to |e|
      invariant sum == DotTo(a, h, i)
    {
      assert a[i] * h[i] == e[i] - w0;
      sum := sum + (e[i] - w0);
    }
  }

  method ShiftAll(e: seq<real>, d: real, ghost h: seq<real>) returns (e': seq<real>)
    requires |e| == |h| && forall i :: 0 <= i < |h| ==> h[i] == 1.0
    ensures e' == Along(e, h, d)
  {
    e' := e;
    for i := 0 to |e|
      invariant |e'| == |e| && forall r :: 0 <= r < |e| ==> e'[r] == if r < i then e[r] + d else e[r]
    {
      e' := e'[i := e'[i] + d];
    }
  }

  method WeightSums(e: seq<real>, w: real, col: Row, ghost h: seq<real>) returns (mean: real, sqr: real)
    requires |e| == |h| && Supports(col, h) && forall c :: 0 <= c < |col| ==> col[c].value == h[col[c].index]
    ensures mean == Dot(Without(e, h, w), h) && sqr == Dot(h, h)
  {
    mean, sqr := 0.0, 0.0;
    ghost var a := Without(e, h, w);
    for i := 0 to |col|
      invariant mean == ColumnDot(col, a, h, i) && sqr == ColumnDot(col, h, h, i)
    {
      var row, value := col[i].index, col[i].value;
      assert a[row] == e[row] + -w * h[row];
      mean := mean + (e[row] - w * value) * value;
      sqr := sqr + value * value;
    }
    SupportedDot(col, a, h);
    SupportedDot(col, h, h);
  }

  method ShiftResiduals(e: seq<real>, d: real, col: Row, ghost h: seq<real>) returns (e': seq<real>)
    requires |e| == |h| && Supports(col, h) && forall c :: 0 <= c < |col| ==> col[c].value == h[col[c].index]
    ensures e' == Along(e, h, d)
  {
    e' := e;
    assert MovedBy(e, e', h, d, col, 0);
    for i := 0 to |col|
      invariant MovedBy(e, e', h, d, col, i)
    {
      var row, value := col[i].index, col[i].value;
      MoveNext(e, e', h, d, col, i);
      e' := e'[row := e'[row] + d * value];
    }
    MovedAll(e, e', h, d, col);
  }

  /** h is the slope at a factor value v: x(q - vx) in the rows of the column. */
  ghost predicate SlopesOf(col: Row, q: seq<real>, v: real, h: seq<real>, x: seq<real>)
  {
    && |q| == |h| == |x| && Supports(col, x) && Supports(col, h)
    && forall c :: 0 <= c < |col| ==>
         col[c].value == x[col[c].index] && h[col[c].index] == col[c].value * (q[col[c].index] - v * col[c].value)
  }

  lemma MomentAt(e: seq<real>, q: seq<real>, v: real, col: Row, h: seq<real>, x: seq<real>, i: nat)
    requires |e| == |h| && SlopesOf(col, q, v, h, x) && i < |col|
    ensures col[i].index < |h| == |q| && |Without(e, h, v)| == |h| && Supports(col, h)
    ensures col[i].value * (q[col[i].index] - v * col[i].value) == h[col[i].index]
    ensures Without(e, h, v)[col[i].index] == e[col[i].index] - v * h[col[i].index]
  {
    assert Without(e, h, v)[col[i].index] == e[col[i].index] + -v * h[col[i].index];
  }

  /** One row's share of the moments. */
  lemma MomentTerm(e: seq<real>, q: seq<real>, v: real, col: Row, h: seq<real>, x: seq<real>, i: nat, s: real)
    requires |e| == |h| && SlopesOf(col, q, v, h, x) && i < |col|
    requires col[i].index < |q| && s == col[i].value * (q[col[i].index] - v * col[i].value)
    ensures |Without(e, h, v)| == |h| && Supports(col, h)
    ensures ColumnDot(col, Without(e, h, v), h, i + 1) == ColumnDot(col, Without(e, h, v), h, i)
            + (e[col[i].index] - v * s) * s
    ensures ColumnDot(col, h, h, i + 1) == ColumnDot(col, h, h, i) + s * s
  {
    hide Without, Supports, SlopesOf;
    MomentAt(e, q, v, col, h, x, i);
  }

  lemma RowInRange(col: Row, q: seq<real>, v: real, h: seq<real>, x: seq<real>, i: nat)
    requires SlopesOf(col, q, v, h, x) && i < |col|
    ensures col[i].index < |q|
  {
  }

  lemma NoMoments(col: Row, e: seq<real>, v: real, h: seq<real>)
    requires |e| == |h| && Supports(col, h)
    ensures |Without(e, h, v)| == |h| && ColumnDot(col, Without(e, h, v), h, 0) == 0.0 && ColumnDot(col, h, h, 0) == 0.0
  {
  }

  lemma SlopesSupport(col: Row, q: seq<real>, v: real, h: seq<real>, x: seq<real>)
    requires SlopesOf(col, q, v, h, x)
    ensures |q| == |h| == |x| && Supports(col, h) && Supports(col, x)
  {
  }

  method FactorMoments(e: seq<real>, q: seq<real>, v: real, col: Row, ghost h: seq<real>, ghost x: seq<real>)
    returns (mean: real, sqr: real)
    requires |e| == |h| && SlopesOf(col, q, v, h, x)
    ensures mean == Dot(Without(e, h, v), h) && sqr == Dot(h, h)
  {
    mean, sqr := 0.0, 0.0;
    ghost var a := Without(e, h, v);
    hide *;
    SlopesSupport(col, q, v, h, x);
    NoMoments(col, e, v, h);
    for i := 0 to |col|
      invariant mean == ColumnDot(col, a, h, i) && sqr == ColumnDot(col, h, h, i)
    {
      RowInRange(col, q, v, h, x, i);
      var row, value := col[i].index, col[i].value;
      var s := value * (q[row] - v * value);
      MomentTerm(e, q, v, col, h, x, i, s);
      mean := mean + (e[row] - v * s) * s;
      sqr := sqr + s * s;
    }
    SupportedDot(col, a, h);
    SupportedDot(col, h, h);
  }

  method ShiftBoth(e: seq<real>, q: seq<real>, v: real, d: real, col: Row, ghost h: seq<real>, ghost x: seq<real>)
    returns (e': seq<real>, q': seq<real>)
    requires |e| == |h| && SlopesOf(col, q, v, h, x)
    ensures e' == Along(e, h, d) && q' == Along(q, x, d)
  {
    hide *;
    e', q' := e, q;
    SlopesSupport(col, q, v, h, x);
    NothingMoved(e, h, d, col);
    NothingMoved(q, x, d, col);
    for i := 0 to |col|
      invariant MovedBy(e, e', h, d, col, i) && MovedBy(q, q', x, d, col, i)
    {
      RowInRange(col, q, v, h, x, i);
      MovedSizes(q, q', x, d, col, i);
      var row, value := col[i].index, col[i].value;
      var s := value * (q'[row] - v * value);
      BothRows(e, q, v, d, col, h, x, e', q', i, row, value, s);
      e' := e'[row := e'[row] + d * s];
      q' := q'[row := q'[row] + d * value];
    }
    MovedAll(e, e', h, d, col);
    MovedAll(q, q', x, d, col);
  }

  lemma NothingMoved(e: seq<real>, h: seq<real>, d: real, col: Row)
    requires |e| == |h|
    ensures MovedBy(e, e, h, d, col, 0)
  {
  }

  lemma MovedSizes(e: seq<real>, e': seq<real>, h: seq<real>, d: real, col: Row, i: nat)
    requires MovedBy(e, e', h, d, col, i)
    ensures |e'| == |e|
  {
  }

  /** One row's residual and factor sum move together. */
  lemma BothRows(e: seq<real>, q: seq<real>, v: real, d: real, col: Row, h: seq<real>, x: seq<real>,
                 e': seq<real>, q': seq<real>, i: nat, row: nat, value: real, s: real)
    requires |e| == |h| && SlopesOf(col, q, v, h, x) && i < |col|
    requires MovedBy(e, e', h, d, col, i) && MovedBy(q, q', x, d, col, i)
    requires row == col[i].index && value == col[i].value && row < |q| && s == value * (q'[row] - v * value)
    ensures row < |e'| && MovedBy(e, e'[row := e'[row] + d * s], h, d, col, i + 1)
    ensures row < |q'| && MovedBy(q, q'[row := q'[row] + d * value], x, d, col, i + 1)
  {
    MoveNext(e, e', h, d, col, i);
    MoveNext(q, q', x, d, col, i);
    assert q'[row] == q[row];
    assert h[row] == s && x[row] == value;
    hide MovedBy, Supports;
  }

  lemma CoefsSupported(task: Task, p: nat, col: Row)
    requires ColumnOk(task.X, p, |task.X|, col)
    ensures Supports(col, task.Coefs(p))
    ensures forall c :: 0 <= c < |col| ==> col[c].value == task.Coefs(p)[col[c].index]
  {
    hide Coef;
  }

  lemma SlopesSupported(task: Task, v: seq<real>, p: nat, col: Row, q: seq<real>)
    requires ColumnOk(task.X, p, |task.X|, col) && (forall i :: 0 <= i < |task.X| ==> Within(task.X[i], |v|)) && p < |v|
    requires q == task.FactorSums(v)
    ensures SlopesOf(col, q, v[p], task.Slopes(v, p), task.Coefs(p))
  {
    CoefsSupported(task, p, col);
    var h := task.Slopes(v, p);
    forall i | 0 <= i < |task.X|
      ensures h[i] == Tangent(task.Coefs(p)[i], q[i], v[p])
    {
    }
    forall i | 0 <= i < |h| && !NamedBefore(col, i, |col|)
      ensures h[i] == 0.0
    {
      assert task.Coefs(p)[i] == 0.0;
    }
    hide Coef, Weighted;
  }

  lemma {:induction false} OnesCount(h: seq<real>, n: nat)
    requires n <= |h| && forall i :: 0 <= i < n ==> h[i] == 1.0
    ensures DotTo(h, h, n) == n as real
  {
    if n > 0 {
      OnesCount(h, n - 1);
    }
  }

  lemma BestByRatio(a: seq<real>, h: seq<real>, reg: real, best: real)
    requires |a| == |h| && reg > 0.0 && Dot(h, h) == |h| as real
    requires best == Dot(a, h) * (-1.0 / (|h| as real + reg))
    ensures Dot(h, h) + reg > 0.0 && best == Best(a, h, reg)
  {
  }

  // ---- the draws ----

  class Als {
    const fm: FmModel
    const train: SparseMatrix
    const Y: seq<real>
    const regW0: real
    const regW: real
    const regV: real
    var e: seq<real>
    var q: seq<real>

    constructor (fm: FmModel, train: SparseMatrix, Y: seq<real>, regW0: real, regW: real, regV: real)
      ensures this.fm == fm && this.train == train && this.Y == Y
      ensures this.regW0 == regW0 && this.regW == regW && this.regV == regV
      ensures |e| == |train.X| == |q|
      ensures fm.Value().Shaped() && Problem().Valid(|fm.w|) && train.numFeature <= |fm.w| && train.Transposed()
              ==> Valid()
    {
      this.fm, this.train, this.Y, this.regW0, this.regW, this.regV := fm, train, Y, regW0, regW, regV;
      e, q := seq(|train.X|, _ => 0.0), seq(|train.X|, _ => 0.0);
    }

    ghost function Problem(): Task
      reads train
    {
      Task(train.X, Y, regW0, regW, regV)
    }

    /** Rows without repeated features, the transposed matrix, and positive regularisers. */
    ghost predicate Valid()
      reads this, fm, train
    {
      && fm.Value().Shaped() && Problem().Valid(|fm.w|) && |train.Xt| <= |fm.w| && train.Transposed()
      && |e| == |train.X| == |q|
    }

    /** e[i] is predict(x_i) - y_i. */
    ghost predicate ResidualsHold()
      requires Valid()
      reads this, fm, train
    {
      e == Problem().Residuals(fm.Value())
    }

    /** q[i] is the sum of v x over row i, for factor k. */
    ghost predicate SumsHold(k: nat)
      requires Valid() && k < |fm.v|
      reads this, fm, train
    {
      q == Problem().FactorSums(fm.v[k])
    }

    /** All residuals from scratch. */
    method InitE()
      requires Valid()
      modifies `e
      ensures Valid() && ResidualsHold()
    {
      var sum, sumSqr := new real[|fm.v|], new real[|fm.v|];
      for i := 0 to |train.X|
        invariant Valid() && forall r :: 0 <= r < i ==> e[r] == Problem().Residuals(fm.Value())[r]
      {
        var p := fm.Predict(train.X[i], sum, sumSqr);
        e := e[i := p - Y[i]];
      }
      assert e == Problem().Residuals(fm.Value());
    }

    /** All factor sums of factor k from scratch. */
    method InitQ(k: nat)
      requires Valid() && k < |fm.v|
      modifies `q
      ensures Valid() && SumsHold(k)
    {
      for i := 0 to |train.X|
        invariant Valid() && forall r :: 0 <= r < i ==> q[r] == Problem().FactorSums(fm.v[k])[r]
      {
        q := q[i := 0.0];
        for j := 0 to |train.X[i]|
          invariant Valid() && q[i] == Weighted(fm.v[k], train.X[i], j)
          invariant forall r :: 0 <= r < i ==> q[r] == Problem().FactorSums(fm.v[k])[r]
        {
          q := q[i := q[i] + fm.v[k][train.X[i][j].index] * train.X[i][j].value];
        }
      }
      assert q == Problem().FactorSums(fm.v[k]);
    }

    /** Sets the bias to its minimiser. */
    method DrawW0()
      requires Valid() && ResidualsHold()
      modifies fm`w0, `e
      ensures Valid() && ResidualsHold() && q == old(q)
      ensures fm.Value() == SetW0(old(fm.Value()), fm.w0) && BestW0(Problem(), old(fm.Value()), fm.w0)
    {
      ghost var task, m := Problem(), fm.Value();
      ghost var h, a := task.Ones(), Without(e, task.Ones(), fm.w0);
      var w0new := BiasSum(e, fm.w0, h);
      OnesCount(h, |h|);
      w0new := w0new * (-1.0 / (|train.X| as real + regW0));
      BestByRatio(a, h, regW0, w0new);
      W0Minimises(task, m, w0new);
      ResidualsW0(task, m, w0new);
      e := ShiftAll(e, w0new - fm.w0, h);
      fm.w0 := w0new;
    }

    /** Sets one weight to its minimiser. */
    method DrawW(j: nat)
      requires Valid() && ResidualsHold() && j < |train.Xt|
      modifies fm`w, `e
      ensures Valid() && ResidualsHold() && q == old(q) && |fm.w| == old(|fm.w|)
      ensures fm.Value() == SetW(old(fm.Value()), j, fm.w[j]) && BestW(Problem(), old(fm.Value()), j, fm.w[j])
    {
      ghost var task, m := Problem(), fm.Value();
      ghost var h := task.Coefs(j);
      var col := train.Xt[j];
      CoefsSupported(task, j, col);
      var mean, sqr := WeightSums(e, fm.w[j], col, h);
      PositiveWeight(h, regW);
      var wNew := -mean / (sqr + regW);
      WMinimises(task, m, j, wNew);
      ResidualsW(task, m, j, wNew);
      e := ShiftResiduals(e, wNew - fm.w[j], col, h);
      fm.w := fm.w[j := wNew];
    }

    /** Sets one factor value to its minimiser; the factor sums of that factor follow. */
    method DrawV(k: nat, p: nat)
      requires Valid() && ResidualsHold() && k < |fm.v| && SumsHold(k) && p < |train.Xt|
      modifies fm`v, `e, `q
      ensures Valid() && ResidualsHold() && |fm.v| == old(|fm.v|) && SumsHold(k)
      ensures fm.Value() == SetV(old(fm.Value()), k, p, fm.v[k][p])
      ensures BestV(Problem(), old(fm.Value()), k, p, fm.v[k][p])
    {
      hide Task.Residuals, Task.FactorSums, Task.Loss, Task.Slopes, Task.Coefs, ColumnOk, SlopesOf, Without, Along, Dot,
        BestV;
      ghost var task, m := Problem(), fm.Value();
      ghost var h, x := task.Slopes(fm.v[k], p), task.Coefs(p);
      var col, v := train.Xt[p], fm.v[k][p];
      SlopesSupported(task, fm.v[k], p, col, q);
      var mean, sqr := FactorMoments(e, q, v, col, h, x);
      PositiveWeight(h, regV);
      var vNew := -mean / (sqr + regV);
      VMinimises(task, m, k, p, vNew);
      ResidualsV(task, m, k, p, vNew);
      FactorSumsV(task, fm.v[k], p, vNew);
      e, q := ShiftBoth(e, q, v, vNew - v, col, h, x);
      fm.v := fm.v[k := fm.v[k][p := vNew]];
    }

    /** The loss of the current model. */
    ghost function CurrentLoss(): real
      requires Valid()
      reads this, fm, train
    {
      Problem().Loss(fm.Value())
    }

    /** One round over all weights. */
    method DrawWeights() returns (ghost ms: seq<Machine>)
      requires Valid() && ResidualsHold()
      modifies fm`w, `e
      ensures Valid() && ResidualsHold() && |fm.w| == old(|fm.w|)
      ensures Leads(Problem(), old(fm.Value()), fm.Value(), ms, Weights(|train.Xt|))
    {
      hide Leads, BestW, Task.Residuals, ColumnOk, Task.Valid;
      ghost var start := fm.Value();
      ms := [start];
      LeadsNowhere(Problem(), start);
      for j := 0 to |train.Xt|
        invariant Valid() && ResidualsHold() && |fm.w| == old(|fm.w|)
        invariant Leads(Problem(), start, fm.Value(), ms, Weights(j))
      {
        ghost var m := fm.Value();
        DrawW(j);
        LeadsOn(Problem(), start, m, fm.Value(), ms, Weights(j), Weight(j));
        ms := ms + [fm.Value()];
      }
    }

    /** One round over all values of one factor. */
    method DrawFactor(k: nat) returns (ghost ms: seq<Machine>)
      requires Valid() && ResidualsHold() && k < |fm.v|
      modifies fm`v, `e, `q
      ensures Valid() && ResidualsHold() && |fm.v| == old(|fm.v|)
      ensures Leads(Problem(), old(fm.Value()), fm.Value(), ms, FactorValues(k, |train.Xt|))
    {
      hide Leads, BestV, Task.Residuals, Task.FactorSums, ColumnOk, Task.Valid;
      InitQ(k);
      ghost var start := fm.Value();
      ms := [start];
      LeadsNowhere(Problem(), start);
      for p := 0 to |train.Xt|
        invariant Valid() && ResidualsHold() && |fm.v| == old(|fm.v|) && SumsHold(k)
        invariant Leads(Problem(), start, fm.Value(), ms, FactorValues(k, p))
      {
        ghost var m := fm.Value();
        DrawV(k, p);
        LeadsOn(Problem(), start, m, fm.Value(), ms, FactorValues(k, p), Factor(k, p));
        ms := ms + [fm.Value()];
      }
    }

    /** One round over all factors. */
    method DrawFactors() returns (ghost ms: seq<Machine>)
      requires Valid() && ResidualsHold()
      modifies fm`v, `e, `q
      ensures Valid() && ResidualsHold() && |fm.v| == old(|fm.v|)
      ensures Leads(Problem(), old(fm.Value()), fm.Value(), ms, Factors(|fm.v|, |train.Xt|))
    {
      hide *;
      ghost var start := fm.Value();
      ms := [start];
      LeadsNowhere(Problem(), start);
      NoFactors(|train.Xt|);
      for k := 0 to |fm.v|
        invariant Valid() && ResidualsHold() && |fm.v| == old(|fm.v|)
        invariant Leads(Problem(), start, fm.Value(), ms, Factors(k, |train.Xt|))
      {
        ghost var m := fm.Value();
        ghost var more := DrawFactor(k);
        FactorsNext(k, |train.Xt|);
        LeadsJoin(Problem(), start, m, fm.Value(), ms, Factors(k, |train.Xt|), more, FactorValues(k, |train.Xt|));
        ms := ms + more[1..];
      }
    }

    /** One iteration of learn. */
    method Iterate() returns (ghost ms: seq<Machine>)
      requires Valid() && ResidualsHold()
      modifies fm, `e, `q
      ensures Valid() && ResidualsHold() && |fm.v| == old(|fm.v|)
      ensures Leads(Problem(), old(fm.Value()), fm.Value(), ms, Round(|train.Xt|, |fm.v|))
    {
      hide Leads, BestW0, Task.Residuals, ColumnOk, Task.Valid, Weights, Factors;
      ghost var task, start := Problem(), fm.Value();
      LeadsNowhere(task, start);
      DrawW0();
      ghost var biased := fm.Value();
      LeadsOn(task, start, start, biased, [start], [], Bias);
      ghost var more := DrawWeights();
      ghost var weighted := fm.Value();
      LeadsJoin(task, start, biased, weighted, [start] + [biased], [] + [Bias], more, Weights(|train.Xt|));
      ghost var rest := DrawFactors();
      LeadsJoin(task, start, weighted, fm.Value(), [start] + [biased] + more[1..], [] + [Bias] + Weights(|train.Xt|),
                rest, Factors(|fm.v|, |train.Xt|));
      ms := [start] + [biased] + more[1..] + rest[1..];
      assert [] + [Bias] + Weights(|train.Xt|) + Factors(|fm.v|, |train.Xt|) == Round(|train.Xt|, |fm.v|);
    }

    /** The whole run: in every round each parameter in turn is set to its minimiser, the residuals stay
        exact, and the regularised squared error never rises. */
    method Learn(numIter: nat) returns (ghost ms: seq<Machine>)
      requires Valid()
      modifies fm, `e, `q
      ensures Valid() && ResidualsHold() && CurrentLoss() <= old(CurrentLoss())
      ensures Leads(Problem(), old(fm.Value()), fm.Value(), ms, Rounds(|train.Xt|, old(|fm.v|), numIter))
    {
      hide Leads, Task.Residuals, ColumnOk, Task.Valid, Round, Task.Loss;
      InitE();
      ghost var start, count := fm.Value(), |fm.v|;
      ms := [start];
      LeadsNowhere(Problem(), start);
      for i := 0 to numIter
        invariant Valid() && ResidualsHold() && |fm.v| == count
        invariant Leads(Problem(), start, fm.Value(), ms, Rounds(|train.Xt|, count, i))
      {
        ghost var m := fm.Value();
        ghost var more := Iterate();
        LeadsJoin(Problem(), start, m, fm.Value(), ms, Rounds(|train.Xt|, count, i), more, Round(|train.Xt|, count));
        ms := ms + more[1..];
      }
      LeadsDescends(Problem(), start, fm.Value(), ms, Rounds(|train.Xt|, count, numIter));
    }
  }
}
