/** One-vs-one classification: how svm_train spreads the coefficients of all pairwise functions over one
    table, and why svm_predict_values finds them again. */
module OneVsOne {
  import opened PairNumbers

  datatype DecisionFunction = DecisionFunction(alpha: seq<real>, rho: real)

  /** Sum of the first i counts: where class i starts. */
  function StartOf(count: seq<nat>, i: nat): nat
    requires i <= |count|
  {
    if i == 0 then 0 else StartOf(count, i - 1) + count[i - 1]
  }

  lemma {:induction false} StartsGrow(count: seq<nat>, i: nat, j: nat)
    requires i <= j <= |count|
    ensures StartOf(count, i) <= StartOf(count, j)
    ensures i < j ==> StartOf(count, i) + count[i] <= StartOf(count, j)
    decreases j
  {
    if i + 1 < j {
      StartsGrow(count, i, j - 1);
    }
  }

  /** Sizes of the classes, whose points are numbered class by class, and one function per pair. */
  datatype Training = Training(count: seq<nat>, f: seq<DecisionFunction>) {
    function N(): nat
    {
      |count|
    }

    function Start(i: nat): nat
      requires i <= |count|
    {
      StartOf(count, i)
    }

    function Points(): nat
    {
      StartOf(count, |count|)
    }

    /** Function of the pair i < j, with the points of class i first. */
    function F(i: nat, j: nat): DecisionFunction
      requires i < j < N() && |f| == Pairs(N())
    {
      PairInRange(N(), i, j);
      f[PairNo(N(), i, j)]
    }

    ghost predicate Valid()
    {
      && N() >= 1 && |f| == Pairs(N())
      && forall i, j :: 0 <= i < j < N() ==> |F(i, j).alpha| == count[i] + count[j]
    }

    /** The coefficient pair (i, j) gives point q, 0 for points of other classes. */
    function Coefficient(i: nat, j: nat, q: nat): real
      requires i < j < N() && Valid()
    {
      if Start(i) <= q < Start(i) + count[i] then F(i, j).alpha[q - Start(i)]
      else if Start(j) <= q < Start(j) + count[j] then F(i, j).alpha[count[i] + (q - Start(j))]
      else 0.0
    }

    /** Some pair gives point q a coefficient that is not zero. */
    ghost predicate Used(q: nat)
      requires Valid()
    {
      exists i, j :: 0 <= i < j < N() && Coefficient(i, j, q) != 0.0
    }

    /** The decision value of a pair for kernel values of all points. */
    function Decision(i: nat, j: nat, kernel: seq<real>): real
      requires i < j < N() && Valid() && |kernel| == Points()
    {
      StartsGrow(count, i, |count|);
      StartsGrow(count, j, |count|);
      SumOver(F(i, j).alpha[..count[i]], kernel, Start(i), count[i])
      + SumOver(F(i, j).alpha[count[i]..], kernel, Start(j), count[j]) - F(i, j).rho
    }
  }

  /** Σ_{k<m} a_k kernel_{s+k}. */
  function SumOver(a: seq<real>, kernel: seq<real>, s: nat, m: nat): real
    requires m <= |a| && s + m <= |kernel|
  {
    if m == 0 then 0.0 else SumOver(a, kernel, s, m - 1) + a[m - 1] * kernel[s + m - 1]
  }

  // ---- the kept points ----

  /** Number of kept points among the first q. */
  function Rank(nonzero: seq<bool>, q: nat): nat
    requires q <= |nonzero|
  {
    if q == 0 then 0 else Rank(nonzero, q - 1) + if nonzero[q - 1] then 1 else 0
  }

  lemma {:induction false} RankGrows(nonzero: seq<bool>, p: nat, q: nat)
    requires p <= q <= |nonzero|
    ensures Rank(nonzero, p) <= Rank(nonzero, q) <= Rank(nonzero, p) + (q - p)
    ensures p < q && nonzero[p] ==> Rank(nonzero, p) < Rank(nonzero, q)
    decreases q
  {
    if p < q {
      RankGrows(nonzero, p, q - 1);
    }
  }

  /** Slot q of row r of the table: for a kept point of class c, rows below c belong to the pairs (r, c),
      the others to the pairs (c, r + 1). */
  function SlotValue(t: Training, c: nat, q: nat, r: nat): real
    requires t.Valid() && c < t.N() && r < t.N() - 1
  {
    if r < c then t.Coefficient(r, c, q) else t.Coefficient(c, r + 1, q)
  }

  lemma {:induction false} ClassOfPoint(count: seq<nat>, q: nat, n: nat) returns (c: nat)
    requires n <= |count| && q < StartOf(count, n)
    ensures c < n && StartOf(count, c) <= q < StartOf(count, c) + count[c]
  {
    if q >= StartOf(count, n - 1) {
      c := n - 1;
    } else {
      c := ClassOfPoint(count, q, n - 1);
    }
  }

  /** Each of the n - 1 rows serves a kept point of class c with exactly one other class. */
  lemma RowsAndClasses(n: nat, c: nat, r: nat, i: nat, j: nat)
    requires c < n && r < n - 1 && i < j < n && (c == i || c == j)
    ensures (c == i && r == j - 1) || (c == j && r == i) <==> (if r < c then i == r && j == c else i == c && j == r + 1)
  {
  }

  // ---- the packed model ----

  /** nSV counts the kept points of each class, sv lists them, svCoef[r] holds one coefficient for each. */
  datatype Model = Model(nSV: seq<nat>, sv: seq<nat>, rho: seq<real>, svCoef: seq<seq<real>>)

  ghost predicate MarksUsed(t: Training, nonzero: seq<bool>)
    requires t.Valid()
  {
    |nonzero| == t.Points() && forall q :: 0 <= q < |nonzero| ==> (nonzero[q] <==> t.Used(q))
  }

  ghost predicate CountsKept(t: Training, nonzero: seq<bool>, nSV: seq<nat>)
    requires t.Valid() && |nonzero| == t.Points()
  {
    |nSV| == t.N() && forall i :: 0 <= i <= t.N() ==>
      t.Start(i) <= |nonzero| && StartOf(nSV, i) == Rank(nonzero, t.Start(i))
  }

  ghost predicate ListsKept(nonzero: seq<bool>, sv: seq<nat>)
  {
    && |sv| == Rank(nonzero, |nonzero|)
    && forall q :: 0 <= q < |nonzero| && nonzero[q] ==> Rank(nonzero, q) < |sv| && sv[Rank(nonzero, q)] == q
  }

  ghost predicate InClass(t: Training, c: nat, q: nat)
    requires c < t.N()
  {
    t.Start(c) <= q < t.Start(c) + t.count[c]
  }

  /** Every slot of every kept point holds the coefficient of its pair. */
  ghost predicate TableFilled(t: Training, nonzero: seq<bool>, svCoef: seq<seq<real>>)
    requires t.Valid() && |nonzero| == t.Points()
  {
    && |svCoef| == t.N() - 1
    && (forall r :: 0 <= r < |svCoef| ==> |svCoef[r]| == Rank(nonzero, |nonzero|))
    && forall c, q, r :: 0 <= c < t.N() && 0 <= r < t.N() - 1 && 0 <= q < |nonzero| && InClass(t, c, q) && nonzero[q]
                         ==> Rank(nonzero, q) < |svCoef[r]| && svCoef[r][Rank(nonzero, q)] == SlotValue(t, c, q, r)
  }

  ghost predicate Packed(t: Training, nonzero: seq<bool>, m: Model)
    requires t.Valid()
  {
    && MarksUsed(t, nonzero) && CountsKept(t, nonzero, m.nSV) && ListsKept(nonzero, m.sv)
    && TableFilled(t, nonzero, m.svCoef)
    && |m.rho| == |t.f| && forall p :: 0 <= p < |t.f| ==> m.rho[p] == t.f[p].rho
  }

  // ---- the round trip ----

  /** Σ_{k<len} row_{from+k} kvalue_{from+k}. */
  function PackedSum(row: seq<real>, kvalue: seq<real>, from: nat, len: nat): real
    requires from + len <= |row| == |kvalue|
  {
    if len == 0 then 0.0 else PackedSum(row, kvalue, from, len - 1) + row[from + len - 1] * kvalue[from + len - 1]
  }

  /** The kept points among s..s+m-1 carry their coefficients and kernel values; the others have none. */
  ghost predicate Carries(nonzero: seq<bool>, a: seq<real>, kernel: seq<real>, row: seq<real>, kvalue: seq<real>,
                          s: nat, m: nat)
    requires |nonzero| == |kernel| && s + m <= |kernel| && m <= |a| && |row| == |kvalue|
  {
    && (forall q :: s <= q < s + m && nonzero[q] ==>
          Rank(nonzero, q) < |row| && row[Rank(nonzero, q)] == a[q - s] && kvalue[Rank(nonzero, q)] == kernel[q])
    && forall q :: s <= q < s + m && !nonzero[q] ==> a[q - s] == 0.0
  }

  lemma CarriesLast(nonzero: seq<bool>, a: seq<real>, kernel: seq<real>, row: seq<real>, kvalue: seq<real>, s: nat,
                    m: nat)
    requires |nonzero| == |kernel| && s + m <= |kernel| && m <= |a| && |row| == |kvalue|
    requires 0 < m && Carries(nonzero, a, kernel, row, kvalue, s, m)
    ensures Carries(nonzero, a, kernel, row, kvalue, s, m - 1)
    ensures var q := s + m - 1;
            if nonzero[q]
            then Rank(nonzero, q) < |row| && row[Rank(nonzero, q)] == a[m - 1] && kvalue[Rank(nonzero, q)] == kernel[q]
            else a[m - 1] * kernel[q] == 0.0
  {
    hide Rank;
    var q := s + m - 1;
    assert !nonzero[q] ==> a[q - s] == 0.0;
    assert nonzero[q] ==> row[Rank(nonzero, q)] == a[q - s];
  }

  /** Dropping the points with zero coefficients does not change the sum. */
  lemma {:induction false} PackedSumIsSum(nonzero: seq<bool>, a: seq<real>, kernel: seq<real>, row: seq<real>,
                                          kvalue: seq<real>, s: nat, m: nat)
    requires |nonzero| == |kernel| && s + m <= |kernel| && m <= |a| && |row| == |kvalue| == Rank(nonzero, |nonzero|)
    requires Carries(nonzero, a, kernel, row, kvalue, s, m)
    ensures Rank(nonzero, s) <= Rank(nonzero, s + m) <= |row|
    ensures PackedSum(row, kvalue, Rank(nonzero, s), Rank(nonzero, s + m) - Rank(nonzero, s))
            == SumOver(a, kernel, s, m)
    decreases m
  {
    hide Rank, Carries;
    RankGrows(nonzero, s, s + m);
    RankGrows(nonzero, s + m, |nonzero|);
    if m > 0 {
      CarriesLast(nonzero, a, kernel, row, kvalue, s, m);
      PackedSumIsSum(nonzero, a, kernel, row, kvalue, s, m - 1);
      RankNext(nonzero, s + m - 1);
    }
  }

  lemma PackedSumAt(nonzero: seq<bool>, a: seq<real>, kernel: seq<real>, row: seq<real>, kvalue: seq<real>,
                    s: nat, m: nat, e: nat, from: nat, len: nat)
    requires |nonzero| == |kernel| && e == s + m <= |kernel| && m <= |a|
    requires |row| == |kvalue| == Rank(nonzero, |nonzero|)
    requires Carries(nonzero, a, kernel, row, kvalue, s, m)
    requires from == Rank(nonzero, s) && len == Rank(nonzero, e) - Rank(nonzero, s)
    ensures from + len <= |row| && PackedSum(row, kvalue, from, len) == SumOver(a, kernel, s, m)
  {
    hide *;
    PackedSumIsSum(nonzero, a, kernel, row, kvalue, s, m);
  }

  lemma RankNext(nonzero: seq<bool>, q: nat)
    requires q < |nonzero|
    ensures Rank(nonzero, q + 1) == Rank(nonzero, q) + if nonzero[q] then 1 else 0
  {
  }

  // ---- svm_train: from the pairwise functions to the packed model ----

  ghost predicate UsedBefore(t: Training, q: nat, i: nat, j: nat)
    requires t.Valid()
  {
    exists a, b :: 0 <= a < b < t.N() && Earlier(a, b, i, j) && t.Coefficient(a, b, q) != 0.0
  }

  ghost predicate Marked(t: Training, nonzero: seq<bool>, i: nat, j: nat)
    requires t.Valid()
  {
    |nonzero| == t.Points() && forall q :: 0 <= q < |nonzero| ==> (nonzero[q] <==> UsedBefore(t, q, i, j))
  }

  /** now also marks the points s..s+m-1 whose weight in a, from place `offset` on, is not zero. */
  ghost predicate ClassMarked(was: seq<bool>, now: seq<bool>, a: seq<real>, offset: nat, s: nat, m: nat)
    requires offset + m <= |a|
  {
    && |now| == |was|
    && forall q :: 0 <= q < |now| ==> (now[q] <==> was[q] || (s <= q < s + m && a[offset + (q - s)] != 0.0))
  }

  /** One of the two loops over a pair's points. */
  method MarkClass(nonzero: seq<bool>, alpha: seq<real>, offset: nat, s: nat, m: nat) returns (more: seq<bool>)
    requires offset + m <= |alpha| && s + m <= |nonzero|
    ensures ClassMarked(nonzero, more, alpha, offset, s, m)
  {
    more := nonzero;
    for k := 0 to m
      invariant ClassMarked(nonzero, more, alpha, offset, s, k)
    {
      if !more[s + k] && alpha[offset + k] != 0.0 {
        more := more[s + k := true];
      }
    }
  }

  /** Marks the points one pair uses. */
  method MarkPair(t: Training, nonzero: seq<bool>, i: nat, j: nat) returns (more: seq<bool>)
    requires t.Valid() && i < j < t.N() && Marked(t, nonzero, i, j)
    ensures Marked(t, more, i, j + 1)
  {
    ClassBounds(t, i, j);
    var alpha := t.F(i, j).alpha;
    var half := MarkClass(nonzero, alpha, 0, t.Start(i), t.count[i]);
    more := MarkClass(half, alpha, t.count[i], t.Start(j), t.count[j]);
    PairMarked(t, nonzero, half, more, i, j);
  }

  lemma PairMarked(t: Training, nonzero: seq<bool>, half: seq<bool>, more: seq<bool>, i: nat, j: nat)
    requires t.Valid() && i < j < t.N() && Marked(t, nonzero, i, j)
    requires |t.F(i, j).alpha| == t.count[i] + t.count[j]
    requires ClassMarked(nonzero, half, t.F(i, j).alpha, 0, t.Start(i), t.count[i])
    requires ClassMarked(half, more, t.F(i, j).alpha, t.count[i], t.Start(j), t.count[j])
    ensures Marked(t, more, i, j + 1)
  {
    ClassBounds(t, i, j);
    hide UsedBefore, Training.Valid, Training.Start, Training.F;
    forall q | 0 <= q < |more|
      ensures more[q] <==> UsedBefore(t, q, i, j + 1)
    {
      assert more[q] <==> nonzero[q] || t.Coefficient(i, j, q) != 0.0;
      UsedNext(t, q, i, j);
    }
  }

  lemma ClassBounds(t: Training, i: nat, j: nat)
    requires i < j < t.N()
    ensures t.Start(i) + t.count[i] <= t.Start(j) && t.Start(j) + t.count[j] <= t.Points()
  {
    StartsGrow(t.count, i, j);
    StartsGrow(t.count, j, |t.count|);
  }

  lemma UsedNext(t: Training, q: nat, i: nat, j: nat)
    requires t.Valid() && i < j < t.N()
    ensures UsedBefore(t, q, i, j + 1) <==> UsedBefore(t, q, i, j) || t.Coefficient(i, j, q) != 0.0
  {
    hide Training.Coefficient, Training.Valid;
    if UsedBefore(t, q, i, j) {
      var a, b :| 0 <= a < b < t.N() && Earlier(a, b, i, j) && t.Coefficient(a, b, q) != 0.0;
      assert Earlier(a, b, i, j + 1);
    }
    if t.Coefficient(i, j, q) != 0.0 {
      assert Earlier(i, j, i, j + 1);
    }
    if UsedBefore(t, q, i, j + 1) {
      var a, b :| 0 <= a < b < t.N() && Earlier(a, b, i, j + 1) && t.Coefficient(a, b, q) != 0.0;
      assert (a == i && b == j) || Earlier(a, b, i, j);
    }
  }

  lemma MarkedRow(t: Training, nonzero: seq<bool>, i: nat)
    requires t.Valid() && i < t.N()
    ensures Marked(t, nonzero, i, t.N()) ==> Marked(t, nonzero, i + 1, i + 2)
  {
    hide Training.Coefficient, Training.Valid;
    forall q: nat
      ensures UsedBefore(t, q, i, t.N()) <==> UsedBefore(t, q, i + 1, i + 2)
    {
      if UsedBefore(t, q, i, t.N()) {
        var a, b :| 0 <= a < b < t.N() && Earlier(a, b, i, t.N()) && t.Coefficient(a, b, q) != 0.0;
        assert Earlier(a, b, i + 1, i + 2);
      }
      if UsedBefore(t, q, i + 1, i + 2) {
        var a, b :| 0 <= a < b < t.N() && Earlier(a, b, i + 1, i + 2) && t.Coefficient(a, b, q) != 0.0;
        assert Earlier(a, b, i, t.N());
      }
    }
  }

  method MarkNonzero(t: Training) returns (nonzero: seq<bool>)
    requires t.Valid()
    ensures MarksUsed(t, nonzero)
  {
    nonzero := seq(t.Points(), _ => false);
    assert Marked(t, nonzero, 0, 1);
    for i := 0 to t.N()
      invariant Marked(t, nonzero, i, i + 1)
    {
      for j := i + 1 to t.N()
        invariant Marked(t, nonzero, i, j)
      {
        nonzero := MarkPair(t, nonzero, i, j);
      }
      MarkedRow(t, nonzero, i);
    }
    AllMarked(t, nonzero);
  }

  lemma AllMarked(t: Training, nonzero: seq<bool>)
    requires t.Valid() && Marked(t, nonzero, t.N(), t.N() + 1)
    ensures MarksUsed(t, nonzero)
  {
    hide Training.Coefficient, Training.Valid;
    forall q | 0 <= q < |nonzero|
      ensures nonzero[q] <==> t.Used(q)
    {
      if t.Used(q) {
        var a, b :| 0 <= a < b < t.N() && t.Coefficient(a, b, q) != 0.0;
        assert Earlier(a, b, t.N(), t.N() + 1);
      }
    }
  }

  method CountClass(nonzero: seq<bool>, s: nat, m: nat) returns (n: nat)
    requires s + m <= |nonzero|
    ensures Rank(nonzero, s + m) == Rank(nonzero, s) + n
  {
    n := 0;
    for j := 0 to m
      invariant Rank(nonzero, s + j) == Rank(nonzero, s) + n
    {
      if nonzero[s + j] {
        n := n + 1;
      }
    }
  }

  ghost predicate CountedTo(t: Training, nonzero: seq<bool>, nSV: seq<nat>, n: nat)
    requires n <= t.N() && |nSV| == n
  {
    forall k :: 0 <= k <= n ==> t.Start(k) <= |nonzero| && StartOf(nSV, k) == Rank(nonzero, t.Start(k))
  }

  lemma CountedNext(t: Training, nonzero: seq<bool>, nSV: seq<nat>, i: nat, n: nat)
    requires i < t.N() && |nSV| == i && CountedTo(t, nonzero, nSV, i) && |nonzero| == t.Points()
    requires t.Start(i) + t.count[i] <= |nonzero|
    requires Rank(nonzero, t.Start(i) + t.count[i]) == Rank(nonzero, t.Start(i)) + n
    ensures CountedTo(t, nonzero, nSV + [n], i + 1)
  {
    StartsSame(nSV, n);
    assert t.Start(i + 1) == t.Start(i) + t.count[i];
    hide StartOf, Rank;
  }

  method CountKept(t: Training, nonzero: seq<bool>) returns (nSV: seq<nat>)
    requires t.Valid() && |nonzero| == t.Points()
    ensures CountsKept(t, nonzero, nSV)
  {
    nSV := [];
    StartsGrow(t.count, 0, t.N());
    hide StartOf, Rank, Training.Valid;
    for i := 0 to t.N()
      invariant |nSV| == i && CountedTo(t, nonzero, nSV, i)
    {
      StartsGrow(t.count, i, t.N());
      var n := CountClass(nonzero, t.Start(i), t.count[i]);
      CountedNext(t, nonzero, nSV, i, n);
      nSV := nSV + [n];
    }
  }

  lemma StartsSame(count: seq<nat>, n: nat)
    ensures forall k :: 0 <= k <= |count| ==> StartOf(count + [n], k) == StartOf(count, k)
    ensures StartOf(count + [n], |count| + 1) == StartOf(count, |count|) + n
  {
    forall k | 0 <= k <= |count|
      ensures StartOf(count + [n], k) == StartOf(count, k)
    {
      StartsPrefix(count, n, k);
    }
  }

  lemma {:induction false} StartsPrefix(count: seq<nat>, n: nat, k: nat)
    requires k <= |count|
    ensures StartOf(count + [n], k) == StartOf(count, k)
  {
    if k > 0 {
      StartsPrefix(count, n, k - 1);
    }
  }

  method ListKept(nonzero: seq<bool>) returns (sv: seq<nat>)
    ensures ListsKept(nonzero, sv)
  {
    sv := [];
    for i := 0 to |nonzero|
      invariant |sv| == Rank(nonzero, i)
      invariant forall q :: 0 <= q < i && nonzero[q] ==> Rank(nonzero, q) < |sv| && sv[Rank(nonzero, q)] == q
    {
      if nonzero[i] {
        sv := sv + [i];
      }
    }
  }

  // ---- filling the table ----

  /** Row r of the table is written for class c by the pair of c and the row's other class. */
  ghost predicate PairOf(c: nat, r: nat, i: nat, j: nat)
  {
    if r < c then i == r && j == c else i == c && j == r + 1
  }

  /** The slots of all pairs before (i, j) are filled. */
  ghost predicate FilledTo(t: Training, nonzero: seq<bool>, svCoef: seq<seq<real>>, i: nat, j: nat)
    requires t.Valid() && |nonzero| == t.Points()
  {
    && |svCoef| == t.N() - 1
    && (forall r :: 0 <= r < |svCoef| ==> |svCoef[r]| == Rank(nonzero, |nonzero|))
    && forall c, q, r, a, b ::
         0 <= c < t.N() && 0 <= r < t.N() - 1 && 0 <= q < |nonzero| && InClass(t, c, q) && nonzero[q]
         && PairOf(c, r, a, b) && Earlier(a, b, i, j)
         ==> Rank(nonzero, q) < |svCoef[r]| && svCoef[r][Rank(nonzero, q)] == SlotValue(t, c, q, r)
  }

  /** The slots of the kept points s..s+m-1 hold a. */
  ghost predicate SlotsHold(nonzero: seq<bool>, now: seq<real>, a: seq<real>, s: nat, m: nat)
    requires s + m <= |nonzero| && m <= |a|
  {
    forall q :: s <= q < s + m && nonzero[q] ==> Rank(nonzero, q) < |now| && now[Rank(nonzero, q)] == a[q - s]
  }

  /** Only the slots of the kept points s..s+m-1 may have changed. */
  ghost predicate OthersKept(nonzero: seq<bool>, was: seq<real>, now: seq<real>, s: nat, m: nat)
    requires s + m <= |nonzero| && |was| == |now|
  {
    forall k :: 0 <= k < |now| && !(Rank(nonzero, s) <= k < Rank(nonzero, s + m)) ==> now[k] == was[k]
  }

  /** Only the slots of class c changed, and those of its kept points hold a. */
  ghost predicate RowFilled(nonzero: seq<bool>, was: seq<real>, now: seq<real>, a: seq<real>, s: nat, m: nat)
    requires s + m <= |nonzero| && m <= |a| && |was| == |now| == Rank(nonzero, |nonzero|)
  {
    SlotsHold(nonzero, now, a, s, m) && OthersKept(nonzero, was, now, s, m)
  }

  /** One of the two inner loops: the coefficients of one class go to consecutive slots. */
  method FillRow(nonzero: seq<bool>, row: seq<real>, alpha: seq<real>, offset: nat, s: nat, m: nat, start: nat)
    returns (filled: seq<real>)
    requires s + m <= |nonzero| && offset + m <= |alpha| && |row| == Rank(nonzero, |nonzero|)
    requires start == Rank(nonzero, s)
    ensures |filled| == |row| && RowFilled(nonzero, row, filled, alpha[offset..], s, m)
  {
    filled := row;
    var q := start;
    RankGrows(nonzero, s, s + m);
    RankGrows(nonzero, s + m, |nonzero|);
    hide Rank, RowFilled;
    ghost var a := alpha[offset..];
    NothingWritten(nonzero, row, a, s);
    for k := 0 to m
      invariant |filled| == |row| && q == Rank(nonzero, s + k) <= |row|
      invariant RowFilled(nonzero, row, filled, a, s, k)
    {
      assert a[k] == alpha[offset + k];
      RankNext(nonzero, s + k);
      RankGrows(nonzero, s + k + 1, |nonzero|);
      if !nonzero[s + k] {
        RowSkipped(nonzero, row, filled, a, s, k);
      } else {
        RowStored(nonzero, row, filled, a, s, k, q);
        filled := filled[q := alpha[offset + k]];
        q := q + 1;
      }
    }
  }

  lemma NothingWritten(nonzero: seq<bool>, row: seq<real>, a: seq<real>, s: nat)
    requires s <= |nonzero| && |row| == Rank(nonzero, |nonzero|)
    ensures RowFilled(nonzero, row, row, a, s, 0)
  {
  }

  lemma RowStored(nonzero: seq<bool>, was: seq<real>, now: seq<real>, a: seq<real>, s: nat, k: nat, at: nat)
    requires s + k < |nonzero| && k < |a| && |was| == |now| == Rank(nonzero, |nonzero|)
    requires RowFilled(nonzero, was, now, a, s, k)
    requires nonzero[s + k] && at == Rank(nonzero, s + k)
    ensures at < |now| && RowFilled(nonzero, was, now[at := a[k]], a, s, k + 1)
  {
    hide Rank, SlotsHold, OthersKept;
    RankNext(nonzero, s + k);
    RankGrows(nonzero, s, s + k);
    RankGrows(nonzero, s + k + 1, |nonzero|);
    SlotStored(nonzero, now, a, s, k, at);
    OthersStillKept(nonzero, was, now, s, k, at, a[k]);
  }

  lemma SlotStored(nonzero: seq<bool>, now: seq<real>, a: seq<real>, s: nat, k: nat, at: nat)
    requires s + k < |nonzero| && k < |a| && SlotsHold(nonzero, now, a, s, k)
    requires nonzero[s + k] && at == Rank(nonzero, s + k) < |now|
    ensures SlotsHold(nonzero, now[at := a[k]], a, s, k + 1)
  {
    hide Rank;
    forall q | s <= q < s + k && nonzero[q]
      ensures Rank(nonzero, q) < at
    {
      RankGrows(nonzero, q, s + k);
    }
  }

  lemma OthersStillKept(nonzero: seq<bool>, was: seq<real>, now: seq<real>, s: nat, k: nat, at: nat, x: real)
    requires s + k < |nonzero| && |was| == |now| && OthersKept(nonzero, was, now, s, k)
    requires Rank(nonzero, s) <= at == Rank(nonzero, s + k) < |now| && Rank(nonzero, s + (k + 1)) == at + 1
    ensures OthersKept(nonzero, was, now[at := x], s, k + 1)
  {
    hide Rank;
  }

  lemma KeptAt(nonzero: seq<bool>, was: seq<real>, now: seq<real>, s: nat, m: nat, k: nat)
    requires s + m <= |nonzero| && |was| == |now| && OthersKept(nonzero, was, now, s, m) && k < |now|
    requires !(Rank(nonzero, s) <= k < Rank(nonzero, s + m))
    ensures now[k] == was[k]
  {
    hide Rank;
  }

  lemma RowSkipped(nonzero: seq<bool>, was: seq<real>, now: seq<real>, a: seq<real>, s: nat, k: nat)
    requires s + k < |nonzero| && k < |a| && |was| == |now| == Rank(nonzero, |nonzero|)
    requires RowFilled(nonzero, was, now, a, s, k)
    requires !nonzero[s + k]
    ensures RowFilled(nonzero, was, now, a, s, k + 1)
  {
    RankNext(nonzero, s + k);
    hide Rank;
  }

  /** A kept point of another class has its slot outside the range of class c. */
  lemma SlotElsewhere(t: Training, nonzero: seq<bool>, c: nat, d: nat, q: nat)
    requires t.Valid() && |nonzero| == t.Points() && c < t.N() && d < t.N() && c != d && InClass(t, d, q)
    requires q < |nonzero| && nonzero[q] && t.Start(c) + t.count[c] <= |nonzero|
    ensures !(Rank(nonzero, t.Start(c)) <= Rank(nonzero, q) < Rank(nonzero, t.Start(c) + t.count[c]))
  {
    if c < d {
      StartsGrow(t.count, c, d);
      RankGrows(nonzero, t.Start(c) + t.count[c], q);
    } else {
      StartsGrow(t.count, d, c);
      RankGrows(nonzero, q, t.Start(c));
    }
  }

  /** The two rows a pair writes to. */
  ghost predicate PairFilled(t: Training, nonzero: seq<bool>, was: seq<seq<real>>, now: seq<seq<real>>, i: nat, j: nat)
    requires t.Valid() && |nonzero| == t.Points() && i < j < t.N()
  {
    && |was| == |now| == t.N() - 1
    && (forall r :: 0 <= r < |now| ==> |now[r]| == |was[r]| == Rank(nonzero, |nonzero|))
    && (forall q :: 0 <= q < |nonzero| && nonzero[q] && InClass(t, i, q) ==>
          Rank(nonzero, q) < |now[j - 1]| && now[j - 1][Rank(nonzero, q)] == t.Coefficient(i, j, q))
    && (forall q :: 0 <= q < |nonzero| && nonzero[q] && InClass(t, j, q) ==>
          Rank(nonzero, q) < |now[i]| && now[i][Rank(nonzero, q)] == t.Coefficient(i, j, q))
    && forall c, q, r :: 0 <= c < t.N() && 0 <= r < |now| && 0 <= q < |nonzero| && nonzero[q] && InClass(t, c, q)
                         && !PairOf(c, r, i, j) && Rank(nonzero, q) < |now[r]|
                         ==> now[r][Rank(nonzero, q)] == was[r][Rank(nonzero, q)]
  }

  lemma FilledPairNext(t: Training, nonzero: seq<bool>, was: seq<seq<real>>, now: seq<seq<real>>, i: nat, j: nat)
    requires t.Valid() && |nonzero| == t.Points() && i < j < t.N()
    requires FilledTo(t, nonzero, was, i, j) && PairFilled(t, nonzero, was, now, i, j)
    ensures FilledTo(t, nonzero, now, i, j + 1)
  {
    hide Training.Valid, Training.Coefficient, InClass, Rank;
    forall c, q, r, a, b |
      0 <= c < t.N() && 0 <= r < t.N() - 1 && 0 <= q < |nonzero| && InClass(t, c, q) && nonzero[q]
      && PairOf(c, r, a, b) && Earlier(a, b, i, j + 1)
      ensures Rank(nonzero, q) < |now[r]| && now[r][Rank(nonzero, q)] == SlotValue(t, c, q, r)
    {
      if a == i && b == j {
        assert if r < c then r == i && c == j else c == i && r == j - 1;
      } else {
        assert Earlier(a, b, i, j) && !PairOf(c, r, i, j);
        assert was[r][Rank(nonzero, q)] == SlotValue(t, c, q, r);
      }
    }
  }

  /** The coefficients of one pair: those of class i go to row j - 1, those of class j to row i. */
  method FillPair(t: Training, nonzero: seq<bool>, nzStart: seq<nat>, svCoef: seq<seq<real>>, i: nat, j: nat)
    returns (filled: seq<seq<real>>)
    requires t.Valid() && |nonzero| == t.Points() && i < j < t.N() && FilledTo(t, nonzero, svCoef, i, j)
    requires |nzStart| == t.N()
    requires forall c :: 0 <= c < t.N() ==> t.Start(c) <= |nonzero| && nzStart[c] == Rank(nonzero, t.Start(c))
    ensures FilledTo(t, nonzero, filled, i, j + 1)
  {
    ClassBounds(t, i, j);
    var alpha, ci, cj := t.F(i, j).alpha, t.count[i], t.count[j];
    var first := FillRow(nonzero, svCoef[j - 1], alpha, 0, t.Start(i), ci, nzStart[i]);
    var mid := svCoef[j - 1 := first];
    var second := FillRow(nonzero, mid[i], alpha, ci, t.Start(j), cj, nzStart[j]);
    filled := mid[i := second];
    RowsFillPair(t, nonzero, svCoef, first, second, i, j);
    FilledPairNext(t, nonzero, svCoef, filled, i, j);
  }

  /** first and second are what the two inner loops make of rows j - 1 and i. */
  ghost predicate RowsWritten(t: Training, nonzero: seq<bool>, was: seq<seq<real>>, first: seq<real>, second: seq<real>,
                              i: nat, j: nat)
  {
    && t.Valid() && |nonzero| == t.Points() && i < j < t.N() && |was| == t.N() - 1
    && (forall r :: 0 <= r < |was| ==> |was[r]| == Rank(nonzero, |nonzero|))
    && t.Start(i) + t.count[i] <= t.Start(j) && t.Start(j) + t.count[j] <= |nonzero|
    && |first| == |second| == Rank(nonzero, |nonzero|)
    && RowFilled(nonzero, was[j - 1], first, t.F(i, j).alpha[0..], t.Start(i), t.count[i])
    && RowFilled(nonzero, was[j - 1 := first][i], second, t.F(i, j).alpha[t.count[i]..], t.Start(j), t.count[j])
  }

  lemma FirstRowHolds(t: Training, nonzero: seq<bool>, was: seq<seq<real>>, first: seq<real>, second: seq<real>, i: nat,
                      j: nat, q: nat)
    requires RowsWritten(t, nonzero, was, first, second, i, j) && q < |nonzero| && nonzero[q] && InClass(t, i, q)
    ensures Rank(nonzero, q) < |first| && first[Rank(nonzero, q)] == t.Coefficient(i, j, q)
  {
    hide Rank, OthersKept;
    assert first[Rank(nonzero, q)] == t.F(i, j).alpha[0..][q - t.Start(i)];
  }

  /** The second loop leaves the first one's slots alone when both write to one row. */
  lemma FirstRowStays(t: Training, nonzero: seq<bool>, was: seq<seq<real>>, first: seq<real>, second: seq<real>, i: nat,
                      j: nat, q: nat)
    requires RowsWritten(t, nonzero, was, first, second, i, j) && q < |nonzero| && nonzero[q] && InClass(t, i, q)
    requires i == j - 1
    requires Rank(nonzero, q) < |first|
    ensures second[Rank(nonzero, q)] == first[Rank(nonzero, q)]
  {
    hide Rank, OthersKept, SlotsHold, Training.Valid, Training.F;
    SlotElsewhere(t, nonzero, j, i, q);
    KeptAt(nonzero, first, second, t.Start(j), t.count[j], Rank(nonzero, q));
  }

  lemma SecondRowHolds(t: Training, nonzero: seq<bool>, was: seq<seq<real>>, first: seq<real>, second: seq<real>,
                       i: nat, j: nat, q: nat)
    requires RowsWritten(t, nonzero, was, first, second, i, j) && q < |nonzero| && nonzero[q] && InClass(t, j, q)
    ensures Rank(nonzero, q) < |second| && second[Rank(nonzero, q)] == t.Coefficient(i, j, q)
  {
    hide Rank, OthersKept;
    assert second[Rank(nonzero, q)] == t.F(i, j).alpha[t.count[i]..][q - t.Start(j)];
  }

  lemma OtherSlotStays(t: Training, nonzero: seq<bool>, was: seq<seq<real>>, first: seq<real>, second: seq<real>,
                       i: nat, j: nat, c: nat, q: nat, r: nat)
    requires RowsWritten(t, nonzero, was, first, second, i, j) && c < t.N() && r < |was|
    requires q < |nonzero| && nonzero[q] && InClass(t, c, q) && !PairOf(c, r, i, j) && Rank(nonzero, q) < |was[r]|
    ensures was[j - 1 := first][i := second][r][Rank(nonzero, q)] == was[r][Rank(nonzero, q)]
  {
    hide Rank, Training.Valid, InClass, Training.Coefficient, Training.F, OthersKept, SlotsHold;
    var k := Rank(nonzero, q);
    if r == j - 1 && c != i {
      SlotElsewhere(t, nonzero, i, c, q);
      KeptAt(nonzero, was[r], first, t.Start(i), t.count[i], k);
    }
    if r == i && c != j {
      SlotElsewhere(t, nonzero, j, c, q);
      KeptAt(nonzero, was[j - 1 := first][i], second, t.Start(j), t.count[j], k);
    }
  }

  lemma RowsWrittenSizes(t: Training, nonzero: seq<bool>, was: seq<seq<real>>, first: seq<real>, second: seq<real>,
                         i: nat, j: nat)
    requires RowsWritten(t, nonzero, was, first, second, i, j)
    ensures t.Valid() && |nonzero| == t.Points() && i < j < t.N() && |was| == t.N() - 1
    ensures forall r :: 0 <= r < |was| ==> |was[r]| == Rank(nonzero, |nonzero|)
    ensures |first| == |second| == Rank(nonzero, |nonzero|)
  {
  }

  lemma RowsFillPair(t: Training, nonzero: seq<bool>, was: seq<seq<real>>, first: seq<real>, second: seq<real>, i: nat,
                     j: nat)
    requires RowsWritten(t, nonzero, was, first, second, i, j)
    ensures PairFilled(t, nonzero, was, was[j - 1 := first][i := second], i, j)
  {
    RowsWrittenSizes(t, nonzero, was, first, second, i, j);
    var now := was[j - 1 := first][i := second];
    hide RowsWritten, Rank, InClass, PairOf, Training.Coefficient, Training.Valid;
    forall q | 0 <= q < |nonzero| && nonzero[q] && InClass(t, i, q)
      ensures Rank(nonzero, q) < |now[j - 1]| && now[j - 1][Rank(nonzero, q)] == t.Coefficient(i, j, q)
    {
      FirstRowHolds(t, nonzero, was, first, second, i, j, q);
      if i == j - 1 {
        FirstRowStays(t, nonzero, was, first, second, i, j, q);
      }
    }
    forall q | 0 <= q < |nonzero| && nonzero[q] && InClass(t, j, q)
      ensures Rank(nonzero, q) < |now[i]| && now[i][Rank(nonzero, q)] == t.Coefficient(i, j, q)
    {
      SecondRowHolds(t, nonzero, was, first, second, i, j, q);
    }
    forall c, q, r | 0 <= c < t.N() && 0 <= r < |now| && 0 <= q < |nonzero| && nonzero[q] && InClass(t, c, q)
                     && !PairOf(c, r, i, j) && Rank(nonzero, q) < |now[r]|
      ensures now[r][Rank(nonzero, q)] == was[r][Rank(nonzero, q)]
    {
      OtherSlotStays(t, nonzero, was, first, second, i, j, c, q, r);
    }
  }

  lemma FilledRow(t: Training, nonzero: seq<bool>, svCoef: seq<seq<real>>, i: nat)
    requires t.Valid() && |nonzero| == t.Points() && i < t.N() && FilledTo(t, nonzero, svCoef, i, t.N())
    ensures FilledTo(t, nonzero, svCoef, i + 1, i + 2)
  {
    hide Training.Valid, Training.Coefficient, InClass, Rank;
    forall c, q, r, a, b |
      0 <= c < t.N() && 0 <= r < t.N() - 1 && 0 <= q < |nonzero| && InClass(t, c, q) && nonzero[q]
      && PairOf(c, r, a, b) && Earlier(a, b, i + 1, i + 2)
      ensures Rank(nonzero, q) < |svCoef[r]| && svCoef[r][Rank(nonzero, q)] == SlotValue(t, c, q, r)
    {
      assert Earlier(a, b, i, t.N());
    }
  }

  lemma AllFilled(t: Training, nonzero: seq<bool>, svCoef: seq<seq<real>>)
    requires t.Valid() && |nonzero| == t.Points() && FilledTo(t, nonzero, svCoef, t.N(), t.N() + 1)
    ensures TableFilled(t, nonzero, svCoef)
  {
    hide Training.Valid, Training.Coefficient, InClass, Rank;
    forall c, q, r | 0 <= c < t.N() && 0 <= r < t.N() - 1 && 0 <= q < |nonzero| && InClass(t, c, q) && nonzero[q]
      ensures Rank(nonzero, q) < |svCoef[r]| && svCoef[r][Rank(nonzero, q)] == SlotValue(t, c, q, r)
    {
      var a, b := if r < c then r else c, if r < c then c else r + 1;
      assert PairOf(c, r, a, b) && Earlier(a, b, t.N(), t.N() + 1);
    }
  }

  /** Starts of consecutive blocks of the given sizes. */
  method Starts(sizes: seq<nat>) returns (start: seq<nat>)
    requires |sizes| >= 1
    ensures |start| == |sizes| && forall i :: 0 <= i < |sizes| ==> start[i] == StartOf(sizes, i)
  {
    start := [0];
    for i := 1 to |sizes|
      invariant |start| == i && forall k :: 0 <= k < i ==> start[k] == StartOf(sizes, k)
    {
      start := start + [start[i - 1] + sizes[i - 1]];
    }
  }

  method FillTable(t: Training, nonzero: seq<bool>, nSV: seq<nat>) returns (svCoef: seq<seq<real>>)
    requires t.Valid() && |nonzero| == t.Points() && CountsKept(t, nonzero, nSV)
    ensures TableFilled(t, nonzero, svCoef)
  {
    hide *;
    CountedStarts(t, nonzero, nSV);
    var nzStart := Starts(nSV);
    var total := Rank(nonzero, |nonzero|);
    svCoef := seq(t.N() - 1, _ => seq(total, _ => 0.0));
    NothingFilled(t, nonzero, svCoef);
    for i := 0 to t.N()
      invariant FilledTo(t, nonzero, svCoef, i, i + 1)
    {
      for j := i + 1 to t.N()
        invariant FilledTo(t, nonzero, svCoef, i, j)
      {
        svCoef := FillPair(t, nonzero, nzStart, svCoef, i, j);
      }
      FilledRow(t, nonzero, svCoef, i);
    }
    AllFilled(t, nonzero, svCoef);
  }

  lemma CountedStarts(t: Training, nonzero: seq<bool>, nSV: seq<nat>)
    requires t.Valid() && |nonzero| == t.Points() && CountsKept(t, nonzero, nSV)
    ensures |nSV| == t.N() >= 1
    ensures forall c :: 0 <= c < t.N() ==> t.Start(c) <= |nonzero| && StartOf(nSV, c) == Rank(nonzero, t.Start(c))
  {
    hide StartOf, Rank;
  }

  lemma NothingFilled(t: Training, nonzero: seq<bool>, svCoef: seq<seq<real>>)
    requires t.Valid() && |nonzero| == t.Points() && |svCoef| == t.N() - 1
    requires forall r :: 0 <= r < |svCoef| ==> |svCoef[r]| == Rank(nonzero, |nonzero|)
    ensures FilledTo(t, nonzero, svCoef, 0, 1)
  {
    hide Rank, Training.Valid, InClass, SlotValue;
  }

  /** The model svm_train builds from the pairwise functions. */
  method Pack(t: Training) returns (m: Model, ghost nonzero: seq<bool>)
    requires t.Valid()
    ensures Packed(t, nonzero, m)
  {
    var marks := MarkNonzero(t);
    var rho := seq(|t.f|, p requires 0 <= p < |t.f| => t.f[p].rho);
    var nSV := CountKept(t, marks);
    var sv := ListKept(marks);
    var svCoef := FillTable(t, marks, nSV);
    m, nonzero := Model(nSV, sv, rho, svCoef), marks;
    hide MarksUsed, CountsKept, ListsKept, TableFilled, Training.Valid;
  }

  // ---- svm_predict_values ----

  ghost predicate Kernels(m: Model, kernel: seq<real>, kvalue: seq<real>)
  {
    |kvalue| == |m.sv| && forall k :: 0 <= k < |m.sv| ==> m.sv[k] < |kernel| && kvalue[k] == kernel[m.sv[k]]
  }

  lemma ListsBounded(nonzero: seq<bool>, sv: seq<nat>, k: nat)
    requires ListsKept(nonzero, sv) && k < |sv|
    ensures sv[k] < |nonzero|
  {
    var q := PointAt(nonzero, |nonzero|, k);
  }

  lemma {:induction false} PointAt(nonzero: seq<bool>, n: nat, k: nat) returns (q: nat)
    requires n <= |nonzero| && k < Rank(nonzero, n)
    ensures q < n && nonzero[q] && Rank(nonzero, q) == k
  {
    if nonzero[n - 1] && Rank(nonzero, n - 1) == k {
      q := n - 1;
    } else {
      q := PointAt(nonzero, n - 1, k);
    }
  }

  /** The kept points of class c in a row carry the coefficients of one pair. */
  lemma ClassCarries(t: Training, nonzero: seq<bool>, m: Model, kernel: seq<real>, kvalue: seq<real>,
                     c: nat, r: nat, i: nat, j: nat, a: seq<real>)
    requires t.Valid() && Packed(t, nonzero, m) && |kernel| == t.Points() && Kernels(m, kernel, kvalue)
    requires i < j < t.N() && c < t.N() && r < t.N() - 1 && PairOf(c, r, i, j)
    requires t.Start(c) + t.count[c] <= |nonzero| && |a| >= t.count[c]
    requires forall q :: t.Start(c) <= q < t.Start(c) + t.count[c] ==> a[q - t.Start(c)] == t.Coefficient(i, j, q)
    ensures |m.svCoef| == t.N() - 1 && |m.svCoef[r]| == |kvalue|
    ensures Carries(nonzero, a, kernel, m.svCoef[r], kvalue, t.Start(c), t.count[c])
  {
    hide Training.Valid, Training.Coefficient, Rank, CountsKept;
    forall q | t.Start(c) <= q < t.Start(c) + t.count[c] && nonzero[q]
      ensures Rank(nonzero, q) < |m.svCoef[r]| && m.svCoef[r][Rank(nonzero, q)] == a[q - t.Start(c)]
      ensures kvalue[Rank(nonzero, q)] == kernel[q]
    {
      assert InClass(t, c, q);
      assert m.svCoef[r][Rank(nonzero, q)] == SlotValue(t, c, q, r);
    }
    forall q | t.Start(c) <= q < t.Start(c) + t.count[c] && !nonzero[q]
      ensures a[q - t.Start(c)] == 0.0
    {
      assert !t.Used(q);
      assert t.Coefficient(i, j, q) == 0.0;
    }
  }

  lemma CountOf(t: Training, nonzero: seq<bool>, nSV: seq<nat>, c: nat)
    requires t.Valid() && |nonzero| == t.Points() && CountsKept(t, nonzero, nSV) && c < t.N()
    ensures |nSV| == t.N() == |t.count| && t.Start(c) + t.count[c] <= |nonzero|
    ensures StartOf(nSV, c) == Rank(nonzero, t.Start(c))
    ensures StartOf(nSV, c) + nSV[c] == Rank(nonzero, t.Start(c) + t.count[c])
  {
    hide Training.Valid, Rank;
    assert StartOf(nSV, c + 1) == Rank(nonzero, t.Start(c + 1));
  }

  lemma PackedSizes(t: Training, nonzero: seq<bool>, m: Model)
    requires t.Valid() && Packed(t, nonzero, m)
    ensures |nonzero| == t.Points() && |m.sv| == Rank(nonzero, |nonzero|) && |m.svCoef| == t.N() - 1
    ensures CountsKept(t, nonzero, m.nSV) && forall r :: 0 <= r < |m.svCoef| ==> |m.svCoef[r]| == |m.sv|
  {
    hide Training.Valid, Rank, CountsKept, InClass, SlotValue;
  }

  /** A packed model and the kernel values of its kept points. */
  ghost predicate Prepared(t: Training, nonzero: seq<bool>, m: Model, kernel: seq<real>, kvalue: seq<real>)
  {
    t.Valid() && Packed(t, nonzero, m) && |kernel| == t.Points() && Kernels(m, kernel, kvalue)
  }

  /** a lists the coefficients that pair (i, j) gives to class c, whose slots are in row r. */
  ghost predicate ClassWeights(t: Training, nonzero: seq<bool>, c: nat, r: nat, i: nat, j: nat, a: seq<real>)
    requires t.Valid() && i < j < t.N()
  {
    && c < t.N() && r < t.N() - 1 && PairOf(c, r, i, j) && t.Start(c) + t.count[c] <= |nonzero| && |a| >= t.count[c]
    && forall q :: t.Start(c) <= q < t.Start(c) + t.count[c] ==> a[q - t.Start(c)] == t.Coefficient(i, j, q)
  }

  lemma PreparedSizes(t: Training, nonzero: seq<bool>, m: Model, kernel: seq<real>, kvalue: seq<real>)
    requires Prepared(t, nonzero, m, kernel, kvalue)
    ensures t.Valid() && |nonzero| == t.Points() == |kernel| && |kvalue| == Rank(nonzero, |nonzero|)
    ensures |m.svCoef| == t.N() - 1
    ensures CountsKept(t, nonzero, m.nSV) && |m.nSV| == t.N() == |t.count|
    ensures forall r :: 0 <= r < |m.svCoef| ==> |m.svCoef[r]| == |kvalue|
  {
    PackedSizes(t, nonzero, m);
    hide Training.Valid, Rank, TableFilled, MarksUsed, ListsKept;
  }

  lemma ClassCarriesAll(t: Training, nonzero: seq<bool>, m: Model, kernel: seq<real>, kvalue: seq<real>,
                        c: nat, r: nat, i: nat, j: nat, a: seq<real>)
    requires Prepared(t, nonzero, m, kernel, kvalue) && i < j < t.N() && ClassWeights(t, nonzero, c, r, i, j, a)
    ensures c < t.N() && r < |m.svCoef| && |m.svCoef[r]| == |kvalue| && |a| >= t.count[c]
    ensures t.Start(c) + t.count[c] <= |nonzero|
    ensures Carries(nonzero, a, kernel, m.svCoef[r], kvalue, t.Start(c), t.count[c])
  {
    ClassCarries(t, nonzero, m, kernel, kvalue, c, r, i, j, a);
    hide Training.Valid, Packed, Kernels, Training.Coefficient, PairOf, Carries;
  }

  /** The sum over one class in one row is the pair's sum over the whole class. */
  lemma ClassSum(t: Training, nonzero: seq<bool>, m: Model, kernel: seq<real>, kvalue: seq<real>,
                 c: nat, r: nat, i: nat, j: nat, a: seq<real>)
    requires Prepared(t, nonzero, m, kernel, kvalue) && i < j < t.N() && ClassWeights(t, nonzero, c, r, i, j, a)
    ensures c < t.N() && r < |m.svCoef| && |m.svCoef[r]| == |kvalue| && |m.nSV| == t.N()
    ensures |a| >= t.count[c] && |kernel| >= t.Start(c) + t.count[c]
    ensures StartOf(m.nSV, c) + m.nSV[c] <= |kvalue|
    ensures PackedSum(m.svCoef[r], kvalue, StartOf(m.nSV, c), m.nSV[c]) == SumOver(a, kernel, t.Start(c), t.count[c])
  {
    hide Prepared, ClassWeights, Carries, PackedSum, SumOver, StartOf, Rank, Training.Start, Training.Valid,
      Training.Coefficient, Packed, Kernels, PairOf;
    ClassCarriesAll(t, nonzero, m, kernel, kvalue, c, r, i, j, a);
    var s, e := t.Start(c), t.Start(c) + t.count[c];
    ClassPlace(t, nonzero, m, kernel, kvalue, c, s, e);
    PackedSumAt(nonzero, a, kernel, m.svCoef[r], kvalue, s, t.count[c], e, StartOf(m.nSV, c), m.nSV[c]);
  }

  lemma ClassPlace(t: Training, nonzero: seq<bool>, m: Model, kernel: seq<real>, kvalue: seq<real>, c: nat, s: nat,
                   e: nat)
    requires Prepared(t, nonzero, m, kernel, kvalue) && c < t.N() && s == t.Start(c) && e == s + t.count[c]
    ensures |nonzero| == |kernel| && |kvalue| == Rank(nonzero, |nonzero|) && |m.nSV| == t.N() == |t.count|
    ensures s <= e <= |nonzero| && StartOf(m.nSV, c) == Rank(nonzero, s)
    ensures m.nSV[c] == Rank(nonzero, e) - Rank(nonzero, s)
  {
    hide *;
    PreparedSizes(t, nonzero, m, kernel, kvalue);
    CountOf(t, nonzero, m.nSV, c);
  }

  lemma PairWeights(t: Training, nonzero: seq<bool>, i: nat, j: nat)
    requires t.Valid() && |nonzero| == t.Points() && i < j < t.N()
    ensures t.count[i] <= |t.F(i, j).alpha|
    ensures ClassWeights(t, nonzero, i, j - 1, i, j, t.F(i, j).alpha[..t.count[i]])
    ensures ClassWeights(t, nonzero, j, i, i, j, t.F(i, j).alpha[t.count[i]..])
  {
    ClassBounds(t, i, j);
    hide Training.Valid;
  }

  lemma PackedOffset(t: Training, nonzero: seq<bool>, m: Model, kernel: seq<real>, kvalue: seq<real>, i: nat, j: nat)
    requires Prepared(t, nonzero, m, kernel, kvalue) && i < j < t.N()
    ensures PairNo(t.N(), i, j) < |m.rho| && m.rho[PairNo(t.N(), i, j)] == t.F(i, j).rho
  {
    PairInRange(t.N(), i, j);
    hide PairNo, CountsKept, ListsKept, TableFilled, MarksUsed, Kernels;
  }

  /** The packed sums of a pair give its own decision value. */
  lemma PairRoundTrip(t: Training, nonzero: seq<bool>, m: Model, kernel: seq<real>, kvalue: seq<real>, i: nat, j: nat)
    requires t.Valid() && Packed(t, nonzero, m) && |kernel| == t.Points() && Kernels(m, kernel, kvalue) && i < j < t.N()
    ensures |m.svCoef| == t.N() - 1 && |m.svCoef[j - 1]| == |kvalue| == |m.svCoef[i]| && |m.nSV| == t.N()
    ensures StartOf(m.nSV, i) + m.nSV[i] <= |kvalue| && StartOf(m.nSV, j) + m.nSV[j] <= |kvalue|
    ensures PairNo(t.N(), i, j) < |m.rho|
    ensures PackedSum(m.svCoef[j - 1], kvalue, StartOf(m.nSV, i), m.nSV[i])
            + PackedSum(m.svCoef[i], kvalue, StartOf(m.nSV, j), m.nSV[j]) - m.rho[PairNo(t.N(), i, j)]
            == t.Decision(i, j, kernel)
  {
    assert Prepared(t, nonzero, m, kernel, kvalue);
    hide Packed, PackedSum, SumOver, Training.Coefficient, Kernels, Training.Valid, RowStart, Prepared, ClassWeights,
      StartOf, Rank, PairNo;
    PreparedSizes(t, nonzero, m, kernel, kvalue);
    PairWeights(t, nonzero, i, j);
    PackedOffset(t, nonzero, m, kernel, kvalue, i, j);
    var alpha := t.F(i, j).alpha;
    ClassSum(t, nonzero, m, kernel, kvalue, i, j - 1, i, j, alpha[..t.count[i]]);
    ClassSum(t, nonzero, m, kernel, kvalue, j, i, i, j, alpha[t.count[i]..]);
  }

  // ---- votes ----

  /** The class a pair votes for. */
  function Winner(n: nat, dec: seq<real>, i: nat, j: nat): nat
    requires i < j < n && PairNo(n, i, j) < |dec|
  {
    if dec[PairNo(n, i, j)] > 0.0 then i else j
  }

  /** Votes for class c among the pairs (i, i + 1), ..., (i, j - 1). */
  function RowVotes(n: nat, dec: seq<real>, c: nat, i: nat, j: nat): nat
    requires i < n && j <= n && |dec| >= Pairs(n)
  {
    if j <= i + 1 then 0 else
      PairInRange(n, i, j - 1);
      RowVotes(n, dec, c, i, j - 1) + if Winner(n, dec, i, j - 1) == c then 1 else 0
  }

  /** Votes for class c among all pairs of the first i classes. */
  function Votes(n: nat, dec: seq<real>, c: nat, i: nat): nat
    requires i <= n && |dec| >= Pairs(n)
  {
    if i == 0 then 0 else Votes(n, dec, c, i - 1) + RowVotes(n, dec, c, i - 1, n)
  }

  /** best is the first class with the most votes. */
  ghost predicate FirstMost(n: nat, dec: seq<real>, best: nat)
    requires |dec| >= Pairs(n)
  {
    && best < n
    && (forall c :: 0 <= c < n ==> Votes(n, dec, c, n) <= Votes(n, dec, best, n))
    && forall c :: 0 <= c < best ==> Votes(n, dec, c, n) < Votes(n, dec, best, n)
  }

  /** The decision value of the pair is positive. */
  ghost predicate Positive(n: nat, dec: seq<real>, i: nat, j: nat)
    requires i < j < n && |dec| >= Pairs(n)
  {
    PairInRange(n, i, j);
    dec[PairNo(n, i, j)] > 0.0
  }

  /** Class c wins against k: with a positive value where it comes first, otherwise with one that is not. */
  ghost predicate Beats(n: nat, dec: seq<real>, c: nat, k: nat)
    requires c < n && k < n && c != k && |dec| >= Pairs(n)
  {
    if c < k then Positive(n, dec, c, k) else !Positive(n, dec, k, c)
  }

  /** The classes c wins against. */
  ghost function Beaten(n: nat, dec: seq<real>, c: nat): set<nat>
    requires c < n && |dec| >= Pairs(n)
  {
    set k: nat | k < n && k != c && Beats(n, dec, c, k)
  }

  /** Those of them met in the pairs before (i, j). */
  ghost function BeatenTo(n: nat, dec: seq<real>, c: nat, i: nat, j: nat): set<nat>
    requires c < n && |dec| >= Pairs(n)
  {
    set k: nat | k < n && k != c && Beats(n, dec, c, k) && if c < k then Earlier(c, k, i, j) else Earlier(k, c, i, j)
  }

  lemma BeatenNext(n: nat, dec: seq<real>, c: nat, i: nat, j: nat)
    requires i < j < n && c < n && |dec| >= Pairs(n)
    ensures PairNo(n, i, j) < |dec|
    ensures |BeatenTo(n, dec, c, i, j + 1)| == |BeatenTo(n, dec, c, i, j)| + if Winner(n, dec, i, j) == c then 1 else 0
  {
    PairInRange(n, i, j);
    assert Winner(n, dec, i, j) == c <==> (c == i && Beats(n, dec, i, j)) || (c == j && Beats(n, dec, j, i));
    hide PairNo, Pairs, Beats, Winner;
    var was, now := BeatenTo(n, dec, c, i, j), BeatenTo(n, dec, c, i, j + 1);
    forall k: nat
      ensures k in now <==> k in was || (Winner(n, dec, i, j) == c && ((c == i && k == j) || (c == j && k == i)))
    {
      MeetsNext(c, k, i, j);
    }
    hide BeatenTo, Earlier;
    if Winner(n, dec, i, j) == c {
      var other := if c == i then j else i;
      NotYetBeaten(n, dec, c, i, j, other);
      assert now == was + {other};
    } else {
      assert now == was;
    }
  }

  lemma MeetsNext(c: nat, k: nat, i: nat, j: nat)
    requires i < j
    ensures c < k ==> (Earlier(c, k, i, j + 1) <==> Earlier(c, k, i, j) || (c == i && k == j))
    ensures k < c ==> (Earlier(k, c, i, j + 1) <==> Earlier(k, c, i, j) || (k == i && c == j))
  {
  }

  lemma NotYetBeaten(n: nat, dec: seq<real>, c: nat, i: nat, j: nat, other: nat)
    requires i < j < n && c < n && |dec| >= Pairs(n) && ((c == i && other == j) || (c == j && other == i))
    ensures other !in BeatenTo(n, dec, c, i, j)
  {
    hide Pairs, Beats;
  }

  lemma {:induction false} VotesAreWinsTo(n: nat, dec: seq<real>, c: nat, i: nat, j: nat)
    requires c < n && i < n && i < j <= n && |dec| >= Pairs(n)
    ensures Votes(n, dec, c, i) + RowVotes(n, dec, c, i, j) == |BeatenTo(n, dec, c, i, j)|
    decreases i, j
  {
    hide Pairs, PairNo, Beats, Winner, BeatenTo;
    if j > i + 1 {
      BeatenNext(n, dec, c, i, j - 1);
      VotesAreWinsTo(n, dec, c, i, j - 1);
    } else if i > 0 {
      VotesAreWinsTo(n, dec, c, i - 1, n);
      SameBeaten(n, dec, c, i);
    } else {
      NoneBeaten(n, dec, c);
    }
  }

  lemma SameBeaten(n: nat, dec: seq<real>, c: nat, i: nat)
    requires c < n && 0 < i < n && |dec| >= Pairs(n)
    ensures BeatenTo(n, dec, c, i, i + 1) == BeatenTo(n, dec, c, i - 1, n)
  {
    hide Pairs, Beats;
  }

  lemma NoneBeaten(n: nat, dec: seq<real>, c: nat)
    requires c < n && |dec| >= Pairs(n)
    ensures BeatenTo(n, dec, c, 0, 1) == {}
  {
    hide Pairs, Beats;
  }

  /** The votes of a class are the classes it wins against. */
  lemma VotesAreWins(n: nat, dec: seq<real>, c: nat)
    requires c < n && |dec| >= Pairs(n)
    ensures Votes(n, dec, c, n) == |Beaten(n, dec, c)|
  {
    hide Pairs, Beats;
    VotesAreWinsTo(n, dec, c, n - 1, n);
    assert BeatenTo(n, dec, c, n - 1, n) == Beaten(n, dec, c);
  }

  method SumPacked(row: seq<real>, kvalue: seq<real>, from: nat, len: nat, init: real) returns (sum: real)
    requires from + len <= |row| == |kvalue|
    ensures sum == init + PackedSum(row, kvalue, from, len)
  {
    sum := init;
    for k := 0 to len
      invariant sum == init + PackedSum(row, kvalue, from, k)
    {
      sum := sum + row[from + k] * kvalue[from + k];
    }
  }

  method KernelValues(m: Model, kernel: seq<real>) returns (kvalue: seq<real>)
    requires forall k :: 0 <= k < |m.sv| ==> m.sv[k] < |kernel|
    ensures Kernels(m, kernel, kvalue)
  {
    kvalue := [];
    for i := 0 to |m.sv|
      invariant |kvalue| == i && forall k :: 0 <= k < i ==> kvalue[k] == kernel[m.sv[k]]
    {
      kvalue := kvalue + [kernel[m.sv[i]]];
    }
  }

  /** The decision values of the pairs before (i, j). */
  ghost predicate Decided(t: Training, kernel: seq<real>, dec: seq<real>, i: nat, j: nat)
    requires t.Valid() && |kernel| == t.Points()
  {
    forall a, b :: 0 <= a < b < t.N() && Earlier(a, b, i, j)
      ==> PairNo(t.N(), a, b) < |dec| && dec[PairNo(t.N(), a, b)] == t.Decision(a, b, kernel)
  }

  lemma DecidedNext(t: Training, kernel: seq<real>, dec: seq<real>, i: nat, j: nat, sum: real)
    requires t.Valid() && |kernel| == t.Points() && i < j < t.N() && Decided(t, kernel, dec, i, j)
    requires |dec| == PairNo(t.N(), i, j) && sum == t.Decision(i, j, kernel)
    ensures Decided(t, kernel, dec + [sum], i, j + 1)
  {
    hide Training.Valid, Training.Decision, RowStart;
  }

  lemma DecidedRow(t: Training, kernel: seq<real>, dec: seq<real>, i: nat)
    requires t.Valid() && |kernel| == t.Points() && i < t.N() && Decided(t, kernel, dec, i, t.N())
    ensures Decided(t, kernel, dec, i + 1, i + 2)
  {
    hide Training.Valid, Training.Decision, PairNo;
    forall a, b | 0 <= a < b < t.N() && Earlier(a, b, i + 1, i + 2)
      ensures PairNo(t.N(), a, b) < |dec| && dec[PairNo(t.N(), a, b)] == t.Decision(a, b, kernel)
    {
      assert Earlier(a, b, i, t.N());
    }
  }

  /** The decision value of one pair: its two packed sums minus rho. */
  method DecidePair(m: Model, kvalue: seq<real>, start: seq<nat>, i: nat, j: nat, p: nat,
                    ghost t: Training, ghost nonzero: seq<bool>, ghost kernel: seq<real>) returns (sum: real)
    requires t.Valid() && Packed(t, nonzero, m) && |kernel| == t.Points() && Kernels(m, kernel, kvalue)
    requires i < j < t.N() && p == PairNo(t.N(), i, j)
    requires |start| == |m.nSV| && forall c :: 0 <= c < |start| ==> start[c] == StartOf(m.nSV, c)
    ensures sum == t.Decision(i, j, kernel)
  {
    hide *;
    PairRoundTrip(t, nonzero, m, kernel, kvalue, i, j);
    sum := SumPacked(m.svCoef[j - 1], kvalue, start[i], m.nSV[i], 0.0);
    sum := SumPacked(m.svCoef[i], kvalue, start[j], m.nSV[j], sum);
    sum := sum - m.rho[p];
  }

  /** The decision values of all pairs, in the order of their numbers. */
  method DecisionValues(m: Model, kernel: seq<real>, ghost t: Training, ghost nonzero: seq<bool>)
    returns (dec: seq<real>)
    requires t.Valid() && Packed(t, nonzero, m) && |kernel| == t.Points()
    ensures |dec| == Pairs(t.N()) && Decided(t, kernel, dec, t.N(), t.N() + 1)
  {
    hide *;
    DecisionFacts(m, kernel, t, nonzero);
    var n := |m.nSV|;
    var kvalue := KernelValues(m, kernel);
    var start := Starts(m.nSV);
    dec := [];
    RowsEnd(n, 0);
    for i := 0 to n
      invariant |dec| == RowStartOrEnd(n, i) && Decided(t, kernel, dec, i, i + 1)
    {
      RowsEnd(n, i);
      for j := i + 1 to n
        invariant |dec| == RowStart(n, i) + (j - i - 1) && Decided(t, kernel, dec, i, j)
      {
        PairNoIs(n, i, j);
        var sum := DecidePair(m, kvalue, start, i, j, |dec|, t, nonzero, kernel);
        DecidedNext(t, kernel, dec, i, j, sum);
        dec := dec + [sum];
      }
      DecidedRow(t, kernel, dec, i);
    }
  }

  lemma DecisionFacts(m: Model, kernel: seq<real>, t: Training, nonzero: seq<bool>)
    requires t.Valid() && Packed(t, nonzero, m) && |kernel| == t.Points()
    ensures |m.nSV| == t.N() >= 1 && Decided(t, kernel, [], 0, 1) && forall k :: 0 <= k < |m.sv| ==> m.sv[k] < |kernel|
    ensures RowStartOrEnd(t.N(), 0) == 0 && RowStartOrEnd(t.N(), t.N()) == Pairs(t.N())
  {
    forall k | 0 <= k < |m.sv|
      ensures m.sv[k] < |kernel|
    {
      ListsBounded(nonzero, m.sv, k);
    }
    hide TableFilled, ListsKept, Rank, Training.Decision;
  }

  /** Number of the first pair of row i, or of all pairs past the last row. */
  ghost function RowStartOrEnd(n: nat, i: nat): nat
  {
    if i < n then RowStart(n, i) else Pairs(n)
  }

  lemma RowsEnd(n: nat, i: nat)
    requires i < n
    ensures RowStartOrEnd(n, i) == RowStart(n, i) && RowStartOrEnd(n, i + 1) == RowStart(n, i) + (n - i - 1)
  {
  }

  lemma PairNoIs(n: nat, i: nat, j: nat)
    requires i < j < n
    ensures PairNo(n, i, j) == RowStart(n, i) + (j - i - 1)
  {
  }

  /** Every pair adds one vote; the first class with the most votes wins. */
  method CountVotes(n: nat, dec: seq<real>) returns (best: nat, ghost vote: seq<nat>)
    requires n >= 1 && |dec| == Pairs(n)
    ensures |vote| == n && (forall c :: 0 <= c < n ==> vote[c] == Votes(n, dec, c, n)) && FirstMost(n, dec, best)
  {
    hide *;
    var votes := seq(n, _ => 0);
    var p := 0;
    NoVotes(n, dec, votes);
    for i := 0 to n
      invariant p == RowStartOrEnd(n, i) && Voted(n, dec, votes, i, i + 1)
    {
      RowsEnd(n, i);
      for j := i + 1 to n
        invariant p == RowStart(n, i) + (j - i - 1) && Voted(n, dec, votes, i, j)
      {
        PairInRange(n, i, j);
        PairNoIs(n, i, j);
        VotesNext(n, dec, votes, i, j);
        if dec[p] > 0.0 {
          votes := votes[i := votes[i] + 1];
        } else {
          votes := votes[j := votes[j] + 1];
        }
        p := p + 1;
      }
      VotesRow(n, dec, votes, i);
    }
    AllVotes(n, dec, votes);
    best := 0;
    for i := 1 to n
      invariant best < i && (forall c :: 0 <= c < i ==> votes[c] <= votes[best])
      invariant forall c :: 0 <= c < best ==> votes[c] < votes[best]
    {
      if votes[i] > votes[best] {
        best := i;
      }
    }
    FirstMostVotes(n, dec, votes, best);
    vote := votes;
  }

  /** The votes of the pairs before (i, j). */
  ghost predicate Voted(n: nat, dec: seq<real>, votes: seq<nat>, i: nat, j: nat)
    requires |dec| >= Pairs(n)
  {
    && |votes| == n && i <= n && (i < n ==> j <= n)
    && forall c :: 0 <= c < n ==> votes[c] == Votes(n, dec, c, i) + if i < n then RowVotes(n, dec, c, i, j) else 0
  }

  lemma NoVotes(n: nat, dec: seq<real>, votes: seq<nat>)
    requires n >= 1 && |dec| == Pairs(n) && |votes| == n && forall c :: 0 <= c < n ==> votes[c] == 0
    ensures Voted(n, dec, votes, 0, 1) && RowStartOrEnd(n, 0) == 0
  {
  }

  /** One more pair: the vote goes to its winner. */
  lemma VotesNext(n: nat, dec: seq<real>, votes: seq<nat>, i: nat, j: nat)
    requires i < j < n && |dec| == Pairs(n) && Voted(n, dec, votes, i, j)
    ensures |votes| == n && PairNo(n, i, j) < |dec|
    ensures var w := if dec[PairNo(n, i, j)] > 0.0 then i else j; Voted(n, dec, votes[w := votes[w] + 1], i, j + 1)
  {
    PairInRange(n, i, j);
    forall c | 0 <= c < n
      ensures RowVotes(n, dec, c, i, j + 1) == RowVotes(n, dec, c, i, j) + if Winner(n, dec, i, j) == c then 1 else 0
    {
    }
    hide RowVotes, Votes, PairNo;
  }

  lemma VotesRow(n: nat, dec: seq<real>, votes: seq<nat>, i: nat)
    requires i < n && |dec| == Pairs(n) && Voted(n, dec, votes, i, n)
    ensures Voted(n, dec, votes, i + 1, i + 2)
  {
    hide Winner;
  }

  lemma AllVotes(n: nat, dec: seq<real>, votes: seq<nat>)
    requires |dec| == Pairs(n) && Voted(n, dec, votes, n, n + 1)
    ensures |votes| == n && forall c :: 0 <= c < n ==> votes[c] == Votes(n, dec, c, n)
  {
  }

  lemma FirstMostVotes(n: nat, dec: seq<real>, votes: seq<nat>, best: nat)
    requires |dec| == Pairs(n) && best < n == |votes| && forall c :: 0 <= c < n ==> votes[c] == Votes(n, dec, c, n)
    requires forall c :: 0 <= c < n ==> votes[c] <= votes[best]
    requires forall c :: 0 <= c < best ==> votes[c] < votes[best]
    ensures FirstMost(n, dec, best)
  {
    hide Votes;
  }

  /** svm_predict_values on the model svm_train packed: for every pair exactly its own decision value,
      and the first class with the most votes. */
  method PredictValues(m: Model, kernel: seq<real>, ghost t: Training, ghost nonzero: seq<bool>)
    returns (dec: seq<real>, best: nat)
    requires t.Valid() && Packed(t, nonzero, m) && |kernel| == t.Points()
    ensures |dec| == Pairs(t.N()) && FirstMost(t.N(), dec, best)
    ensures forall i, j :: 0 <= i < j < t.N()
              ==> PairNo(t.N(), i, j) < |dec| && dec[PairNo(t.N(), i, j)] == t.Decision(i, j, kernel)
  {
    dec := DecisionValues(m, kernel, t, nonzero);
    assert |m.nSV| == t.N() >= 1;
    ghost var vote;
    best, vote := CountVotes(|m.nSV|, dec);
    forall i, j | 0 <= i < j < t.N()
      ensures PairNo(t.N(), i, j) < |dec| && dec[PairNo(t.N(), i, j)] == t.Decision(i, j, kernel)
    {
      assert Earlier(i, j, t.N(), t.N() + 1);
    }
    hide Packed, Training.Valid;
  }
}
