/** A sparse matrix by rows, and its transpose by columns. */
module SparseData {
  import opened FactorizationMachine

  /** The entries of a row at feature p, now labelled with the row number. */
  function Picked(row: Row, p: nat, i: nat, n: nat): Row
    requires n <= |row|
  {
    if n == 0 then [] else
      Picked(row, p, i, n - 1) + if row[n - 1].index == p then [Entry(i, row[n - 1].value)] else []
  }

  /** Column p of the first n rows, in row order. */
  function Column(X: seq<Row>, p: nat, n: nat): Row
    requires n <= |X|
  {
    if n == 0 then [] else Column(X, p, n - 1) + Picked(X[n - 1], p, n - 1, |X[n - 1]|)
  }

  lemma {:induction false} PickedContents(row: Row, p: nat, i: nat, n: nat)
    requires n <= |row|
    ensures forall c :: 0 <= c < |Picked(row, p, i, n)| ==>
              Picked(row, p, i, n)[c].index == i && Entry(p, Picked(row, p, i, n)[c].value) in row[..n]
    ensures forall j :: 0 <= j < n && row[j].index == p ==> Entry(i, row[j].value) in Picked(row, p, i, n)
  {
    if n > 0 {
      PickedContents(row, p, i, n - 1);
      assert row[..n] == row[..n - 1] + [row[n - 1]];
    }
  }

  /** The column holds exactly the entries of the matrix at that feature. */
  lemma {:induction false} ColumnContents(X: seq<Row>, p: nat, n: nat, i: nat, x: real)
    requires n <= |X|
    ensures Entry(i, x) in Column(X, p, n) <==> i < n && Entry(p, x) in X[i]
  {
    if n > 0 {
      ColumnContents(X, p, n - 1, i, x);
      var row := X[n - 1];
      PickedContents(row, p, n - 1, |row|);
      assert row[..|row|] == row;
      if Entry(p, x) in row {
        var j :| 0 <= j < |row| && row[j] == Entry(p, x);
        assert Entry(n - 1, row[j].value) in Picked(row, p, n - 1, |row|);
      }
    }
  }

  lemma {:induction false} PickedOnce(row: Row, p: nat, i: nat, n: nat)
    requires n <= |row| && NoRepeats(row)
    ensures |Picked(row, p, i, n)| <= 1
    ensures Picked(row, p, i, n) == [] ==> Coef(row, p, n) == 0.0
    ensures Picked(row, p, i, n) != [] ==> Picked(row, p, i, n) == [Entry(i, Coef(row, p, n))]
    ensures Picked(row, p, i, n) == [] <==> forall j :: 0 <= j < n ==> row[j].index != p
  {
    if n > 0 {
      PickedOnce(row, p, i, n - 1);
    }
  }

  /** Row i is named by one of the first c entries. */
  ghost predicate NamedBefore(col: Row, i: nat, c: nat)
  {
    exists k :: 0 <= k < c && k < |col| && col[k].index == i
  }

  ghost predicate Ascending(col: Row)
  {
    forall c, d :: 0 <= c < d < |col| ==> col[c].index < col[d].index
  }

  /** The column of X's first n rows as a list of distinct rows with their coefficients at p; rows it
      does not name have coefficient 0. */
  ghost predicate ColumnOk(X: seq<Row>, p: nat, n: nat, col: Row)
    requires n <= |X|
  {
    && Within(col, n) && Ascending(col)
    && (forall c :: 0 <= c < |col| ==> col[c].value == Coef(X[col[c].index], p, |X[col[c].index]|))
    && (forall i :: 0 <= i < n && !NamedBefore(col, i, |col|) ==> Coef(X[i], p, |X[i]|) == 0.0)
  }

  lemma ColumnGrows(X: seq<Row>, p: nat, n: nat, before: Row, picked: Row)
    requires n < |X| && ColumnOk(X, p, n, before)
    requires picked == [] ==> Coef(X[n], p, |X[n]|) == 0.0
    requires picked != [] ==> picked == [Entry(n, Coef(X[n], p, |X[n]|))]
    ensures ColumnOk(X, p, n + 1, before + picked)
  {
    hide Coef;
    var col := before + picked;
    assert picked != [] ==> col[|before|] == picked[0];
    forall i | 0 <= i < n + 1 && !NamedBefore(col, i, |col|)
      ensures Coef(X[i], p, |X[i]|) == 0.0
    {
      if i < n {
        assert forall c :: 0 <= c < |before| ==> before[c] == col[c];
        assert !NamedBefore(before, i, |before|);
      }
    }
  }

  /** Without repeated features a column names each row at most once, in increasing order. */
  lemma {:induction false} ColumnRows(X: seq<Row>, p: nat, n: nat)
    requires n <= |X| && forall i :: 0 <= i < |X| ==> NoRepeats(X[i])
    ensures ColumnOk(X, p, n, Column(X, p, n))
  {
    hide ColumnOk, Coef, NoRepeats, Picked;
    if n == 0 {
      NoColumn(X, p);
    } else {
      ColumnRows(X, p, n - 1);
      PickedOnce(X[n - 1], p, n - 1, |X[n - 1]|);
      ColumnGrows(X, p, n - 1, Column(X, p, n - 1), Picked(X[n - 1], p, n - 1, |X[n - 1]|));
    }
  }

  lemma NoColumn(X: seq<Row>, p: nat)
    ensures ColumnOk(X, p, 0, [])
  {
  }

  // ---- the loops of transpose ----

  /** The columns of the first i rows. */
  ghost predicate HoldColumns(Xt: seq<Row>, X: seq<Row>, m: nat, i: nat)
    requires i <= |X|
  {
    |Xt| == m && forall p :: 0 <= p < m ==> Xt[p] == Column(X, p, i)
  }

  /** The columns of the first i rows and of the first j entries of row i. */
  ghost predicate HoldPart(Xt: seq<Row>, X: seq<Row>, m: nat, i: nat, j: nat)
    requires i < |X| && j <= |X[i]|
  {
    |Xt| == m && forall p :: 0 <= p < m ==> Xt[p] == Column(X, p, i) + Picked(X[i], p, i, j)
  }

  lemma NoColumns(X: seq<Row>)
    ensures forall p: nat :: Column(X, p, 0) == []
  {
  }

  lemma RowStarts(Xt: seq<Row>, X: seq<Row>, m: nat, i: nat)
    requires i < |X| && HoldColumns(Xt, X, m, i)
    ensures HoldPart(Xt, X, m, i, 0)
  {
    forall p | 0 <= p < m
      ensures Xt[p] == Column(X, p, i) + Picked(X[i], p, i, 0)
    {
      assert Picked(X[i], p, i, 0) == [];
    }
  }

  lemma EntryAdded(Xt: seq<Row>, X: seq<Row>, m: nat, i: nat, j: nat)
    requires i < |X| && j < |X[i]| && Within(X[i], m) && HoldPart(Xt, X, m, i, j)
    ensures |Xt| == m && X[i][j].index < m
    ensures HoldPart(Xt[X[i][j].index := Xt[X[i][j].index] + [Entry(i, X[i][j].value)]], X, m, i, j + 1)
  {
    hide Column;
    var e := X[i][j];
    forall p | 0 <= p < m
      ensures Xt[e.index := Xt[e.index] + [Entry(i, e.value)]][p] == Column(X, p, i) + Picked(X[i], p, i, j + 1)
    {
      assert Picked(X[i], p, i, j + 1)
          == Picked(X[i], p, i, j) + if e.index == p then [Entry(i, e.value)] else [];
    }
  }

  lemma RowEnds(Xt: seq<Row>, X: seq<Row>, m: nat, i: nat)
    requires i < |X| && HoldPart(Xt, X, m, i, |X[i]|)
    ensures HoldColumns(Xt, X, m, i + 1)
  {
    hide Picked;
  }

  class SparseMatrix {
    var X: seq<Row>
    var Xt: seq<Row>
    const numFeature: nat

    constructor (X: seq<Row>, numFeature: nat)
      ensures this.X == X && this.Xt == [] && this.numFeature == numFeature
    {
      this.X, this.Xt, this.numFeature := X, [], numFeature;
    }

    /** Xt holds a column for each feature, with the exact coefficients and none left out. */
    ghost predicate Transposed()
      reads this
    {
      |Xt| == numFeature && forall p :: 0 <= p < |Xt| ==> ColumnOk(X, p, |X|, Xt[p])
    }

    /** Builds the columns of X, which hold the exact coefficients when no row repeats a feature. */
    method Transpose()
      requires Xt == [] && forall i :: 0 <= i < |X| ==> Within(X[i], numFeature)
      modifies `Xt
      ensures |Xt| == numFeature && forall p :: 0 <= p < numFeature ==> Xt[p] == Column(X, p, |X|)
      ensures (forall i :: 0 <= i < |X| ==> NoRepeats(X[i])) ==> Transposed()
    {
      hide Column, Picked, NoRepeats, ColumnOk;
      Xt := seq(numFeature, _ => []);
      NoColumns(X);
      for i := 0 to |X|
        invariant HoldColumns(Xt, X, numFeature, i)
      {
        RowStarts(Xt, X, numFeature, i);
        for j := 0 to |X[i]|
          invariant HoldPart(Xt, X, numFeature, i, j)
        {
          var e := X[i][j];
          EntryAdded(Xt, X, numFeature, i, j);
          Xt := Xt[e.index := Xt[e.index] + [Entry(i, e.value)]];
        }
        RowEnds(Xt, X, numFeature, i);
      }
      if forall i :: 0 <= i < |X| ==> NoRepeats(X[i]) {
        forall p | 0 <= p < |Xt|
          ensures ColumnOk(X, p, |X|, Xt[p])
        {
          ColumnRows(X, p, |X|);
        }
      }
    }
  }
}
