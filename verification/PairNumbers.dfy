/** Numbering the pairs i < j of 0..n-1 row by row. */
module PairNumbers {

  /** Number of the first pair with first member i when the pairs i < j < n are numbered row by row. */
  function RowStart(n: nat, i: nat): nat
    requires i < n
  {
    if i == 0 then 0 else RowStart(n, i - 1) + (n - i)
  }

  function PairNo(n: nat, i: nat, j: nat): nat
    requires i < j < n
  {
    RowStart(n, i) + (j - i - 1)
  }

  /** Number of all pairs. */
  function Pairs(n: nat): nat
  {
    if n == 0 then 0 else RowStart(n, n - 1)
  }

  lemma {:induction false} RowsGrow(n: nat, i: nat, j: nat)
    requires i <= j < n
    ensures RowStart(n, i) <= RowStart(n, j)
    ensures i < j ==> RowStart(n, i) + (n - 1 - i) <= RowStart(n, j)
    decreases j
  {
    if i + 1 < j {
      RowsGrow(n, i, j - 1);
    }
  }

  lemma PairInRange(n: nat, i: nat, j: nat)
    requires i < j < n
    ensures PairNo(n, i, j) < Pairs(n)
  {
    RowsGrow(n, i, n - 1);
  }

  /** The pairs before (i, j), row by row. */
  ghost predicate Earlier(a: nat, b: nat, i: nat, j: nat)
  {
    a < i || (a == i && b < j)
  }
}
