/** The clipped two-variable step of the SMO iteration, on the alpha array itself. */
module SmoStep {

  /** Moves alpha[i], alpha[j] by the unclipped step delta and pulls the pair back into its box.
      Along the conserved line the result is a step of length t, 0 < t <= t0, where t0 is the
      unclipped length; it is shorter only when a bound of the box stops it. */
  method ClipPair(alpha: array<real>, i: int, j: int, yi: int, yj: int, Ci: real, Cj: real, delta: real, ghost t0: real)
    returns (ghost t: real)
    requires 0 <= i < alpha.Length && 0 <= j < alpha.Length && i != j
    requires (yi == 1 || yi == -1) && (yj == 1 || yj == -1)
    requires 0.0 <= alpha[i] <= Ci && 0.0 <= alpha[j] <= Cj
    requires if yi == 1 then alpha[i] < Ci else 0.0 < alpha[i]
    requires if yj == 1 then 0.0 < alpha[j] else alpha[j] < Cj
    requires 0.0 < t0 && delta == (if yi != yj then (if yi == 1 then t0 else -t0) else (if yi == 1 then -t0 else t0))
    modifies alpha
    ensures forall k :: 0 <= k < alpha.Length && k != i && k != j ==> alpha[k] == old(alpha[k])
    ensures 0.0 < t <= t0
    ensures alpha[i] == old(alpha[i]) + (if yi == 1 then t else -t)
    ensures alpha[j] == old(alpha[j]) - (if yj == 1 then t else -t)
    ensures 0.0 <= alpha[i] <= Ci && 0.0 <= alpha[j] <= Cj
    ensures t < t0 ==> alpha[i] == (if yi == 1 then Ci else 0.0) || alpha[j] == (if yj == 1 then 0.0 else Cj)
  {
    ghost var ai := alpha[i];
    if yi != yj {
      var diff := alpha[i] - alpha[j];
      alpha[i] := alpha[i] + delta;
      alpha[j] := alpha[j] + delta;
      if diff > 0.0 {
        if alpha[j] < 0.0 {
          alpha[j] := 0.0;
          alpha[i] := diff;
        }
      } else {
        if alpha[i] < 0.0 {
          alpha[i] := 0.0;
          alpha[j] := -diff;
        }
      }
      if diff > Ci - Cj {
        if alpha[i] > Ci {
          alpha[i] := Ci;
          alpha[j] := Ci - diff;
        }
      } else {
        if alpha[j] > Cj {
          alpha[j] := Cj;
          alpha[i] := Cj + diff;
        }
      }
    } else {
      var sum := alpha[i] + alpha[j];
      alpha[i] := alpha[i] - delta;
      alpha[j] := alpha[j] + delta;
      if sum > Ci {
        if alpha[i] > Ci {
          alpha[i] := Ci;
          alpha[j] := sum - Ci;
        }
      } else {
        if alpha[j] < 0.0 {
          alpha[j] := 0.0;
          alpha[i] := sum;
        }
      }
      if sum > Cj {
        if alpha[j] > Cj {
          alpha[j] := Cj;
          alpha[i] := sum - Cj;
        }
      } else {
        if alpha[i] < 0.0 {
          alpha[i] := 0.0;
          alpha[j] := sum;
        }
      }
    }
    t := if yi == 1 then alpha[i] - ai else ai - alpha[i];
  }
}
