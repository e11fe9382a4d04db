/**
 * The score formulas of `calculate_line_score`, `calculate_deep_score` and
 * `calculate_score`, over the list of per-function measures (lengths or
 * depths). Scores are exact rationals.
 */
module Scoring {
  import opened Outcome

  /** How many measures exceed the limit. */
  function OverCount(xs: seq<int>, limit: int): (n: nat)
    ensures n <= |xs|
    decreases |xs|
  {
    if xs == [] then 0
    else OverCount(xs[..|xs| - 1], limit) + (if xs[|xs| - 1] > limit then 1 else 0)
  }

  /** The summed amount by which the measures exceed the limit. */
  function Excess(xs: seq<int>, limit: int): (x: int)
    ensures x >= OverCount(xs, limit)
    decreases |xs|
  {
    if xs == [] then 0
    else Excess(xs[..|xs| - 1], limit) + (if xs[|xs| - 1] > limit then xs[|xs| - 1] - limit else 0)
  }

  /** `s2 = (1 - count / total) * 100` */
  function ShareScore(count: nat, total: nat): real
    requires total > 0
  {
    (1.0 - count as real / total as real) * 100.0
  }

  /** `0.5 * ((100 - excess) + s2)`, the length score. */
  function LengthScore(excess: int, count: nat, total: nat): real
    requires total > 0
  {
    0.5 * ((100 - excess) as real + ShareScore(count, total))
  }

  /** `0.5 * ((50 - excess) * 2 + s2)`, the depth score. */
  function DepthScore(excess: int, count: nat, total: nat): real
    requires total > 0
  {
    0.5 * (((50 - excess) * 2) as real + ShareScore(count, total))
  }

  /** `(count, score)` of `calculate_line_score`; an empty list divides by zero. */
  function LineReport(xs: seq<int>, limit: int): Result<(nat, real)> {
    if |xs| == 0 then Err(NoFunctions)
    else Ok((OverCount(xs, limit), LengthScore(Excess(xs, limit), OverCount(xs, limit), |xs|)))
  }

  /** `(count, score)` of `calculate_deep_score`; an empty list divides by zero. */
  function DeepReport(xs: seq<int>, limit: int): Result<(nat, real)> {
    if |xs| == 0 then Err(NoFunctions)
    else Ok((OverCount(xs, limit), DepthScore(Excess(xs, limit), OverCount(xs, limit), |xs|)))
  }

  /** `(total, count, score)` of `calculate_score` in `check_length.py`. */
  function TotalReport(xs: seq<int>, limit: int): Result<(nat, nat, real)> {
    if |xs| == 0 then Err(NoFunctions)
    else Ok((|xs|, OverCount(xs, limit), LengthScore(Excess(xs, limit), OverCount(xs, limit), |xs|)))
  }

  /* ---------------------------------------------------------------- properties */

  /** The indices of the measures above the limit. */
  function OverIndices(xs: seq<int>, limit: int): set<nat> {
    set i: nat | i < |xs| && xs[i] > limit
  }

  /** `OverCount` counts exactly the measures above the limit, in any position. */
  lemma {:induction false} OverCountIsCardinality(xs: seq<int>, limit: int)
    ensures OverCount(xs, limit) == |OverIndices(xs, limit)|
    decreases |xs|
  {
    if xs != [] {
      var n := |xs| - 1;
      var init := xs[..n];
      OverCountIsCardinality(init, limit);
      assert OverIndices(init, limit) == set i: nat | i < n && xs[i] > limit;
      if xs[n] > limit {
        assert OverIndices(xs, limit) == OverIndices(init, limit) + {n};
        assert n !in OverIndices(init, limit);
      } else {
        assert OverIndices(xs, limit) == OverIndices(init, limit);
      }
    }
  }

  /** Nothing above the limit means no excess, and the other way round. */
  lemma {:induction false} NoneOver(xs: seq<int>, limit: int)
    ensures OverCount(xs, limit) == 0 <==> forall i :: 0 <= i < |xs| ==> xs[i] <= limit
    ensures OverCount(xs, limit) == 0 <==> Excess(xs, limit) == 0
    decreases |xs|
  {
    if xs != [] {
      NoneOver(xs[..|xs| - 1], limit);
    }
  }

  /** A measure exactly at the limit changes neither the count nor the excess. */
  lemma AtLimitNeutral(xs: seq<int>, ys: seq<int>, limit: int)
    ensures OverCount(xs + [limit] + ys, limit) == OverCount(xs + ys, limit)
    ensures Excess(xs + [limit] + ys, limit) == Excess(xs + ys, limit)
  {
    OverCountConcat(xs + [limit], ys, limit);
    OverCountConcat(xs, ys, limit);
    ExcessConcat(xs + [limit], ys, limit);
    ExcessConcat(xs, ys, limit);
    assert (xs + [limit])[..|xs|] == xs;
  }

  /** The count of a concatenation is the sum of the counts. */
  lemma {:induction false} OverCountConcat(xs: seq<int>, ys: seq<int>, limit: int)
    ensures OverCount(xs + ys, limit) == OverCount(xs, limit) + OverCount(ys, limit)
    decreases |ys|
  {
    if ys == [] {
      assert xs + ys == xs;
    } else {
      var n := |ys| - 1;
      assert (xs + ys)[..|xs + ys| - 1] == xs + ys[..n];
      OverCountConcat(xs, ys[..n], limit);
    }
  }

  /** The excess of a concatenation is the sum of the excesses. */
  lemma {:induction false} ExcessConcat(xs: seq<int>, ys: seq<int>, limit: int)
    ensures Excess(xs + ys, limit) == Excess(xs, limit) + Excess(ys, limit)
    decreases |ys|
  {
    if ys == [] {
      assert xs + ys == xs;
    } else {
      var n := |ys| - 1;
      assert (xs + ys)[..|xs + ys| - 1] == xs + ys[..n];
      ExcessConcat(xs, ys[..n], limit);
    }
  }

  /**
   * The length score is 100 exactly when no measure exceeds the limit, and
   * never more than 100.
   */
  lemma LengthScorePerfect(xs: seq<int>, limit: int)
    requires xs != []
    ensures LengthScore(Excess(xs, limit), OverCount(xs, limit), |xs|) <= 100.0
    ensures LengthScore(Excess(xs, limit), OverCount(xs, limit), |xs|) == 100.0
        <==> forall i :: 0 <= i < |xs| ==> xs[i] <= limit
  {
    NoneOver(xs, limit);
    ShareScoreBounds(OverCount(xs, limit), |xs|);
  }

  /** The depth score is 100 exactly when no measure exceeds the limit, and never more. */
  lemma DepthScorePerfect(xs: seq<int>, limit: int)
    requires xs != []
    ensures DepthScore(Excess(xs, limit), OverCount(xs, limit), |xs|) <= 100.0
    ensures DepthScore(Excess(xs, limit), OverCount(xs, limit), |xs|) == 100.0
        <==> forall i :: 0 <= i < |xs| ==> xs[i] <= limit
  {
    NoneOver(xs, limit);
    ShareScoreBounds(OverCount(xs, limit), |xs|);
  }

  /** `s2` lies between 0 and 100 and is 100 exactly when the count is 0. */
  lemma ShareScoreBounds(count: nat, total: nat)
    requires 0 < total && count <= total
    ensures 0.0 <= ShareScore(count, total) <= 100.0
    ensures ShareScore(count, total) == 100.0 <==> count == 0
  {
    var q := count as real / total as real;
    assert q * total as real == count as real;
    assert 0.0 <= q <= 1.0;
  }

  /** The scores are not clamped: one function of 131 lines against 30 scores -0.5. */
  lemma LengthScoreNegative()
    ensures LineReport([131], 30) == Ok((1, -0.5))
  {
    assert [131][..0] == [];
  }
}
