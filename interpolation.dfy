/** One-dimensional piecewise-linear interpolation with the semantics of
    numpy's `interp(x, xp, fp)`: the first sample value at or below the
    first sample point, the last sample value at or above the last sample
    point, and the straight line through the two bracketing samples in
    between. Values are exact reals, not IEEE doubles. */
module Interpolation {

  /** Every later sample point lies strictly to the right of every earlier one. */
  predicate StrictlyIncreasing(xs: seq<real>) {
    forall i, j | 0 <= i < j < |xs| :: xs[i] < xs[j]
  }

  /** Every later sample value is at least every earlier one. */
  predicate NonDecreasing(ys: seq<real>) {
    forall i, j | 0 <= i < j < |ys| :: ys[i] <= ys[j]
  }

  /** A table `interp` can use: non-empty, one value per point, points sorted. */
  predicate IsTable(xp: seq<real>, fp: seq<real>) {
    |xp| == |fp| && 0 < |xp| && StrictlyIncreasing(xp)
  }

  function Min(a: real, b: real): real { if a <= b then a else b }
  function Max(a: real, b: real): real { if a <= b then b else a }

  /** The line through (x0, y0) and (x1, y1) evaluated at x, computed as
      numpy does: slope times the offset from the left point, plus y0. */
  function Lerp(x0: real, y0: real, x1: real, y1: real, x: real): real
    requires x0 < x1
  {
    var slope := (y1 - y0) / (x1 - x0);
    slope * (x - x0) + y0
  }

  /** `interp(x, xp, fp)`: walks the table from the left until it finds the
      segment holding x, clamping at both ends. */
  function Interp(x: real, xp: seq<real>, fp: seq<real>): real
    requires IsTable(xp, fp)
    decreases |xp|
  {
    if |xp| == 1 || x <= xp[0] then fp[0]
    else if x < xp[1] then Lerp(xp[0], fp[0], xp[1], fp[1], x)
    else Interp(x, xp[1..], fp[1..])
  }

  // ---------------------------------------------------------------------
  // The line between two samples

  /** The line passes through both of its end samples. */
  lemma LerpEnds(x0: real, y0: real, x1: real, y1: real)
    requires x0 < x1
    ensures Lerp(x0, y0, x1, y1, x0) == y0
    ensures Lerp(x0, y0, x1, y1, x1) == y1
  {
    var slope := (y1 - y0) / (x1 - x0);
    assert slope * (x1 - x0) == y1 - y0;
  }

  /** Between its end points the line stays between its two end values. */
  lemma LerpBetween(x0: real, y0: real, x1: real, y1: real, x: real)
    requires x0 < x1 && x0 <= x <= x1
    ensures Min(y0, y1) <= Lerp(x0, y0, x1, y1, x) <= Max(y0, y1)
  {
    var slope := (y1 - y0) / (x1 - x0);
    var d := x - x0;
    assert slope * (x1 - x0) == y1 - y0;
    if y0 <= y1 {
      assert 0.0 <= slope;
      assert 0.0 <= slope * d <= slope * (x1 - x0);
    } else {
      assert slope < 0.0;
      assert slope * (x1 - x0) <= slope * d <= 0.0;
    }
  }

  /** A rising (or flat) line is non-decreasing between its end points. */
  lemma LerpMonotone(x0: real, y0: real, x1: real, y1: real, x: real, y: real)
    requires x0 < x1 && y0 <= y1 && x0 <= x <= y <= x1
    ensures Lerp(x0, y0, x1, y1, x) <= Lerp(x0, y0, x1, y1, y)
  {
    var slope := (y1 - y0) / (x1 - x0);
    assert 0.0 <= slope;
    assert slope * (x - x0) <= slope * (y - x0);
  }

  // ---------------------------------------------------------------------
  // Interpolation over a table

  lemma TailIsTable(xp: seq<real>, fp: seq<real>)
    requires IsTable(xp, fp) && 1 < |xp|
    ensures IsTable(xp[1..], fp[1..])
  {
  }

  /** At or below the first sample point the first value is returned. */
  lemma InterpBelow(x: real, xp: seq<real>, fp: seq<real>)
    requires IsTable(xp, fp) && x <= xp[0]
    ensures Interp(x, xp, fp) == fp[0]
  {
  }

  /** At or above the last sample point the last value is returned. */
  lemma {:induction false} InterpAbove(x: real, xp: seq<real>, fp: seq<real>)
    requires IsTable(xp, fp) && xp[|xp| - 1] <= x
    ensures Interp(x, xp, fp) == fp[|fp| - 1]
    decreases |xp|
  {
    if 1 < |xp| {
      assert xp[1] <= xp[|xp| - 1];
      TailIsTable(xp, fp);
      InterpAbove(x, xp[1..], fp[1..]);
    }
  }

  /** At a sample point the sample value is returned exactly. */
  lemma {:induction false} InterpAtSample(xp: seq<real>, fp: seq<real>, k: nat)
    requires IsTable(xp, fp) && k < |xp|
    ensures Interp(xp[k], xp, fp) == fp[k]
    decreases |xp|
  {
    if k > 0 {
      assert xp[0] < xp[k];
      assert xp[1] <= xp[k];
      TailIsTable(xp, fp);
      InterpAtSample(xp[1..], fp[1..], k - 1);
      assert xp[1..][k - 1] == xp[k];
    }
  }

  /** Inside segment j (from point j up to, not including, point j + 1) the
      result is the line through samples j and j + 1: the recursive walk
      agrees with the indexed definition of piecewise-linear interpolation. */
  lemma {:induction false} InterpOnSegment(x: real, xp: seq<real>, fp: seq<real>, j: nat)
    requires IsTable(xp, fp) && j + 1 < |xp| && xp[j] <= x < xp[j + 1]
    ensures Interp(x, xp, fp) == Lerp(xp[j], fp[j], xp[j + 1], fp[j + 1], x)
    decreases |xp|
  {
    if j == 0 {
      if x <= xp[0] {
        LerpEnds(xp[0], fp[0], xp[1], fp[1]);
      }
    } else {
      assert xp[0] < xp[1] <= xp[j];
      TailIsTable(xp, fp);
      InterpOnSegment(x, xp[1..], fp[1..], j - 1);
      assert xp[1..][j - 1] == xp[j] && xp[1..][j] == xp[j + 1];
      assert fp[1..][j - 1] == fp[j] && fp[1..][j] == fp[j + 1];
    }
  }

  /** Between two consecutive sample points the result lies between the two
      bracketing sample values. */
  lemma InterpBetween(x: real, xp: seq<real>, fp: seq<real>, j: nat)
    requires IsTable(xp, fp) && j + 1 < |xp| && xp[j] <= x <= xp[j + 1]
    ensures Min(fp[j], fp[j + 1]) <= Interp(x, xp, fp) <= Max(fp[j], fp[j + 1])
  {
    if x == xp[j + 1] {
      InterpAtSample(xp, fp, j + 1);
    } else {
      InterpOnSegment(x, xp, fp, j);
      LerpBetween(xp[j], fp[j], xp[j + 1], fp[j + 1], x);
    }
  }

  /** Between two consecutive sample points whose values do not fall, the
      result is non-decreasing in x. */
  lemma InterpSegmentMonotone(x: real, y: real, xp: seq<real>, fp: seq<real>, j: nat)
    requires IsTable(xp, fp) && j + 1 < |xp|
    requires xp[j] <= x <= y <= xp[j + 1] && fp[j] <= fp[j + 1]
    ensures Interp(x, xp, fp) <= Interp(y, xp, fp)
  {
    if y == xp[j + 1] {
      InterpBetween(x, xp, fp, j);
      InterpAtSample(xp, fp, j + 1);
    } else {
      InterpOnSegment(x, xp, fp, j);
      InterpOnSegment(y, xp, fp, j);
      LerpMonotone(xp[j], fp[j], xp[j + 1], fp[j + 1], x, y);
    }
  }

  /** Whatever the query point, the result lies within any range that holds
      every sample value. */
  lemma {:induction false} InterpWithin(x: real, xp: seq<real>, fp: seq<real>, lo: real, hi: real)
    requires IsTable(xp, fp)
    requires forall k | 0 <= k < |fp| :: lo <= fp[k] <= hi
    ensures lo <= Interp(x, xp, fp) <= hi
    decreases |xp|
  {
    if |xp| == 1 || x <= xp[0] {
    } else if x < xp[1] {
      LerpBetween(xp[0], fp[0], xp[1], fp[1], x);
    } else {
      TailIsTable(xp, fp);
      InterpWithin(x, xp[1..], fp[1..], lo, hi);
    }
  }

  /** With non-decreasing sample values the result is at least the first one. */
  lemma InterpAtLeastFirst(x: real, xp: seq<real>, fp: seq<real>)
    requires IsTable(xp, fp) && NonDecreasing(fp)
    ensures fp[0] <= Interp(x, xp, fp)
  {
    InterpWithin(x, xp, fp, fp[0], fp[|fp| - 1]);
  }

  /** With non-decreasing sample values the whole interpolant is
      non-decreasing in x. */
  lemma {:induction false} InterpMonotone(x: real, y: real, xp: seq<real>, fp: seq<real>)
    requires IsTable(xp, fp) && NonDecreasing(fp) && x <= y
    ensures Interp(x, xp, fp) <= Interp(y, xp, fp)
    decreases |xp|
  {
    if |xp| == 1 || x <= xp[0] {
      InterpAtLeastFirst(y, xp, fp);
    } else if y < xp[1] {
      InterpSegmentMonotone(x, y, xp, fp, 0);
    } else if x < xp[1] {
      InterpBetween(x, xp, fp, 0);
      TailIsTable(xp, fp);
      InterpAtLeastFirst(y, xp[1..], fp[1..]);
    } else {
      TailIsTable(xp, fp);
      InterpMonotone(x, y, xp[1..], fp[1..]);
    }
  }
}
