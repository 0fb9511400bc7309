/** Wilder's average true range over bars that may be malformed. */
module Atr {
  import opened Basics

  /** One bar; a field that is not a finite number is `None`. */
  datatype Row = Row(high: Option<real>, low: Option<real>, close: Option<real>)
  {
    predicate Valid() { high.Some? && low.Some? && close.Some? && high.value >= low.value }
  }

  datatype Series = Values(values: seq<Option<real>>) | BadPeriod

  // ---- Definition

  /** The close before bar `k`, whatever the state of that bar. */
  function PreviousClose(rows: seq<Row>, k: nat): Option<real>
    requires k < |rows|
  {
    if k == 0 then None else rows[k - 1].close
  }

  function TrueRange(rows: seq<Row>, k: nat): (r: Option<real>)
    requires k < |rows|
    ensures r.Some? <==> rows[k].Valid()
    ensures r.Some? ==> r.value >= 0.0
  {
    var row := rows[k];
    if !row.Valid() then None
    else
      var high, low := row.high.value, row.low.value;
      match PreviousClose(rows, k)
      case None => Some(high - low)
      case Some(c) => Some(Max(Max(high - low, Abs(high - c)), Abs(low - c)))
  }

  /** The last `period` true ranges up to `k` all exist. */
  predicate Covered(rows: seq<Row>, period: nat, k: nat)
    requires k < |rows|
  {
    k + 1 >= period && forall j :: k + 1 - period <= j <= k ==> TrueRange(rows, j).Some?
  }

  /** The sum of the true ranges in [from, to). */
  function RangeSum(rows: seq<Row>, from: nat, to: nat): real
    requires from <= to <= |rows|
    requires forall j :: from <= j < to ==> TrueRange(rows, j).Some?
  {
    if from == to then 0.0 else RangeSum(rows, from, to - 1) + TrueRange(rows, to - 1).value
  }

  function Average(total: real, period: nat): real
    requires period > 0
  {
    total / period as real
  }

  function Smoothed(atr: real, range: real, period: nat): real
    requires period > 0
  {
    Average(atr * (period - 1) as real + range, period)
  }

  /** The running estimate after bar `k`: a mean first, then Wilder's recursion; bars without cover leave it alone. */
  function Running(rows: seq<Row>, period: nat, k: nat): Option<real>
    requires k < |rows| && period > 0
  {
    var before := if k == 0 then None else Running(rows, period, k - 1);
    if !Covered(rows, period, k) then before
    else if before.None? then Some(Average(RangeSum(rows, k + 1 - period, k + 1), period))
    else Some(Smoothed(before.value, TrueRange(rows, k).value, period))
  }

  function Atr(rows: seq<Row>, period: nat, k: nat): (r: Option<real>)
    requires k < |rows| && period > 0
    ensures r.Some? <==> Covered(rows, period, k)
  {
    if Covered(rows, period, k) then Running(rows, period, k) else None
  }

  /** A value exists exactly after a whole window of bars with all three prices, none upside down. */
  lemma ValueNeedsAWholeWindow(rows: seq<Row>, period: nat, k: nat)
    requires k < |rows| && period > 0
    ensures Atr(rows, period, k).Some? <==>
            (&& period <= k + 1
             && forall j :: k - period < j <= k ==>
                  && rows[j].high.Some? && rows[j].low.Some? && rows[j].close.Some?
                  && !(rows[j].high.value < rows[j].low.value))
  {
    if period <= k + 1 {
      var from := k + 1 - period;
      assert forall j :: from <= j <= k ==> (TrueRange(rows, j).Some? <==> rows[j].Valid());
    }
  }

  // ---- The program's loop

  /** The sum of the last `period` ranges, or `None` if one is missing. */
  method WindowSum(rows: seq<Row>, ranges: seq<Option<real>>, period: nat, k: nat) returns (total: Option<real>)
    requires k < |rows| && |ranges| == k + 1 && 0 < period <= k + 1
    requires forall j :: 0 <= j <= k ==> ranges[j] == TrueRange(rows, j)
    ensures total.Some? <==> Covered(rows, period, k)
    ensures total.Some? ==> total.value == RangeSum(rows, k + 1 - period, k + 1)
  {
    var from := k + 1 - period;
    var j := from;
    var sum := 0.0;
    while j < k + 1
      invariant from <= j <= k + 1
      invariant forall i :: from <= i < j ==> TrueRange(rows, i).Some?
      invariant sum == RangeSum(rows, from, j)
    {
      if ranges[j].None? {
        assert !Covered(rows, period, k);
        return None;
      }
      sum := sum + ranges[j].value;
      j := j + 1;
    }
    total := Some(sum);
  }

  method WilderAtr(rows: seq<Row>, period: int) returns (series: Series)
    ensures series.BadPeriod? <==> period <= 0
    ensures series.Values? ==>
              |series.values| == |rows| && forall k :: 0 <= k < |rows| ==> series.values[k] == Atr(rows, period, k)
  {
    if period <= 0 {
      return BadPeriod;
    }
    var output: seq<Option<real>> := [];
    var ranges: seq<Option<real>> := [];
    var previous: Option<real> := None;
    var atr: Option<real> := None;
    var k := 0;
    while k < |rows|
      invariant 0 <= k <= |rows| && |output| == |ranges| == k
      invariant forall j :: 0 <= j < k ==> ranges[j] == TrueRange(rows, j)
      invariant forall j :: 0 <= j < k ==> output[j] == Atr(rows, period, j)
      invariant previous == if k == 0 then None else rows[k - 1].close
      invariant atr == if k == 0 then None else Running(rows, period, k - 1)
    {
      var row := rows[k];
      if !row.Valid() {
        previous := row.close;
        ranges := ranges + [None];
        output := output + [None];
        assert !Covered(rows, period, k) by {
          assert TrueRange(rows, k).None?;
        }
        k := k + 1;
        continue;
      }
      var high, low := row.high.value, row.low.value;
      var range := high - low;
      if previous.Some? {
        range := Max(Max(range, Abs(high - previous.value)), Abs(low - previous.value));
      }
      assert TrueRange(rows, k) == Some(range);
      ranges := ranges + [Some(range)];
      var value: Option<real> := None;
      if k + 1 >= period {
        var total := WindowSum(rows, ranges, period, k);
        if total.Some? {
          if atr.None? {
            atr := Some(Average(total.value, period));
          } else {
            atr := Some(Smoothed(atr.value, range, period));
          }
          value := atr;
        }
      }
      output := output + [value];
      previous := row.close;
      k := k + 1;
    }
    series := Values(output);
  }

  // ---- No look-ahead

  /** The true range of a bar is the span of its range and the previous close. */
  lemma TrueRangeIsASpan(rows: seq<Row>, k: nat)
    requires 0 < k < |rows| && rows[k].Valid() && rows[k - 1].close.Some?
    ensures var c := rows[k - 1].close.value;
            TrueRange(rows, k) == Some(Max(rows[k].high.value, c) - Min(rows[k].low.value, c))
  {
  }

  lemma {:induction false} RunningIgnoresLaterBars(rows: seq<Row>, more: seq<Row>, period: nat, k: nat)
    requires k < |rows| && period > 0
    ensures Running(rows + more, period, k) == Running(rows, period, k)
    ensures Covered(rows + more, period, k) == Covered(rows, period, k)
  {
    hide TrueRange;
    RangesIgnoreLaterBars(rows, more, k);
    if k > 0 {
      RunningIgnoresLaterBars(rows, more, period, k - 1);
    }
    if Covered(rows, period, k) {
      SumIgnoresLaterBars(rows, more, k + 1 - period, k + 1);
    }
  }

  lemma RangesIgnoreLaterBars(rows: seq<Row>, more: seq<Row>, k: nat)
    requires k < |rows|
    ensures forall j :: 0 <= j <= k ==> TrueRange(rows + more, j) == TrueRange(rows, j)
  {
  }

  lemma {:induction false} SumIgnoresLaterBars(rows: seq<Row>, more: seq<Row>, from: nat, to: nat)
    requires from <= to <= |rows|
    requires forall j :: from <= j < to ==> TrueRange(rows, j).Some? && TrueRange(rows + more, j) == TrueRange(rows, j)
    ensures RangeSum(rows + more, from, to) == RangeSum(rows, from, to)
  {
    if from < to {
      SumIgnoresLaterBars(rows, more, from, to - 1);
    }
  }

  /** Every value is decided by the bars up to its own. */
  lemma NoLookAhead(rows: seq<Row>, more: seq<Row>, period: nat, k: nat)
    requires k < |rows| && period > 0
    ensures Atr(rows + more, period, k) == Atr(rows, period, k)
  {
    RunningIgnoresLaterBars(rows, more, period, k);
  }

  // ---- What the recursion says

  /** The first value is the mean of its window. */
  lemma SeedIsTheMean(rows: seq<Row>, period: nat, k: nat)
    requires k < |rows| && period > 0 && Covered(rows, period, k)
    requires k > 0 ==> Running(rows, period, k - 1).None?
    ensures Times(period as real, Atr(rows, period, k).value) == RangeSum(rows, k + 1 - period, k + 1)
  {
    AverageTimes(RangeSum(rows, k + 1 - period, k + 1), period);
  }

  /** From then on `period` times a value is `period - 1` times the one before plus the bar's own range. */
  lemma SmoothingIsWilders(rows: seq<Row>, period: nat, k: nat)
    requires 0 < k < |rows| && period > 0 && Covered(rows, period, k - 1) && Covered(rows, period, k)
    ensures Times(period as real, Atr(rows, period, k).value) ==
            Times((period - 1) as real, Atr(rows, period, k - 1).value) + TrueRange(rows, k).value
  {
    hide TrueRange;
    var before := Running(rows, period, k - 1).value;
    AverageTimes(before * (period - 1) as real + TrueRange(rows, k).value, period);
    assert Times((period - 1) as real, before) == before * (period - 1) as real;
  }

  lemma AverageTimes(total: real, period: nat)
    requires period > 0
    ensures Times(period as real, Average(total, period)) == total
  {
  }

  // ---- Bounds

  /** Every true range so far lies between two numbers. */
  predicate RangesWithin(rows: seq<Row>, k: nat, lo: real, hi: real)
    requires k < |rows|
  {
    forall j :: 0 <= j <= k && TrueRange(rows, j).Some? ==> lo <= TrueRange(rows, j).value <= hi
  }

  /** `n` equal ranges. */
  function Repeated(n: nat, range: real): real { n as real * range }

  lemma RepeatedAdds(n: nat, range: real)
    ensures Repeated(0, range) == 0.0
    ensures Repeated(n + 1, range) == Repeated(n, range) + range
  {
  }

  lemma {:induction false} SumWithin(rows: seq<Row>, from: nat, to: nat, lo: real, hi: real)
    requires from <= to <= |rows|
    requires forall j :: from <= j < to ==> TrueRange(rows, j).Some? && lo <= TrueRange(rows, j).value <= hi
    ensures Repeated(to - from, lo) <= RangeSum(rows, from, to) <= Repeated(to - from, hi)
  {
    hide Repeated, TrueRange;
    if from == to {
      RepeatedAdds(0, lo);
      RepeatedAdds(0, hi);
    } else {
      SumWithin(rows, from, to - 1, lo, hi);
      RepeatedAdds(to - 1 - from, lo);
      RepeatedAdds(to - 1 - from, hi);
    }
  }

  lemma AverageWithin(total: real, period: nat, lo: real, hi: real)
    requires period > 0 && Repeated(period, lo) <= total <= Repeated(period, hi)
    ensures lo <= Average(total, period) <= hi
  {
    var p, m := period as real, Average(total, period);
    assert m * p == total;
    if m < lo {
      Positive(lo - m, p);
    }
    if m > hi {
      Positive(m - hi, p);
    }
  }

  lemma SmoothedWithin(atr: real, range: real, period: nat, lo: real, hi: real)
    requires period > 0 && lo <= atr <= hi && lo <= range <= hi
    ensures lo <= Smoothed(atr, range, period) <= hi
  {
    hide Repeated;
    RepeatedGrows(period - 1, lo, atr);
    RepeatedGrows(period - 1, atr, hi);
    RepeatedAdds(period - 1, lo);
    RepeatedAdds(period - 1, hi);
    RepeatedIs(period - 1, atr);
    AverageWithin(Repeated(period - 1, atr) + range, period, lo, hi);
  }

  lemma RepeatedGrows(n: nat, a: real, b: real)
    requires a <= b
    ensures Repeated(n, a) <= Repeated(n, b)
  {
  }

  lemma RepeatedIs(n: nat, a: real)
    ensures Repeated(n, a) == a * n as real
  {
  }

  /** Every estimate lies between the least and the greatest true range seen so far. */
  lemma {:induction false} RunningWithin(rows: seq<Row>, period: nat, k: nat, lo: real, hi: real)
    requires k < |rows| && period > 0 && RangesWithin(rows, k, lo, hi)
    ensures Running(rows, period, k).Some? ==> lo <= Running(rows, period, k).value <= hi
  {
    hide TrueRange, Smoothed, Average;
    if k > 0 {
      RunningWithin(rows, period, k - 1, lo, hi);
    }
    if Covered(rows, period, k) {
      var before := if k == 0 then None else Running(rows, period, k - 1);
      if before.None? {
        SumWithin(rows, k + 1 - period, k + 1, lo, hi);
        AverageWithin(RangeSum(rows, k + 1 - period, k + 1), period, lo, hi);
      } else {
        SmoothedWithin(before.value, TrueRange(rows, k).value, period, lo, hi);
      }
    }
  }

  lemma AtrWithin(rows: seq<Row>, period: nat, k: nat, lo: real, hi: real)
    requires k < |rows| && period > 0 && RangesWithin(rows, k, lo, hi)
    ensures Atr(rows, period, k).Some? ==> lo <= Atr(rows, period, k).value <= hi
  {
    RunningWithin(rows, period, k, lo, hi);
  }

  /**
   * A malformed bar suspends the output for `period` bars but does not restart the estimate: the next value
   * continues from the one before the gap.
   */
  lemma {:induction false} GapKeepsTheEstimate(rows: seq<Row>, period: nat, from: nat, to: nat)
    requires period > 0 && 0 < from <= to < |rows|
    requires forall k :: from <= k < to ==> !Covered(rows, period, k)
    requires Running(rows, period, from - 1).Some? && Covered(rows, period, to)
    ensures Atr(rows, period, to) ==
            Some(Smoothed(Running(rows, period, from - 1).value, TrueRange(rows, to).value, period))
  {
    Suspended(rows, period, from, to);
  }

  lemma {:induction false} Suspended(rows: seq<Row>, period: nat, from: nat, to: nat)
    requires period > 0 && 0 < from <= to < |rows|
    requires forall k :: from <= k < to ==> !Covered(rows, period, k)
    ensures Running(rows, period, to - 1) == Running(rows, period, from - 1)
  {
    if from < to {
      Suspended(rows, period, from, to - 1);
    }
  }
}
