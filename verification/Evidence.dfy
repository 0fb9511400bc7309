/**
 * Order evidence: how one reconciliation merges a broker view of an order into the durable row.
 * The order and position endpoints settle at different times, so a view may lag what is saved.
 */
module Evidence {
  import opened Basics

  /** The evidence half of a durable order row. */
  datatype Row = Row(status: Status, filled: real, average: Option<real>, misses: nat)

  /** One broker view; a status the broker left blank is `None`. */
  datatype View = View(status: Option<Status>, filled: real, average: Option<real>)

  /** How many consecutive complete listings must omit an order before it counts as gone. */
  const MISS_LIMIT: nat := 3

  /** Working < partially filled < final. */
  function Rank(s: Status): nat {
    if s.IsTerminal() then 2 else if s == PartiallyFilled then 1 else 0
  }

  /** The status a row keeps after a view: a final one stays, otherwise evidence never steps back. */
  function Join(kept: Status, seen: Status): Status {
    if Rank(kept) == 2 || Rank(seen) < Rank(kept) then kept else seen
  }

  /** The average price kept when a view arrives. */
  function JoinAverage(row: Row, view: View): Option<real> {
    if view.average.Some? && view.filled >= row.filled then view.average
    else if row.average.Some? && row.average.value != 0.0 then row.average
    else view.average
  }

  /** A row after one reconciliation; `None` is a complete listing without the order. */
  function Observe(row: Row, view: Option<View>): Row {
    match view
    case Some(v) =>
      Row(Join(row.status, v.status.GetOr(row.status)), Max(row.filled, v.filled), JoinAverage(row, v), 0)
    case None =>
      if row.status.IsTerminal() then row
      else row.(misses := row.misses + 1,
                status := if row.misses + 1 >= MISS_LIMIT then NotFound else row.status)
  }

  function Run(row: Row, views: seq<Option<View>>): Row {
    if views == [] then row else Observe(Run(row, views[..|views| - 1]), views[|views| - 1])
  }

  /** The largest fill in `views`, or `floor` when none exceeds it. */
  function Peak(floor: real, views: seq<Option<View>>): real {
    if views == [] then floor
    else
      var before := Peak(floor, views[..|views| - 1]);
      match views[|views| - 1]
      case Some(v) => Max(before, v.filled)
      case None => before
  }

  /** The program's own branches, taken one field at a time. */
  method MergeView(row: Row, view: Option<View>) returns (merged: Row)
    ensures merged == Observe(row, view)
  {
    merged := row;
    if view.None? {
      if !row.status.IsTerminal() {
        merged := merged.(misses := row.misses + 1);
        if merged.misses >= MISS_LIMIT {
          merged := merged.(status := NotFound);
        }
      }
      return;
    }
    var seen := view.value.status.GetOr(row.status);
    var filled := if row.filled > view.value.filled then row.filled else view.value.filled;
    var average := view.value.average;
    var status := seen;
    if row.status.IsTerminal() {
      status := row.status;
    } else if row.status == PartiallyFilled && !seen.IsFill() && !seen.IsTerminal() {
      status := row.status;
    }
    if average.None? || view.value.filled < row.filled {
      if row.average.Some? && row.average.value != 0.0 {
        average := row.average;
      }
    }
    merged := Row(status, filled, average, 0);
  }

  // ---- Whole runs

  /** Over any run fill evidence is the largest fill seen, and a status never loses rank. */
  lemma {:induction false} EvidenceIsMonotone(row: Row, views: seq<Option<View>>)
    ensures Run(row, views).filled == Peak(row.filled, views) >= row.filled
    ensures Rank(Run(row, views).status) >= Rank(row.status)
    ensures row.status.IsTerminal() ==> Run(row, views).status == row.status
    ensures row.status == PartiallyFilled ==>
              Run(row, views).status == PartiallyFilled || Run(row, views).status.IsTerminal()
  {
    if views != [] {
      EvidenceIsMonotone(row, views[..|views| - 1]);
    }
  }

  /** Every earlier point of a run is below the end, not just its start. */
  lemma {:induction false} RunSplits(row: Row, first: seq<Option<View>>, rest: seq<Option<View>>)
    ensures Run(row, first + rest) == Run(Run(row, first), rest)
  {
    if rest == [] {
      assert first + rest == first;
    } else {
      var n := |rest| - 1;
      RunSplits(row, first, rest[..n]);
      assert (first + rest)[..|first + rest| - 1] == first + rest[..n];
    }
  }

  /**
   * A saved nonzero average is replaced only by a view that names a price and reaches the saved fill;
   * across a run of views that all lag or omit the price it is therefore kept.
   */
  lemma {:induction false} LaggingViewsKeepTheAverage(row: Row, views: seq<Option<View>>)
    requires row.average.Some? && row.average.value != 0.0
    ensures (forall i :: 0 <= i < |views| && views[i].Some? ==>
              views[i].value.average.None? || views[i].value.filled < row.filled) ==>
              Run(row, views).average == row.average
  {
    if views != [] {
      var before := views[..|views| - 1];
      LaggingViewsKeepTheAverage(row, before);
      EvidenceIsMonotone(row, before);
      if forall i :: 0 <= i < |views| && views[i].Some? ==>
           views[i].value.average.None? || views[i].value.filled < row.filled {
        forall i | 0 <= i < |before| && before[i].Some?
          ensures before[i].value.average.None? || before[i].value.filled < row.filled
        {
          assert views[i] == before[i];
        }
      }
    }
  }

  /** View `i` names a price and reaches the largest fill seen before it. */
  predicate Prices(row: Row, views: seq<Option<View>>, i: nat)
    requires i < |views|
  {
    && views[i].Some?
    && views[i].value.average.Some?
    && views[i].value.filled >= Peak(row.filled, views[..i])
  }

  /** View `i` is the last such view; a price of zero would not outlast the next one named. */
  predicate LastPriced(row: Row, views: seq<Option<View>>, i: nat)
    requires i < |views|
  {
    && Prices(row, views, i)
    && (forall j :: i < j < |views| ==> !Prices(row, views, j))
    && (i == |views| - 1 || views[i].value.average != Some(0.0))
  }

  /** View `i` names a price, at whatever fill. */
  predicate NamesPrice(views: seq<Option<View>>, i: nat)
    requires i < |views|
  {
    views[i].Some? && views[i].value.average.Some?
  }

  /** The average after any run is the one named by the last view that reached the largest fill seen before it. */
  lemma {:induction false} LastPricedViewDecides(row: Row, views: seq<Option<View>>, i: nat)
    requires i < |views| && LastPriced(row, views, i)
    ensures Run(row, views).average == views[i].value.average
  {
    var n := |views| - 1;
    var before := views[..n];
    EvidenceIsMonotone(row, before);
    if i < n {
      PricesEarlier(row, views);
      LastPricedViewDecides(row, before, i);
      assert !Prices(row, views, n);
    }
  }

  /** Without such a view the row keeps its own; without any price in view, even having none. */
  lemma {:induction false} UnpricedViewsKeepTheAverage(row: Row, views: seq<Option<View>>)
    requires row.average != Some(0.0) && forall j :: 0 <= j < |views| ==> !Prices(row, views, j)
    requires row.average.Some? || forall j :: 0 <= j < |views| ==> !NamesPrice(views, j)
    ensures Run(row, views).average == row.average
  {
    if views != [] {
      EvidenceIsMonotone(row, views[..|views| - 1]);
      PricesEarlier(row, views);
      UnpricedViewsKeepTheAverage(row, views[..|views| - 1]);
      assert !Prices(row, views, |views| - 1);
      assert row.average.None? ==> !NamesPrice(views, |views| - 1);
    }
  }

  /** A row without an average takes the first that any view names, until one reaches the largest fill. */
  lemma {:induction false} FirstPriceIsTaken(row: Row, views: seq<Option<View>>, i: nat)
    requires row.average.None? && i < |views| && NamesPrice(views, i) && views[i].value.average != Some(0.0)
    requires forall j :: 0 <= j < i ==> !NamesPrice(views, j)
    requires forall j :: 0 <= j < |views| ==> !Prices(row, views, j)
    ensures Run(row, views).average == views[i].value.average
  {
    var n := |views| - 1;
    EvidenceIsMonotone(row, views[..n]);
    PricesEarlier(row, views);
    assert !Prices(row, views, n);
    if i < n {
      FirstPriceIsTaken(row, views[..n], i);
    } else {
      UnpricedViewsKeepTheAverage(row, views[..n]);
    }
  }

  lemma PricesEarlier(row: Row, views: seq<Option<View>>)
    requires views != []
    ensures var before := views[..|views| - 1];
            forall i :: 0 <= i < |before| ==>
              Prices(row, before, i) == Prices(row, views, i) && NamesPrice(before, i) == NamesPrice(views, i)
  {
    var before := views[..|views| - 1];
    forall i | 0 <= i < |before|
      ensures Prices(row, before, i) == Prices(row, views, i) && NamesPrice(before, i) == NamesPrice(views, i)
    {
      assert before[..i] == views[..i];
    }
  }

  /** The last `n` views of a run were all misses. */
  ghost predicate EndsInMisses(views: seq<Option<View>>, n: nat) {
    n <= |views| && forall i :: |views| - n <= i < |views| ==> views[i].None?
  }

  /** The miss counter of a row that is not final counts the misses since the last view. */
  lemma {:induction false} MissesCount(row: Row, views: seq<Option<View>>)
    requires row.misses == 0
    ensures var m := Run(row, views).misses;
            !Run(row, views).status.IsTerminal() ==>
              && EndsInMisses(views, m) && m < MISS_LIMIT
              && (m < |views| ==> views[|views| - m - 1].Some?)
  {
    if views != [] {
      MissesCount(row, views[..|views| - 1]);
    }
  }

  /** Three misses in a row end every row that is not final by then. */
  lemma ThreeMissesAreFinal(row: Row, views: seq<Option<View>>)
    requires EndsInMisses(views, MISS_LIMIT)
    ensures var before := Run(row, views[..|views| - MISS_LIMIT]).status;
            if before.IsTerminal() then Run(row, views).status == before else Run(row, views).status == NotFound
  {
    var n := |views|;
    var one, two := views[..n - 2], views[..n - 1];
    assert one[..n - 3] == views[..n - 3] && two[..n - 2] == one;
    hide Join, JoinAverage, Max;
    assert Run(row, one) == Observe(Run(row, views[..n - 3]), None);
    assert Run(row, two) == Observe(Run(row, one), None);
    assert Run(row, views) == Observe(Run(row, two), None);
  }

  /**
   * The status after a run is the one its last telling view named, unless that would take a partly filled order
   * back to working; nothing changes a final one.
   */
  lemma {:induction false} LastStatusStands(row: Row, before: seq<Option<View>>, seen: View, blank: seq<Option<View>>)
    requires seen.status.Some?
    requires forall i :: 0 <= i < |blank| ==> blank[i].Some? && blank[i].value.status.None?
    ensures var was, told := Run(row, before).status, seen.status.value;
            Run(row, before + [Some(seen)] + blank).status ==
              if was.IsTerminal() then was
              else if was == PartiallyFilled && (told.Working? || told in {Done, Closed, DoneForDay}) then was
              else told
  {
    var all := before + [Some(seen)] + blank;
    if blank == [] {
      assert all[..|all| - 1] == before;
    } else {
      assert all[..|all| - 1] == before + [Some(seen)] + blank[..|blank| - 1];
      LastStatusStands(row, before, seen, blank[..|blank| - 1]);
    }
  }

  /** `not_found` is local evidence of three consecutive misses unless a broker view said so itself. */
  lemma {:induction false} NotFoundNeedsThreeMisses(row: Row, views: seq<Option<View>>)
    requires row.misses == 0 && row.status != NotFound
    requires Run(row, views).status == NotFound
    ensures || (exists k: nat :: k <= |views| && EndsInMisses(views[..k], MISS_LIMIT))
            || (exists k: nat :: k < |views| && views[k].Some? && views[k].value.status == Some(NotFound))
  {
    if views == [] {
    } else {
      var n := |views| - 1;
      var before := views[..n];
      if Run(row, before).status == NotFound {
        NotFoundNeedsThreeMisses(row, before);
        if k: nat :| k <= |before| && EndsInMisses(before[..k], MISS_LIMIT) {
          assert before[..k] == views[..k];
        } else {
          var k: nat :| k < |before| && before[k].Some? && before[k].value.status == Some(NotFound);
          assert views[k] == before[k];
        }
      } else if views[n].None? {
        MissesCount(row, before);
        assert EndsInMisses(views, MISS_LIMIT);
        assert views[..|views|] == views;
        assert EndsInMisses(views[..|views|], MISS_LIMIT);
      } else {
        assert views[n].value.status == Some(NotFound);
      }
    }
  }
}
