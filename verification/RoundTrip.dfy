/**
 * The journal as the report sees it: what the lifecycle books for one exposure and what the report reads back.
 */
module RoundTrip {
  import opened Basics
  import EntryFills
  import CloseJournal
  import Settlement
  import Report

  /** An entry fill as the journal stores it, under the setup of its exposure. */
  function OpenRow(setup: nat, f: EntryFills.Fill): Report.Row {
    Report.Row(Report.Open, None, Some(setup), None, Report.NoTradeId, Some(setup), Some(f.qty), None, None, None,
               false, false, None, None, None, None, false)
  }

  /** A close booking as the journal stores it; the net result is gross less fees when both are known. */
  function CloseRow(setup: nat, b: CloseJournal.Booking): Report.Row {
    var net := if b.gross.Some? && b.fee.Some? then Some(b.gross.value - b.fee.value) else None;
    Report.Row(Report.Close, None, Some(setup), None, Report.CloseId(b.key.entry, b.key.close), None, Some(b.qty),
               Some(b.qty), None, None, false, false, b.gross, b.gross, b.fee, net, true)
  }

  function OpenRows(setup: nat, fills: seq<EntryFills.Fill>): (r: seq<Report.Row>)
    ensures |r| == |fills|
  {
    if fills == [] then [] else OpenRows(setup, fills[..|fills| - 1]) + [OpenRow(setup, fills[|fills| - 1])]
  }

  function CloseRows(setup: nat, bookings: seq<CloseJournal.Booking>): (r: seq<Report.Row>)
    ensures |r| == |bookings|
  {
    if bookings == [] then []
    else CloseRows(setup, bookings[..|bookings| - 1]) + [CloseRow(setup, bookings[|bookings| - 1])]
  }

  /** Rows as the lifecycle would write them for one exposure. */
  function RowsFor(setup: nat, fills: seq<EntryFills.Fill>, bookings: seq<CloseJournal.Booking>): seq<Report.Row> {
    OpenRows(setup, fills) + CloseRows(setup, bookings)
  }

  lemma {:induction false} OpensAreBooked(setup: nat, fills: seq<EntryFills.Fill>)
    ensures Report.Booked(OpenRows(setup, fills), Report.Open) == EntryFills.Quantity(fills)
    ensures Report.Booked(OpenRows(setup, fills), Report.Close) == 0.0
    ensures Report.ClosesIn(OpenRows(setup, fills)) == []
  {
    if fills != [] {
      var n := |fills| - 1;
      OpensAreBooked(setup, fills[..n]);
      assert OpenRows(setup, fills)[..n] == OpenRows(setup, fills[..n]);
    }
  }

  /** Appending the close rows after any rows adds their quantities and economics. */
  lemma {:induction false} ClosesAppend(rows: seq<Report.Row>, setup: nat, bookings: seq<CloseJournal.Booking>)
    ensures var all := rows + CloseRows(setup, bookings);
            && Report.Booked(all, Report.Open) == Report.Booked(rows, Report.Open)
            && Report.Booked(all, Report.Close) == Report.Booked(rows, Report.Close) + CloseJournal.QtyTotal(bookings)
            && Report.ClosesIn(all) == Report.ClosesIn(rows) + CloseRows(setup, bookings)
  {
    var all := rows + CloseRows(setup, bookings);
    if bookings == [] {
      assert all == rows;
    } else {
      var n := |bookings| - 1;
      var rest := rows + CloseRows(setup, bookings[..n]);
      ClosesAppend(rows, setup, bookings[..n]);
      assert all == rest + [CloseRow(setup, bookings[n])];
      OneMoreClose(rest, CloseRow(setup, bookings[n]));
    }
  }

  lemma OneMoreClose(rows: seq<Report.Row>, row: Report.Row)
    requires row.action == Report.Close && row.qty.Some?
    ensures Report.Booked(rows + [row], Report.Open) == Report.Booked(rows, Report.Open)
    ensures Report.Booked(rows + [row], Report.Close) == Report.Booked(rows, Report.Close) + row.qty.value
    ensures Report.ClosesIn(rows + [row]) == Report.ClosesIn(rows) + [row]
  {
  }

  // ---- Economics

  /** Gross result and fees over an exposure's bookings. */
  function GrossTotal(bookings: seq<CloseJournal.Booking>): real {
    if bookings == [] then 0.0
    else GrossTotal(bookings[..|bookings| - 1]) + bookings[|bookings| - 1].gross.GetOr(0.0)
  }

  function FeeTotal(bookings: seq<CloseJournal.Booking>): real {
    if bookings == [] then 0.0
    else FeeTotal(bookings[..|bookings| - 1]) + bookings[|bookings| - 1].fee.GetOr(0.0)
  }

  predicate Measured(bookings: seq<CloseJournal.Booking>) {
    forall b :: b in bookings ==> b.gross.Some? && b.fee.Some?
  }

  lemma {:induction false} TotalsAreBooked(setup: nat, bookings: seq<CloseJournal.Booking>)
    requires Measured(bookings)
    ensures Report.Total(CloseRows(setup, bookings), Report.GrossOf) == Some(GrossTotal(bookings))
    ensures Report.Total(CloseRows(setup, bookings), Report.NetOf) == Some(GrossTotal(bookings) - FeeTotal(bookings))
  {
    if bookings != [] {
      var n := |bookings| - 1;
      assert bookings[n] in bookings;
      TotalsAreBooked(setup, bookings[..n]);
      assert CloseRows(setup, bookings)[..n] == CloseRows(setup, bookings[..n]);
    }
  }

  // ---- One exposure's bookings among all others

  /** Every booking of the exposure names one of its close orders. */
  predicate Named(journal: seq<CloseJournal.Booking>, entry: Option<nat>, rows: seq<CloseJournal.CloseRow>) {
    forall i :: 0 <= i < |journal| && journal[i].key.entry == entry ==> journal[i].key.close in IdsOf(rows)
  }

  function IdsOf(rows: seq<CloseJournal.CloseRow>): set<nat> { set r | r in rows :: r.id }

  lemma BookedTakesOne(journal: seq<CloseJournal.Booking>, b: CloseJournal.Booking, entry: Option<nat>, close: nat)
    ensures var mine := CloseJournal.Concerns(b, entry, close);
            && CloseJournal.BookedQty(journal + [b], entry, close) ==
               CloseJournal.BookedQty(journal, entry, close) + (if mine then b.qty else 0.0)
            && CloseJournal.BookedMoney(journal + [b], entry, close) ==
               CloseJournal.BookedMoney(journal, entry, close)
               .Plus(if mine then CloseJournal.MoneyIn(b) else CloseJournal.NOTHING)
  {
  }

  /** One more booking adds to the sum over the orders exactly when it names one of them. */
  lemma {:induction false} SumsTakeOne(journal: seq<CloseJournal.Booking>, b: CloseJournal.Booking,
                                       entry: Option<nat>, rows: seq<CloseJournal.CloseRow>)
    requires CloseJournal.Distinct(rows)
    ensures var named := b.key.entry == entry && b.key.close in IdsOf(rows);
            && Settlement.SumQty(journal + [b], entry, rows) ==
               Settlement.SumQty(journal, entry, rows) + (if named then b.qty else 0.0)
            && Settlement.SumMoney(journal + [b], entry, rows) ==
               Settlement.SumMoney(journal, entry, rows)
               .Plus(if named then CloseJournal.MoneyIn(b) else CloseJournal.NOTHING)
  {
    hide CloseJournal.MoneyIn, CloseJournal.BookedQty, CloseJournal.BookedMoney, IdsOf;
    if rows == [] {
      NoIds();
    } else {
      var n := |rows| - 1;
      SumsTakeOne(journal, b, entry, rows[..n]);
      BookedTakesOne(journal, b, entry, rows[n].id);
      OneMoreId(rows);
    }
  }

  lemma NoIds()
    ensures IdsOf([]) == {}
  {
  }

  lemma OneMoreId(rows: seq<CloseJournal.CloseRow>)
    requires CloseJournal.Distinct(rows) && rows != []
    ensures var n := |rows| - 1;
            IdsOf(rows) == IdsOf(rows[..n]) + {rows[n].id} && rows[n].id !in IdsOf(rows[..n])
  {
  }

  lemma {:induction false} SumsAreRestricted(journal: seq<CloseJournal.Booking>, entry: Option<nat>,
                                             rows: seq<CloseJournal.CloseRow>)
    requires CloseJournal.Distinct(rows) && Named(journal, entry, rows)
    ensures var mine := CloseJournal.Restrict(journal, entry);
            && Settlement.SumQty(journal, entry, rows) == CloseJournal.QtyTotal(mine)
            && Settlement.SumMoney(journal, entry, rows).gross == GrossTotal(mine)
            && Settlement.SumMoney(journal, entry, rows).fees == FeeTotal(mine)
  {
    if journal == [] {
      NothingBooked(entry, rows);
    } else {
      var n := |journal| - 1;
      var before := CloseJournal.Restrict(journal[..n], entry);
      SumsAreRestricted(journal[..n], entry, rows);
      SumsTakeOne(journal[..n], journal[n], entry, rows);
      assert journal == journal[..n] + [journal[n]];
      assert (before + [journal[n]])[..|before|] == before;
      assert before + [] == before;
    }
  }

  lemma {:induction false} NothingBooked(entry: Option<nat>, rows: seq<CloseJournal.CloseRow>)
    ensures Settlement.SumQty([], entry, rows) == 0.0
    ensures Settlement.SumMoney([], entry, rows) == CloseJournal.NOTHING
  {
    if rows != [] {
      NothingBooked(entry, rows[..|rows| - 1]);
    }
  }

  // ---- The round trip

  /**
   * The journal holds, in any order and among other exposures' rows, what the lifecycle wrote for the exposure
   * entered by order `setup`.
   */
  ghost predicate Stores(events: seq<Report.Row>, setup: nat, fills: seq<EntryFills.Fill>,
                         bookings: seq<CloseJournal.Booking>) {
    && (forall r :: r in events ==> Report.Written(r))
    && multiset(Report.Mine(events, setup)) == multiset(RowsFor(setup, fills, bookings))
  }

  lemma StoredQuantities(events: seq<Report.Row>, setup: nat, fills: seq<EntryFills.Fill>,
                         bookings: seq<CloseJournal.Booking>)
    requires Stores(events, setup, fills, bookings)
    ensures Report.Booked(Report.Mine(events, setup), Report.Open) == EntryFills.Quantity(fills)
    ensures Report.Booked(Report.Mine(events, setup), Report.Close) == CloseJournal.QtyTotal(bookings)
    ensures multiset(Report.ClosesIn(Report.Mine(events, setup))) == multiset(CloseRows(setup, bookings))
  {
    hide Report.Booked, Report.Mine, Report.ClosesIn, OpenRows, CloseRows;
    var mine, rows := Report.Mine(events, setup), RowsFor(setup, fills, bookings);
    Report.BookedForgetsOrder(mine, rows, Report.Open);
    Report.BookedForgetsOrder(mine, rows, Report.Close);
    OpensAreBooked(setup, fills);
    ClosesAppend(OpenRows(setup, fills), setup, bookings);
    assert Report.ClosesIn(rows) == CloseRows(setup, bookings);
    forall r
      ensures multiset(Report.ClosesIn(mine))[r] == multiset(Report.ClosesIn(rows))[r]
    {
      Report.ClosesKeepCounts(mine, r);
      Report.ClosesKeepCounts(rows, r);
    }
  }

  /**
   * One pass over final, priced close orders has just been journalled, the entry's open rows add up to its entry
   * quantity, and `events` store what was written for the exposure.
   */
  ghost predicate JustSettled(t: CloseJournal.Trade, rows: seq<CloseJournal.CloseRow>, listed: bool,
                              before: seq<CloseJournal.Booking>, fills: seq<EntryFills.Fill>,
                              events: seq<Report.Row>) {
    var journal := CloseJournal.BookAll(t, rows, listed, before).journal;
    var bookings := CloseJournal.Restrict(journal, t.entryId);
    && t.entryId.Some? && CloseJournal.Measurable(t) && CloseJournal.Distinct(rows)
    && Settlement.AllTerminal(rows) && Settlement.AllAttempted(t, rows, listed)
    && CloseJournal.Booked(before, t.entryId, rows) && CloseJournal.AllMoneyBooked(t, before, rows)
    && 0.0 < Settlement.Reported(t, rows) <= CloseJournal.Initial(t)
    && AllPriced(t, rows)
    && EntryFills.Quantity(fills) == CloseJournal.Initial(t)
    && Named(journal, t.entryId, rows) && Measured(bookings)
    && Stores(events, t.entryId.value, fills, bookings)
  }

  predicate AllPriced(t: CloseJournal.Trade, rows: seq<CloseJournal.CloseRow>) {
    forall i :: 0 <= i < |rows| ==>
      (&& Settlement.Fresh(t, rows[i])
       && (CloseJournal.Raw(rows[i], CloseJournal.Initial(t)) > 0.0 ==> rows[i].average.Some?))
  }

  /**
   * From fills to report. Once an exposure was just settled, whatever else the journal holds and in whatever
   * order, the report returns it exactly when its closes reach its entry, with the gross result the settlement
   * computes independently, and net of exactly the trade's fee in proportion to what was closed.
   */
  lemma ReportReturnsWhatWasSettled(t: CloseJournal.Trade, rows: seq<CloseJournal.CloseRow>, listed: bool,
                                    before: seq<CloseJournal.Booking>, fills: seq<EntryFills.Fill>,
                                    events: seq<Report.Row>, parents: seq<Report.Parent>)
    requires t.entryId.Some? && CloseJournal.Measurable(t)
    ensures JustSettled(t, rows, listed, before, fills, events) && Report.Reads(parents, events) ==>
              var sum := Settlement.Accounted(t, rows);
              var fee := CloseJournal.Prorated(t.fee.value, CloseJournal.Share(sum.qty, CloseJournal.Initial(t)));
              var key := Report.BySetup(t.entryId.value);
              && ((exists p :: p in parents && p.key == key) <==> Report.Reaches(sum.qty, CloseJournal.Initial(t)))
              && (forall p :: p in parents && p.key == key ==>
                    p.gross == Some(sum.gross) && p.net == Some(sum.gross - fee))
  {
    hide *;
    if JustSettled(t, rows, listed, before, fills, events) && Report.Reads(parents, events) {
      Unpacked(t, rows, listed, before, fills, events);
      SomethingIsClosed(t, rows);
      var setup := t.entryId.value;
      var journal := CloseJournal.BookAll(t, rows, listed, before).journal;
      var bookings := CloseJournal.Restrict(journal, t.entryId);
      Settlement.PassMatchesSettlement(t, rows, listed, before);
      SumsAreRestricted(journal, t.entryId, rows);
      Reading(events, parents, setup, fills, bookings);
    }
  }

  lemma Unpacked(t: CloseJournal.Trade, rows: seq<CloseJournal.CloseRow>, listed: bool,
                 before: seq<CloseJournal.Booking>, fills: seq<EntryFills.Fill>, events: seq<Report.Row>)
    requires JustSettled(t, rows, listed, before, fills, events)
    ensures var journal := CloseJournal.BookAll(t, rows, listed, before).journal;
            var bookings := CloseJournal.Restrict(journal, t.entryId);
            && t.entryId.Some? && CloseJournal.Measurable(t) && CloseJournal.Distinct(rows)
            && Settlement.AllTerminal(rows) && Settlement.AllAttempted(t, rows, listed)
            && CloseJournal.Booked(before, t.entryId, rows) && CloseJournal.AllMoneyBooked(t, before, rows)
            && 0.0 < Settlement.Reported(t, rows) <= CloseJournal.Initial(t)
            && (forall i :: 0 <= i < |rows| ==>
                  (&& Settlement.Fresh(t, rows[i])
                   && (CloseJournal.Raw(rows[i], CloseJournal.Initial(t)) > 0.0 ==> rows[i].average.Some?)))
            && EntryFills.Quantity(fills) == CloseJournal.Initial(t)
            && Named(journal, t.entryId, rows) && Measured(bookings)
            && Stores(events, t.entryId.value, fills, bookings)
  {
  }

  lemma SomethingIsClosed(t: CloseJournal.Trade, rows: seq<CloseJournal.CloseRow>)
    requires 0.0 < Settlement.Reported(t, rows) <= CloseJournal.Initial(t)
    ensures Settlement.Accounted(t, rows).qty > 0.0 && CloseJournal.Initial(t) > 0.0
  {
    hide Settlement.Accounted, Settlement.Reported;
    Settlement.AccountedIsCapped(t, rows);
  }

  /** What the reader returns for a stored exposure, in terms of what was booked. */
  lemma Reading(events: seq<Report.Row>, parents: seq<Report.Parent>, setup: nat,
                fills: seq<EntryFills.Fill>, bookings: seq<CloseJournal.Booking>)
    requires Stores(events, setup, fills, bookings) && Measured(bookings)
    requires EntryFills.Quantity(fills) > 0.0 && CloseJournal.QtyTotal(bookings) > 0.0
    requires Report.Reads(parents, events)
    ensures var key := Report.BySetup(setup);
            && ((exists p :: p in parents && p.key == key) <==>
                Report.Reaches(CloseJournal.QtyTotal(bookings), EntryFills.Quantity(fills)))
            && (forall p :: p in parents && p.key == key ==>
                  p.gross == Some(GrossTotal(bookings)) && p.net == Some(GrossTotal(bookings) - FeeTotal(bookings)))
  {
    hide Report.Reaches, Report.Reads, Report.Mine, Report.ClosesIn, Report.RowsOf, Report.Booked, Report.Total;
    hide CloseRows, GrossTotal, FeeTotal, Measured;
    var mine := Report.Mine(events, setup);
    var closes := Report.ClosesIn(mine);
    StoredQuantities(events, setup, fills, bookings);
    assert |multiset(closes)| == |multiset(CloseRows(setup, bookings))|;
    assert bookings != [];
    Report.TotalForgetsOrder(closes, CloseRows(setup, bookings), Report.GrossOf);
    Report.TotalForgetsOrder(closes, CloseRows(setup, bookings), Report.NetOf);
    TotalsAreBooked(setup, bookings);
    Report.ParentsAreTheClosedExposures(parents, events, setup);
  }

  // ---- A smallest case: ten shares bought at 5, sold at 6, for a fee of 1

  const TRADE := CloseJournal.Trade("SPY", Some(1), Some(7), 1.0, 10.0, 10.0, Some(5.0), 1.0, false, Some(1.0),
                                    Some(true), true, None)

  const SALE := CloseJournal.CloseRow(7, "SPY", Some(1), true, Filled, Some(10.0), 10.0, Some(6.0), Some(1.0), 0.0,
                                      0.0, None)

  const BOUGHT := EntryFills.Fill(10.0, Some(5.0))

  /** Its events, and that they meet what the result above asks for. */
  lemma SmallestCase() returns (events: seq<Report.Row>)
    ensures JustSettled(TRADE, [SALE], false, [], [BOUGHT], events)
    ensures CloseJournal.BookAll(TRADE, [SALE], false, []).journal == [CloseJournal.BookingOf(TRADE, SALE, 10.0)]
  {
    hide CloseJournal.BookingOf, CloseJournal.TakeTurn, CloseJournal.Raw;
    var b := CloseJournal.BookingOf(TRADE, SALE, 10.0);
    CloseJournal.OneTurn(TRADE, SALE, false, []);
    SaleIsBooked(b);
    var x, y := OpenRow(1, BOUGHT), CloseRow(1, b);
    events := [x, y];
    OneOfEach(x, y, b);
    FreshSale();
  }

  lemma SaleIsBooked(b: CloseJournal.Booking)
    requires b == CloseJournal.BookingOf(TRADE, SALE, 10.0)
    ensures CloseJournal.TakeTurn(TRADE, SALE, false, 0.0, []).journal == [b]
    ensures b.key == CloseJournal.First(Some(1), 7) && b.qty == 10.0
    ensures b.gross.Some? && b.fee.Some? && b.price.Some?
  {
    hide CloseJournal.Difference, CloseJournal.Directed, CloseJournal.Charged, CloseJournal.Share;
  }

  lemma OneOfEach(x: Report.Row, y: Report.Row, b: CloseJournal.Booking)
    requires x == OpenRow(1, BOUGHT) && y == CloseRow(1, b) && b.key.entry == Some(1) && b.qty > 0.0
    ensures Stores([x, y], 1, [BOUGHT], [b])
    ensures CloseJournal.Restrict([b], Some(1)) == [b]
    ensures EntryFills.Quantity([BOUGHT]) == 10.0
  {
    assert [x, y][..1] == [x] && [x][..0] == [] && [b][..0] == [] && [BOUGHT][..0] == [];
    assert Report.Mine([x][..0], 1) == [] && CloseJournal.Restrict([b][..0], Some(1)) == [];
    assert Report.Mine([x], 1) == [x];
    assert OpenRows(1, [BOUGHT]) == [x] && CloseRows(1, [b]) == [y];
  }

  lemma FreshSale()
    ensures CloseJournal.Booked([], TRADE.entryId, [SALE]) && Settlement.Reported(TRADE, [SALE]) == 10.0
    ensures CloseJournal.Measurable(TRADE) && CloseJournal.AllMoneyBooked(TRADE, [], [SALE])
  {
    assert [SALE][..0] == [];
    Settlement.NoShare(TRADE, 0.0);
  }
}
