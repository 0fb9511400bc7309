/**
 * Close journalling: how the fills of an exposure's close orders become journal rows.
 *
 * A close order reports a cumulative fill. Each reconciliation books what is new since the last one under a
 * replay key, so that a repeated snapshot books nothing.
 */
module CloseJournal {
  import opened Basics

  /** A durable row of a close, flatten or leg order. */
  datatype CloseRow = CloseRow(
    id: nat,
    symbol: string,
    parent: Option<nat>,          // the entry order it closes
    isClose: bool,                // recorded as a close or a flatten
    status: Status,
    qty: Option<real>,
    filled: real,
    average: Option<real>,
    attempt: Option<real>,
    updated: real,
    logged: real,                 // quantity already booked
    loggedAverage: Option<real>)

  /** An active trade, as far as closing it is concerned. */
  datatype Trade = Trade(
    symbol: string,
    entryId: Option<nat>,
    closingId: Option<nat>,
    closingAttempt: real,
    filled: real,                 // cumulative entry fill
    qty: real,
    entryPrice: Option<real>,
    multiplier: real,
    short: bool,
    fee: Option<real>,            // explicit fee of the whole trade
    confirmed: Option<bool>,      // whether a position snapshot ever showed it
    closingReason: bool,
    closingPrice: Option<real>)

  /** A replay key: the first booking of an order, or the growth to a cumulative quantity. */
  datatype Key = First(entry: Option<nat>, close: nat) | Grown(entry: Option<nat>, close: nat, cumulative: real)

  datatype Booking = Booking(key: Key, qty: real, price: Option<real>, gross: Option<real>, fee: Option<real>)

  // ---- Quantities

  /** The entry quantity an exposure answers for. */
  function Initial(t: Trade): real { Max(t.filled, t.qty) }

  function Requested(row: CloseRow, initial: real): real {
    if row.qty.Some? && row.qty.value != 0.0 then row.qty.value else initial
  }

  /** The fill a row is credited with: never more than it asked for or than there was to close. */
  function Raw(row: CloseRow, initial: real): real {
    var reported := if row.filled <= 0.0 && row.status == Filled then Requested(row, initial) else row.filled;
    Min(Min(initial, Max(0.0, reported)), Requested(row, initial))
  }

  /**
   * That is the reported fill, up to the entry and what the row asked for, if it says; a filled row that reports
   * no quantity counts as wholly filled.
   */
  lemma CreditedFill(row: CloseRow, initial: real)
    requires initial >= 0.0 && (row.qty.Some? ==> row.qty.value >= 0.0)
    ensures var most := if row.qty.Some? && 0.0 < row.qty.value < initial then row.qty.value else initial;
            Raw(row, initial) == if row.filled > most then most
                                 else if row.filled > 0.0 then row.filled
                                 else if row.status == Filled then most
                                 else 0.0
  {
  }

  /** Only final rows are booked, and while the position is visible only explicit close attempts are. */
  predicate Eligible(row: CloseRow, initial: real, visible: bool) {
    row.status.IsTerminal() && (visible ==> row.attempt.Some?) && Raw(row, initial) > 0.0
  }

  function Sign(t: Trade): real { if t.short then -1.0 else 1.0 }

  function Difference(entry: real, exit: real, qty: real): real { (exit - entry) * qty }

  /** Scales a price difference to money, in the direction of the position. */
  function Directed(t: Trade, difference: real): real { difference * t.multiplier * Sign(t) }

  function Gross(t: Trade, price: Option<real>, qty: real): Option<real> {
    if t.entryPrice.Some? && price.Some?
    then Some(Directed(t, Difference(t.entryPrice.value, price.value, qty)))
    else None
  }

  function Share(qty: real, whole: real): real
    requires whole > 0.0
  {
    qty / whole
  }

  function Prorated(fee: real, share: real): real { fee * share }

  function Charged(fee: real, share: real): real { Max(0.0, Prorated(fee, Min(1.0, share))) }

  /** The share of an explicit whole-trade fee that falls on a quantity; unknown together with the gross result. */
  function Fee(t: Trade, price: Option<real>, qty: real): Option<real> {
    if t.fee.None? || Gross(t, price, qty).None? then None
    else if Initial(t) > 0.0 then Some(Charged(t.fee.value, Share(qty, Initial(t))))
    else Some(Max(0.0, t.fee.value))
  }

  /** The fee of a measured close is its share of the trade's fee, never negative, never more than the whole. */
  lemma FeeIsItsShare(t: Trade, price: real, qty: real)
    requires t.fee.Some? && t.entryPrice.Some? && qty >= 0.0
    ensures var fee := Fee(t, Some(price), qty);
            && fee.Some?
            && (t.fee.value <= 0.0 ==> fee.value == 0.0)
            && (t.fee.value >= 0.0 && qty >= Initial(t) ==> fee.value == t.fee.value)
            && (t.fee.value >= 0.0 && qty < Initial(t) ==> Times(fee.value, Initial(t)) == Times(t.fee.value, qty))
  {
    if Initial(t) > 0.0 {
      ShareOf(t.fee.value, qty, Initial(t));
    }
  }

  lemma ShareOf(fee: real, qty: real, whole: real)
    requires qty >= 0.0 && whole > 0.0
    ensures var charged := Charged(fee, Share(qty, whole));
            && (fee <= 0.0 ==> charged == 0.0)
            && (fee >= 0.0 && qty >= whole ==> charged == fee)
            && (fee >= 0.0 && qty < whole ==> Times(charged, whole) == Times(fee, qty))
  {
    var share := Share(qty, whole);
    assert share * whole == qty;
    assert qty >= whole <==> share >= 1.0;
    var part := Min(1.0, share);
    assert fee >= 0.0 ==> fee * part >= 0.0;
    assert fee <= 0.0 ==> fee * part <= 0.0;
    assert (fee * share) * whole == fee * (share * whole);
  }

  // ---- The journal

  predicate HasKey(journal: seq<Booking>, key: Key) {
    exists i :: 0 <= i < |journal| && journal[i].key == key
  }

  /** Inserts a row unless its key is present. */
  function Log(journal: seq<Booking>, b: Booking): seq<Booking> {
    if HasKey(journal, b.key) then journal else journal + [b]
  }

  predicate Concerns(b: Booking, entry: Option<nat>, close: nat) { b.key.entry == entry && b.key.close == close }

  /** Quantity booked for one close order of one exposure. */
  function BookedQty(journal: seq<Booking>, entry: Option<nat>, close: nat): real {
    if journal == [] then 0.0
    else
      var b := journal[|journal| - 1];
      BookedQty(journal[..|journal| - 1], entry, close) + if Concerns(b, entry, close) then b.qty else 0.0
  }

  /** Price-weighted quantity, gross result and fees. */
  datatype Money = Money(value: real, gross: real, fees: real)
  {
    function Plus(m: Money): Money { Money(value + m.value, gross + m.gross, fees + m.fees) }
  }

  const NOTHING := Money(0.0, 0.0, 0.0)

  function MoneyIn(b: Booking): Money {
    Money(b.qty * b.price.GetOr(0.0), b.gross.GetOr(0.0), b.fee.GetOr(0.0))
  }

  /** Money booked for one close order of one exposure. */
  function BookedMoney(journal: seq<Booking>, entry: Option<nat>, close: nat): Money {
    if journal == [] then NOTHING
    else
      var b := journal[|journal| - 1];
      BookedMoney(journal[..|journal| - 1], entry, close)
      .Plus(if Concerns(b, entry, close) then MoneyIn(b) else NOTHING)
  }

  // ---- One order's turn

  /** What a turn leaves: the row, the quantity allotted so far and the journal. */
  datatype Turn = Turn(row: CloseRow, allotted: real, journal: seq<Booking>)

  /** Quantity not booked before, as far as the entry still has room. */
  function Unbooked(row: CloseRow, initial: real, allotted: real): real {
    var raw := Raw(row, initial);
    Min(Max(0.0, raw - AlreadyBooked(row, initial)), Max(0.0, initial - allotted))
  }

  function AlreadyBooked(row: CloseRow, initial: real): real { Min(Raw(row, initial), Max(0.0, row.logged)) }

  /** The price at which `qty` takes the booked value to the new cumulative average. */
  function Implied(average: real, raw: real, loggedAverage: real, logged: real, qty: real): (r: real)
    requires qty > 0.0
    ensures qty * r == average * raw - loggedAverage * logged
  {
    (average * raw - loggedAverage * logged) / qty
  }

  function BookingPrice(row: CloseRow, initial: real, qty: real): Option<real>
    requires qty > 0.0
  {
    var raw, booked := Raw(row, initial), AlreadyBooked(row, initial);
    if booked > 0.0 && row.average.Some? && row.loggedAverage.Some? && raw > booked
    then Some(Implied(row.average.value, raw, row.loggedAverage.value, booked, qty))
    else row.average
  }

  function BookingKey(t: Trade, row: CloseRow, initial: real): Key {
    if AlreadyBooked(row, initial) <= 0.0 then First(t.entryId, row.id)
    else Grown(t.entryId, row.id, Raw(row, initial))
  }

  function BookingOf(t: Trade, row: CloseRow, qty: real): Booking
    requires qty > 0.0
  {
    var price := BookingPrice(row, Initial(t), qty);
    Booking(BookingKey(t, row, Initial(t)), qty, price, Gross(t, price, qty), Fee(t, price, qty))
  }

  function TakeTurn(t: Trade, row: CloseRow, visible: bool, allotted: real, journal: seq<Booking>): Turn {
    var initial := Initial(t);
    if !Eligible(row, initial, visible) then Turn(row, allotted, journal)
    else
      var qty := Unbooked(row, initial, allotted);
      var rest := allotted + Min(Raw(row, initial), Max(0.0, initial - allotted));
      if qty <= 0.0 then Turn(row, rest, journal)
      else
        Turn(row.(logged := Raw(row, initial),
                  loggedAverage := if row.average.Some? then row.average else row.loggedAverage),
             rest,
             Log(journal, BookingOf(t, row, qty)))
  }

  // ---- The whole loop, in attempt order

  datatype Pass = Pass(rows: seq<CloseRow>, allotted: real, journal: seq<Booking>)

  function BookAll(t: Trade, rows: seq<CloseRow>, visible: bool, journal: seq<Booking>): (p: Pass)
    ensures |p.rows| == |rows|
  {
    if rows == [] then Pass([], 0.0, journal)
    else
      var before := BookAll(t, rows[..|rows| - 1], visible, journal);
      var turn := TakeTurn(t, rows[|rows| - 1], visible, before.allotted, before.journal);
      Pass(before.rows + [turn.row], turn.allotted, turn.journal)
  }

  class Journal {
    var entries: seq<Booking>

    constructor ()
      ensures entries == []
    {
      entries := [];
    }

    method LogTrade(b: Booking)
      modifies this
      ensures entries == Log(old(entries), b)
    {
      var k := 0;
      while k < |entries|
        invariant 0 <= k <= |entries|
        invariant forall i :: 0 <= i < k ==> entries[i].key != b.key
      {
        if entries[k].key == b.key {
          return;
        }
        k := k + 1;
      }
      entries := entries + [b];
    }

    /** Journals one new quantity of a close order. */
    method JournalFill(t: Trade, row: CloseRow, raw: real, booked: real, qty: real)
      requires qty > 0.0 && raw == Raw(row, Initial(t)) && booked == AlreadyBooked(row, Initial(t))
      modifies this
      ensures entries == Log(old(entries), BookingOf(t, row, qty))
    {
      var price := row.average;
      if booked > 0.0 && price.Some? && row.loggedAverage.Some? && raw > booked {
        price := Some(Implied(price.value, raw, row.loggedAverage.value, booked, qty));
      }
      var key := if booked <= 0.0 then First(t.entryId, row.id) else Grown(t.entryId, row.id, raw);
      LogTrade(Booking(key, qty, price, Gross(t, price, qty), Fee(t, price, qty)));
    }

    /** One close order's turn. */
    method BookOrder(t: Trade, saved: CloseRow, visible: bool, allotted: real)
      returns (row: CloseRow, total: real)
      modifies this
      ensures Turn(row, total, entries) == TakeTurn(t, saved, visible, allotted, old(entries))
    {
      hide BookingOf;
      row, total := saved, allotted;
      var initial := if t.filled >= t.qty then t.filled else t.qty;
      var raw := row.filled;
      var requested := initial;
      if row.qty.Some? && row.qty.value != 0.0 {
        requested := row.qty.value;
      }
      if raw <= 0.0 && row.status == Filled {
        raw := requested;
      }
      raw := Min(Min(initial, Max(0.0, raw)), requested);
      assert raw == Raw(row, initial);
      hide Raw;
      if !row.status.IsTerminal() || (visible && row.attempt.None?) || raw <= 0.0 {
        return;
      }
      var available := Max(0.0, initial - allotted);
      var booked := Min(raw, Max(0.0, row.logged));
      var qty := Min(Max(0.0, raw - booked), available);
      if qty > 0.0 {
        JournalFill(t, row, raw, booked, qty);
        row := row.(logged := raw);
        if row.average.Some? {
          row := row.(loggedAverage := row.average);
        }
      }
      total := allotted + Min(raw, available);
    }

    /** Books every close order of one trade; the rows come back with their progress. */
    method JournalCloses(t: Trade, rows: seq<CloseRow>, visible: bool) returns (updated: seq<CloseRow>)
      modifies this
      ensures updated == BookAll(t, rows, visible, old(entries)).rows
      ensures entries == BookAll(t, rows, visible, old(entries)).journal
    {
      updated := [];
      var allotted := 0.0;
      var k := 0;
      while k < |rows|
        invariant 0 <= k <= |rows|
        invariant Pass(updated, allotted, entries) == BookAll(t, rows[..k], visible, old(entries))
      {
        assert rows[..k + 1][..k] == rows[..k];
        var row, total := BookOrder(t, rows[k], visible, allotted);
        updated, allotted := updated + [row], total;
        k := k + 1;
      }
      assert rows[..k] == rows;
    }
  }

  // ---- What every turn keeps

  /** A key used at or before the point where `logged` was booked. */
  predicate KeyBelow(key: Key, logged: real) {
    match key
    case First(_, _) => logged > 0.0
    case Grown(_, _, cumulative) => cumulative <= logged
  }

  ghost predicate KeysBelow(journal: seq<Booking>, entry: Option<nat>, close: nat, logged: real) {
    forall i :: 0 <= i < |journal| && Concerns(journal[i], entry, close) ==> KeyBelow(journal[i].key, logged)
  }

  /** The journal holds exactly the quantity the row says is booked, under keys already spent. */
  ghost predicate QtyBooked(journal: seq<Booking>, entry: Option<nat>, row: CloseRow) {
    && 0.0 <= row.logged == BookedQty(journal, entry, row.id)
    && KeysBelow(journal, entry, row.id, row.logged)
  }

  /** A trade whose profit and fees are measurable. */
  predicate Measurable(t: Trade) {
    t.entryPrice.Some? && t.fee.Some? && t.fee.value >= 0.0 && Initial(t) > 0.0
  }

  /** Value, gross result and pro-rated fee of closing `qty` for `value`. */
  function MoneyOf(t: Trade, qty: real, value: real): Money
    requires Measurable(t)
  {
    Money(value, Directed(t, value - t.entryPrice.value * qty), Prorated(t.fee.value, Share(qty, Initial(t))))
  }

  function Closing(t: Trade, qty: real, price: real): Money
    requires Measurable(t)
  {
    MoneyOf(t, qty, qty * price)
  }

  /** The booked money is what closing the booked quantity at the booked average comes to. */
  ghost predicate MoneyBooked(t: Trade, journal: seq<Booking>, row: CloseRow)
    requires Measurable(t)
  {
    && (row.logged > 0.0 ==> row.loggedAverage.Some?)
    && BookedMoney(journal, t.entryId, row.id) == Closing(t, row.logged, row.loggedAverage.GetOr(0.0))
  }

  /** An order's turn has room for all it reports. */
  predicate Fits(t: Trade, row: CloseRow, visible: bool, allotted: real) {
    Eligible(row, Initial(t), visible) ==> Raw(row, Initial(t)) <= Initial(t) - allotted
  }

  function NowLogged(t: Trade, row: CloseRow, visible: bool): real {
    if Eligible(row, Initial(t), visible) then Max(row.logged, Raw(row, Initial(t))) else row.logged
  }

  function NowAverage(t: Trade, row: CloseRow, visible: bool): Option<real> {
    if Eligible(row, Initial(t), visible) && Raw(row, Initial(t)) > row.logged then row.average else row.loggedAverage
  }

  function Taken(t: Trade, row: CloseRow, visible: bool): real {
    if Eligible(row, Initial(t), visible) then Raw(row, Initial(t)) else 0.0
  }

  /** A turn books exactly the growth of the order's fill. */
  lemma TurnBooksGrowth(t: Trade, row: CloseRow, visible: bool, allotted: real, journal: seq<Booking>)
    requires QtyBooked(journal, t.entryId, row) && Fits(t, row, visible, allotted)
    ensures var turn := TakeTurn(t, row, visible, allotted, journal);
            && turn.allotted == allotted + Taken(t, row, visible)
            && turn.row == row.(logged := NowLogged(t, row, visible), loggedAverage := turn.row.loggedAverage)
            && QtyBooked(turn.journal, t.entryId, turn.row)
  {
    hide BookingOf, Raw, HasKey, BookingKey, BookedQty, KeysBelow;
    var qty := Unbooked(row, Initial(t), allotted);
    if Eligible(row, Initial(t), visible) && qty > 0.0 {
      KeyIsNew(t, row, qty, journal);
      NewBooking(t, row, qty);
      BookingAppends(t, row, journal, BookingOf(t, row, qty), Raw(row, Initial(t)));
    }
  }

  /** The same turn moves the money to the new quantity at the new average. */
  lemma TurnBooksMoney(t: Trade, row: CloseRow, visible: bool, allotted: real, journal: seq<Booking>)
    requires QtyBooked(journal, t.entryId, row) && Fits(t, row, visible, allotted)
    requires Measurable(t) && MoneyBooked(t, journal, row)
    requires Eligible(row, Initial(t), visible) ==> row.average.Some?
    ensures var turn := TakeTurn(t, row, visible, allotted, journal);
            MoneyBooked(t, turn.journal, turn.row) && turn.row.loggedAverage == NowAverage(t, row, visible)
  {
    hide BookingOf, Raw, HasKey, Closing, KeysBelow, BookedQty, BookedMoney, Log;
    var qty := Unbooked(row, Initial(t), allotted);
    if Eligible(row, Initial(t), visible) && qty > 0.0 {
      KeyIsNew(t, row, qty, journal);
      assert TakeTurn(t, row, visible, allotted, journal).row ==
             row.(logged := Raw(row, Initial(t)), loggedAverage := row.average);
      NewBooking(t, row, qty);
      MoneyAppends(journal, BookingOf(t, row, qty), t.entryId, row.id);
      MoneyMoves(t, row, qty);
    }
  }

  lemma MoneyAppends(journal: seq<Booking>, b: Booking, entry: Option<nat>, close: nat)
    requires Concerns(b, entry, close)
    ensures BookedMoney(journal + [b], entry, close) == BookedMoney(journal, entry, close).Plus(MoneyIn(b))
  {
  }

  lemma MoneyMoves(t: Trade, row: CloseRow, qty: real)
    requires Measurable(t) && 0.0 < qty == Raw(row, Initial(t)) - row.logged && 0.0 <= row.logged
    requires row.average.Some? && (row.logged > 0.0 ==> row.loggedAverage.Some?)
    ensures Closing(t, row.logged, row.loggedAverage.GetOr(0.0)).Plus(MoneyIn(BookingOf(t, row, qty))) ==
            Closing(t, Raw(row, Initial(t)), row.average.value)
  {
    BookingMoney(t, row, qty);
    BookedMeetsAverage(row, Initial(t), qty);
    ClosingsMeet(t, row.logged, row.loggedAverage.GetOr(0.0), qty, BookingPrice(row, Initial(t), qty).value,
                 Raw(row, Initial(t)), row.average.value);
  }

  lemma ClosingsMeet(t: Trade, logged: real, before: real, qty: real, price: real, raw: real, average: real)
    requires Measurable(t) && logged + qty == raw && logged * before + qty * price == raw * average
    ensures Closing(t, logged, before).Plus(Closing(t, qty, price)) == Closing(t, raw, average)
  {
    MoneyAdds(t, logged, logged * before, qty, qty * price);
  }

  lemma KeyIsNew(t: Trade, row: CloseRow, qty: real, journal: seq<Booking>)
    requires QtyBooked(journal, t.entryId, row) && 0.0 < qty && Raw(row, Initial(t)) > row.logged
    ensures Log(journal, BookingOf(t, row, qty)) == journal + [BookingOf(t, row, qty)]
  {
    hide Gross, Fee, BookingPrice, Raw, BookedQty;
  }

  lemma BookedMeetsAverage(row: CloseRow, initial: real, qty: real)
    requires 0.0 < qty == Raw(row, initial) - row.logged && 0.0 <= row.logged
    requires row.average.Some? && (row.logged > 0.0 ==> row.loggedAverage.Some?)
    ensures row.logged * row.loggedAverage.GetOr(0.0) + qty * BookingPrice(row, initial, qty).value ==
            Raw(row, initial) * row.average.value
  {
    if row.logged > 0.0 {
      assert BookingPrice(row, initial, qty).value ==
             Implied(row.average.value, Raw(row, initial), row.loggedAverage.value, row.logged, qty);
    }
  }

  /** One booking's money, in terms of its quantity and price. */
  lemma BookingMoney(t: Trade, row: CloseRow, qty: real)
    requires Measurable(t) && row.average.Some? && 0.0 < qty <= Initial(t)
    ensures var b := BookingOf(t, row, qty);
            && b.price == BookingPrice(row, Initial(t), qty)
            && b.price.Some?
            && MoneyIn(b) == Closing(t, qty, b.price.value)
  {
    FeeOf(t, BookingPrice(row, Initial(t), qty).value, qty);
    GrossOf(t, BookingPrice(row, Initial(t), qty).value, qty);
  }

  lemma GrossOf(t: Trade, price: real, qty: real)
    requires Measurable(t)
    ensures Gross(t, Some(price), qty) == Some(Closing(t, qty, price).gross)
  {
    DirectedEqual(t, Difference(t.entryPrice.value, price, qty), qty * price - t.entryPrice.value * qty);
    assert Gross(t, Some(price), qty).value == MoneyOf(t, qty, qty * price).gross;
  }

  /** What closing `qty` for `value` earns: what is received less what was paid, the other way round for a short. */
  function Gained(t: Trade, value: real, qty: real): real
    requires t.entryPrice.Some?
  {
    var cost := Times(t.entryPrice.value, qty);
    Times(t.multiplier, if t.short then cost - value else value - cost)
  }

  /** The gross result of one quantity at one price is that, and a gain exactly on the right side of the entry. */
  lemma GrossIsGained(t: Trade, price: real, qty: real)
    requires t.entryPrice.Some?
    ensures Gross(t, Some(price), qty) == Some(Gained(t, Times(price, qty), qty))
    ensures t.multiplier > 0.0 && qty > 0.0 ==>
              (Gross(t, Some(price), qty).value > 0.0 <==>
               if t.short then price < t.entryPrice.value else price > t.entryPrice.value)
    ensures t.multiplier > 0.0 && qty > 0.0 ==>
              (Gross(t, Some(price), qty).value == 0.0 <==> price == t.entryPrice.value)
    ensures Gross(t, None, qty).None?
  {
    var entry := t.entryPrice.value;
    var up := price - entry;
    assert Difference(entry, price, qty) == Times(up, qty) == Times(price, qty) - Times(entry, qty);
    assert Directed(t, Times(up, qty)) == Times(t.multiplier, if t.short then -Times(up, qty) else Times(up, qty));
    if t.multiplier > 0.0 && qty > 0.0 {
      SignOfTimes(up, qty);
      SignOfTimes(if t.short then -Times(up, qty) else Times(up, qty), t.multiplier);
    }
  }

  lemma SignOfTimes(a: real, b: real)
    requires b > 0.0
    ensures (Times(a, b) > 0.0 <==> a > 0.0) && (Times(a, b) == 0.0 <==> a == 0.0) && Times(a, b) == Times(b, a)
  {
    if a > 0.0 {
      Positive(a, b);
    } else if a < 0.0 {
      Positive(-a, b);
      assert Times(-a, b) == -Times(a, b);
    }
  }

  /** So is the money of a whole quantity, and with it what a run of bookings adds up to. */
  lemma MoneyIsGained(t: Trade, qty: real, value: real)
    requires Measurable(t)
    ensures MoneyOf(t, qty, value).gross == Gained(t, value, qty)
  {
    var cost := Times(t.entryPrice.value, qty);
    DirectedEqual(t, value - t.entryPrice.value * qty, value - cost);
    assert Directed(t, value - cost) == Times(t.multiplier, if t.short then cost - value else value - cost);
  }

  /** Every journalled row's result is what its quantity earned at its price. */
  lemma BookingIsGained(t: Trade, row: CloseRow, qty: real)
    requires t.entryPrice.Some? && qty > 0.0 && row.average.Some?
    ensures var b := BookingOf(t, row, qty);
            && b.qty == qty && b.price.Some?
            && b.gross == Some(Gained(t, Times(b.price.value, qty), qty))
  {
    hide Gross, Fee;
    GrossIsGained(t, BookingPrice(row, Initial(t), qty).value, qty);
  }

  lemma DirectedEqual(t: Trade, x: real, y: real)
    requires x == y
    ensures Directed(t, x) == Directed(t, y)
  {
  }

  lemma FeeOf(t: Trade, price: real, qty: real)
    requires Measurable(t) && 0.0 < qty <= Initial(t)
    ensures Fee(t, Some(price), qty) == Some(Closing(t, qty, price).fees)
  {
    var share := Share(qty, Initial(t));
    ShareIsAPart(qty, Initial(t));
    ChargedInFull(t.fee.value, share);
    assert Fee(t, Some(price), qty) == Some(Charged(t.fee.value, share));
    assert Closing(t, qty, price).fees == Prorated(t.fee.value, share);
  }

  lemma ChargedInFull(fee: real, share: real)
    requires 0.0 <= fee && 0.0 <= share <= 1.0
    ensures Charged(fee, share) == Prorated(fee, share)
  {
    NonNegative(fee, share);
  }

  lemma ShareIsAPart(qty: real, whole: real)
    requires 0.0 <= qty <= whole && whole > 0.0
    ensures 0.0 <= Share(qty, whole) <= 1.0
  {
    var over := Share(qty, whole) - 1.0;
    assert over * whole == qty - whole;
    if over > 0.0 {
      Positive(over, whole);
    }
  }

  lemma MoneyAdds(t: Trade, q: real, v: real, p: real, w: real)
    requires Measurable(t)
    ensures MoneyOf(t, q, v).Plus(MoneyOf(t, p, w)) == MoneyOf(t, q + p, v + w)
  {
    GrossAdds(t, t.entryPrice.value, q, v, p, w);
    ShareAdds(t.fee.value, q, p, Initial(t));
  }

  lemma GrossAdds(t: Trade, e: real, q: real, v: real, p: real, w: real)
    ensures Directed(t, v - e * q) + Directed(t, w - e * p) == Directed(t, v + w - e * (q + p))
  {
    var x, y := v - e * q, w - e * p;
    assert v + w - e * (q + p) == x + y;
    assert (x + y) * t.multiplier == x * t.multiplier + y * t.multiplier;
  }

  lemma ShareAdds(f: real, q: real, p: real, whole: real)
    requires whole > 0.0
    ensures Prorated(f, Share(q, whole)) + Prorated(f, Share(p, whole)) == Prorated(f, Share(q + p, whole))
  {
    assert (q + p) / whole == q / whole + p / whole;
  }

  // ---- Whole passes

  predicate Distinct(rows: seq<CloseRow>) {
    forall i, j :: 0 <= i < j < |rows| ==> rows[i].id != rows[j].id
  }

  ghost predicate Booked(journal: seq<Booking>, entry: Option<nat>, rows: seq<CloseRow>) {
    forall i :: 0 <= i < |rows| ==> QtyBooked(journal, entry, rows[i])
  }

  ghost predicate AllMoneyBooked(t: Trade, journal: seq<Booking>, rows: seq<CloseRow>)
    requires Measurable(t)
  {
    forall i :: 0 <= i < |rows| ==> MoneyBooked(t, journal, rows[i])
  }

  predicate AveragesKnown(t: Trade, rows: seq<CloseRow>, visible: bool) {
    forall i :: 0 <= i < |rows| && Eligible(rows[i], Initial(t), visible) ==> rows[i].average.Some?
  }

  /** What the close orders report together. */
  function TakenTotal(t: Trade, rows: seq<CloseRow>, visible: bool): (r: real)
    ensures r >= 0.0
  {
    if rows == [] then 0.0
    else TakenTotal(t, rows[..|rows| - 1], visible) + Taken(t, rows[|rows| - 1], visible)
  }

  /** A turn changes nothing booked for another order, of this exposure or any other. */
  lemma TurnKeepsOthers(t: Trade, row: CloseRow, visible: bool, allotted: real, journal: seq<Booking>,
                        entry: Option<nat>, close: nat, logged: real)
    requires entry != t.entryId || close != row.id
    ensures var after := TakeTurn(t, row, visible, allotted, journal).journal;
            && BookedQty(after, entry, close) == BookedQty(journal, entry, close)
            && BookedMoney(after, entry, close) == BookedMoney(journal, entry, close)
            && (KeysBelow(journal, entry, close, logged) ==> KeysBelow(after, entry, close, logged))
  {
    hide Gross, Fee, BookingPrice;
    var after := TakeTurn(t, row, visible, allotted, journal).journal;
    if |after| > |journal| {
      assert after[..|after| - 1] == journal;
    }
  }

  lemma {:induction false} PassKeepsOthers(t: Trade, rows: seq<CloseRow>, visible: bool, journal: seq<Booking>,
                                           entry: Option<nat>, close: nat, logged: real)
    requires entry != t.entryId || forall i :: 0 <= i < |rows| ==> rows[i].id != close
    ensures var after := BookAll(t, rows, visible, journal).journal;
            && BookedQty(after, entry, close) == BookedQty(journal, entry, close)
            && BookedMoney(after, entry, close) == BookedMoney(journal, entry, close)
            && (KeysBelow(journal, entry, close, logged) ==> KeysBelow(after, entry, close, logged))
  {
    hide BookingOf;
    if rows != [] {
      var n := |rows| - 1;
      var before := BookAll(t, rows[..n], visible, journal);
      PassKeepsOthers(t, rows[..n], visible, journal, entry, close, logged);
      TurnKeepsOthers(t, rows[n], visible, before.allotted, before.journal, entry, close, logged);
    }
  }

  lemma RowKept(t: Trade, rows: seq<CloseRow>, visible: bool, journal: seq<Booking>, other: CloseRow)
    requires forall i :: 0 <= i < |rows| ==> rows[i].id != other.id
    ensures var after := BookAll(t, rows, visible, journal).journal;
            && (QtyBooked(journal, t.entryId, other) ==> QtyBooked(after, t.entryId, other))
            && (Measurable(t) && MoneyBooked(t, journal, other) ==> MoneyBooked(t, after, other))
  {
    PassKeepsOthers(t, rows, visible, journal, t.entryId, other.id, other.logged);
  }

  lemma RowKeptByTurn(t: Trade, row: CloseRow, visible: bool, allotted: real, journal: seq<Booking>, other: CloseRow)
    requires row.id != other.id
    ensures var after := TakeTurn(t, row, visible, allotted, journal).journal;
            && (QtyBooked(journal, t.entryId, other) ==> QtyBooked(after, t.entryId, other))
            && (Measurable(t) && MoneyBooked(t, journal, other) ==> MoneyBooked(t, after, other))
  {
    TurnKeepsOthers(t, row, visible, allotted, journal, t.entryId, other.id, other.logged);
  }

  /** A pass with room for every reported fill books each order's growth, in whatever order the rows come. */
  lemma {:induction false} PassBooks(t: Trade, rows: seq<CloseRow>, visible: bool, journal: seq<Booking>)
    requires Distinct(rows) && Booked(journal, t.entryId, rows)
    requires TakenTotal(t, rows, visible) <= Initial(t)
    ensures var p := BookAll(t, rows, visible, journal);
            && p.allotted == TakenTotal(t, rows, visible)
            && Booked(p.journal, t.entryId, p.rows)
            && (forall i :: 0 <= i < |rows| ==>
                  p.rows[i] == rows[i].(logged := NowLogged(t, rows[i], visible),
                                        loggedAverage := p.rows[i].loggedAverage))
  {
    hide TakeTurn, QtyBooked, NowLogged;
    if rows != [] {
      var n := |rows| - 1;
      var before := BookAll(t, rows[..n], visible, journal);
      PassBooks(t, rows[..n], visible, journal);
      RowKept(t, rows[..n], visible, journal, rows[n]);
      TurnBooksGrowth(t, rows[n], visible, before.allotted, before.journal);
      forall i | 0 <= i < n
        ensures QtyBooked(BookAll(t, rows, visible, journal).journal, t.entryId, before.rows[i])
      {
        RowKeptByTurn(t, rows[n], visible, before.allotted, before.journal, before.rows[i]);
      }
    }
  }

  lemma {:induction false} PassBooksMoney(t: Trade, rows: seq<CloseRow>, visible: bool, journal: seq<Booking>)
    requires Distinct(rows) && Booked(journal, t.entryId, rows)
    requires Measurable(t) && AllMoneyBooked(t, journal, rows)
    requires TakenTotal(t, rows, visible) <= Initial(t) && AveragesKnown(t, rows, visible)
    ensures var p := BookAll(t, rows, visible, journal);
            && AllMoneyBooked(t, p.journal, p.rows)
            && (forall i :: 0 <= i < |rows| ==> p.rows[i].loggedAverage == NowAverage(t, rows[i], visible))
  {
    hide TakeTurn, QtyBooked, MoneyBooked, NowLogged, NowAverage;
    if rows != [] {
      var n := |rows| - 1;
      var before := BookAll(t, rows[..n], visible, journal);
      PassBooks(t, rows[..n], visible, journal);
      PassBooksMoney(t, rows[..n], visible, journal);
      RowKept(t, rows[..n], visible, journal, rows[n]);
      TurnBooksMoney(t, rows[n], visible, before.allotted, before.journal);
      forall i | 0 <= i < n
        ensures MoneyBooked(t, BookAll(t, rows, visible, journal).journal, before.rows[i])
      {
        RowKeptByTurn(t, rows[n], visible, before.allotted, before.journal, before.rows[i]);
      }
    }
  }

  // ---- Repeating and overbooking

  lemma TurnRepeats(t: Trade, row: CloseRow, visible: bool, allotted: real,
                    journal: seq<Booking>, later: seq<Booking>)
    ensures var turn := TakeTurn(t, row, visible, allotted, journal);
            TakeTurn(t, turn.row, visible, allotted, later) == Turn(turn.row, turn.allotted, later)
  {
  }

  /** Repeating a snapshot journals nothing and changes no row, whatever the rows and the journal are. */
  lemma {:induction false} RepeatBooksNothing(t: Trade, rows: seq<CloseRow>, visible: bool,
                                              journal: seq<Booking>, later: seq<Booking>)
    ensures var p := BookAll(t, rows, visible, journal);
            BookAll(t, p.rows, visible, later) == Pass(p.rows, p.allotted, later)
  {
    hide BookingOf;
    if rows != [] {
      var n := |rows| - 1;
      var before := BookAll(t, rows[..n], visible, journal);
      var p := BookAll(t, rows, visible, journal);
      RepeatBooksNothing(t, rows[..n], visible, journal, later);
      assert p.rows[..n] == before.rows;
      TurnRepeats(t, rows[n], visible, before.allotted, before.journal, later);
    }
  }

  function QtyTotal(journal: seq<Booking>): real {
    if journal == [] then 0.0 else QtyTotal(journal[..|journal| - 1]) + journal[|journal| - 1].qty
  }

  /** Stale or redundant orders cannot take one pass over the entry quantity, and all it covers is allotted. */
  lemma {:induction false} PassNeverOverbooks(t: Trade, rows: seq<CloseRow>, visible: bool, journal: seq<Booking>)
    requires Initial(t) >= 0.0
    ensures var p := BookAll(t, rows, visible, journal);
            && p.allotted == Min(Initial(t), TakenTotal(t, rows, visible))
            && QtyTotal(journal) <= QtyTotal(p.journal) <= QtyTotal(journal) + p.allotted
  {
    hide TakeTurn, QtyTotal;
    if rows != [] {
      var n := |rows| - 1;
      var before := BookAll(t, rows[..n], visible, journal);
      PassNeverOverbooks(t, rows[..n], visible, journal);
      TurnNeverOverbooks(t, rows[n], visible, before.allotted, before.journal);
    }
  }

  lemma TurnNeverOverbooks(t: Trade, row: CloseRow, visible: bool, allotted: real, journal: seq<Booking>)
    requires 0.0 <= allotted <= Initial(t)
    ensures var turn := TakeTurn(t, row, visible, allotted, journal);
            && turn.allotted == Min(Initial(t), allotted + Taken(t, row, visible))
            && QtyTotal(journal) <= QtyTotal(turn.journal) <= QtyTotal(journal) + turn.allotted - allotted
  {
    hide Gross, Fee, BookingPrice;
    var after := TakeTurn(t, row, visible, allotted, journal).journal;
    if |after| > |journal| {
      assert after[..|after| - 1] == journal;
    }
  }

  // ---- Whole runs

  /** What one snapshot says of a close order. */
  datatype CloseView = CloseView(status: Status, filled: real, average: Option<real>)

  datatype CloseSnapshot = CloseSnapshot(visible: bool, views: seq<CloseView>)

  /** Rows with this snapshot's evidence; a row the snapshot does not mention keeps its own. */
  function Refreshed(rows: seq<CloseRow>, views: seq<CloseView>): (r: seq<CloseRow>)
    ensures |r| == |rows|
    ensures forall i :: 0 <= i < |rows| ==>
              (&& r[i].id == rows[i].id
               && r[i].logged == rows[i].logged
               && r[i].loggedAverage == rows[i].loggedAverage)
  {
    seq(|rows|, i requires 0 <= i < |rows| =>
      if i < |views|
      then rows[i].(status := views[i].status, filled := views[i].filled, average := views[i].average)
      else rows[i])
  }

  function Passes(t: Trade, rows: seq<CloseRow>, journal: seq<Booking>, snapshots: seq<CloseSnapshot>): (p: Pass)
    ensures |p.rows| == |rows|
  {
    if snapshots == [] then Pass(rows, 0.0, journal)
    else
      var before := Passes(t, rows, journal, snapshots[..|snapshots| - 1]);
      var s := snapshots[|snapshots| - 1];
      BookAll(t, Refreshed(before.rows, s.views), s.visible, before.journal)
  }

  /** Every snapshot prices its fills, and the exits it reports never exceed the entry. */
  ghost predicate Plausible(t: Trade, rows: seq<CloseRow>, journal: seq<Booking>, snapshots: seq<CloseSnapshot>) {
    snapshots == [] ||
    (&& Plausible(t, rows, journal, snapshots[..|snapshots| - 1])
     && var s := snapshots[|snapshots| - 1];
        var seen := Refreshed(Passes(t, rows, journal, snapshots[..|snapshots| - 1]).rows, s.views);
        TakenTotal(t, seen, s.visible) <= Initial(t) && AveragesKnown(t, seen, s.visible))
  }

  /**
   * Over any run of snapshots each close order's rows add up to the quantity booked for it, and their value,
   * gross result and fees are those of closing that quantity at the average it was booked with.
   */
  lemma {:induction false} RunConserves(t: Trade, rows: seq<CloseRow>, journal: seq<Booking>,
                                        snapshots: seq<CloseSnapshot>)
    requires Measurable(t) && Distinct(rows)
    requires Booked(journal, t.entryId, rows) && AllMoneyBooked(t, journal, rows)
    ensures Plausible(t, rows, journal, snapshots) ==>
              var p := Passes(t, rows, journal, snapshots);
              && Distinct(p.rows)
              && Booked(p.journal, t.entryId, p.rows)
              && AllMoneyBooked(t, p.journal, p.rows)
  {
    hide TakeTurn;
    if snapshots != [] && Plausible(t, rows, journal, snapshots) {
      var n := |snapshots| - 1;
      var before := Passes(t, rows, journal, snapshots[..n]);
      var s := snapshots[n];
      RunConserves(t, rows, journal, snapshots[..n]);
      var seen := Refreshed(before.rows, s.views);
      forall i | 0 <= i < |seen|
        ensures QtyBooked(before.journal, t.entryId, seen[i]) && MoneyBooked(t, before.journal, seen[i])
      {
        assert QtyBooked(before.journal, t.entryId, before.rows[i]) && MoneyBooked(t, before.journal, before.rows[i]);
      }
      PassBooks(t, seen, s.visible, before.journal);
      PassBooksMoney(t, seen, s.visible, before.journal);
    }
  }

  /** The latest final fill of an order is what the journal holds for it, once no earlier fill was larger. */
  lemma LastSnapshotIsBooked(t: Trade, rows: seq<CloseRow>, journal: seq<Booking>, snapshots: seq<CloseSnapshot>,
                             k: nat)
    requires Measurable(t) && Distinct(rows) && k < |rows| && |snapshots| > 0
    requires Booked(journal, t.entryId, rows) && AllMoneyBooked(t, journal, rows)
    requires Plausible(t, rows, journal, snapshots)
    ensures var p := Passes(t, rows, journal, snapshots);
            var s := snapshots[|snapshots| - 1];
            var before := Passes(t, rows, journal, snapshots[..|snapshots| - 1]).rows[k].logged;
            Eligible(p.rows[k], Initial(t), s.visible) ==>
              BookedQty(p.journal, t.entryId, p.rows[k].id) == Max(before, Raw(p.rows[k], Initial(t)))
    ensures var p := Passes(t, rows, journal, snapshots);
            var s := snapshots[|snapshots| - 1];
            k < |s.views| ==>
              && p.rows[k].status == s.views[k].status && p.rows[k].filled == s.views[k].filled
              && p.rows[k].average == s.views[k].average
  {
    hide TakeTurn, MoneyBooked, AveragesKnown, NowLogged, Eligible, Raw;
    var n := |snapshots| - 1;
    var before := Passes(t, rows, journal, snapshots[..n]);
    var s := snapshots[n];
    var seen := Refreshed(before.rows, s.views);
    RunConserves(t, rows, journal, snapshots[..n]);
    RunConserves(t, rows, journal, snapshots);
    forall i | 0 <= i < |seen|
      ensures QtyBooked(before.journal, t.entryId, seen[i])
    {
      assert QtyBooked(before.journal, t.entryId, before.rows[i]);
    }
    PassBooks(t, seen, s.visible, before.journal);
    var p := Passes(t, rows, journal, snapshots);
    assert QtyBooked(p.journal, t.entryId, p.rows[k]);
    BookedFill(t, seen[k], p.rows[k], s.visible, p.journal);
  }

  lemma BookedFill(t: Trade, seen: CloseRow, row: CloseRow, visible: bool, journal: seq<Booking>)
    requires row == seen.(logged := NowLogged(t, seen, visible), loggedAverage := row.loggedAverage)
    requires QtyBooked(journal, t.entryId, row)
    ensures Eligible(row, Initial(t), visible) ==>
              BookedQty(journal, t.entryId, row.id) == Max(seen.logged, Raw(row, Initial(t)))
  {
  }

  // ---- Fills that do not fit

  /** Order `k` has a new fill and the earlier orders left room for some of it, but not for all. */
  predicate Cut(t: Trade, rows: seq<CloseRow>, visible: bool, k: nat)
    requires k < |rows|
  {
    var left := Initial(t) - TakenTotal(t, rows[..k], visible);
    && Eligible(rows[k], Initial(t), visible)
    && 0.0 < left < Raw(rows[k], Initial(t)) - rows[k].logged
  }

  /** A turn leaves its order booked as far as the row says exactly when it does not cut the booking short. */
  lemma TurnStaysBookedIff(t: Trade, row: CloseRow, visible: bool, allotted: real, journal: seq<Booking>)
    requires QtyBooked(journal, t.entryId, row)
    ensures var turn := TakeTurn(t, row, visible, allotted, journal);
            QtyBooked(turn.journal, t.entryId, turn.row) <==>
            !(&& Eligible(row, Initial(t), visible)
              && 0.0 < Initial(t) - allotted < Raw(row, Initial(t)) - row.logged)
  {
    hide BookingOf, Raw, HasKey, BookingKey, BookedQty, KeysBelow;
    var qty := Unbooked(row, Initial(t), allotted);
    if Eligible(row, Initial(t), visible) && qty > 0.0 {
      KeyIsNew(t, row, qty, journal);
      NewBooking(t, row, qty);
      BookingAppends(t, row, journal, BookingOf(t, row, qty), Raw(row, Initial(t)));
    }
  }

  lemma BookingAppends(t: Trade, row: CloseRow, journal: seq<Booking>, b: Booking, raw: real)
    requires QtyBooked(journal, t.entryId, row) && raw >= row.logged
    requires Concerns(b, t.entryId, row.id) && KeyBelow(b.key, raw) && raw > 0.0
    ensures BookedQty(journal + [b], t.entryId, row.id) == row.logged + b.qty
    ensures KeysBelow(journal + [b], t.entryId, row.id, raw)
  {
    assert (journal + [b])[..|journal|] == journal;
  }

  lemma NewBooking(t: Trade, row: CloseRow, qty: real)
    requires qty > 0.0 && Raw(row, Initial(t)) > 0.0
    ensures var b := BookingOf(t, row, qty);
            b.qty == qty && Concerns(b, t.entryId, row.id) && KeyBelow(b.key, Raw(row, Initial(t)))
  {
    hide Gross, Fee, BookingPrice, Raw;
  }

  lemma {:induction false} OrderStaysBookedIff(t: Trade, rows: seq<CloseRow>, visible: bool, journal: seq<Booking>,
                                               k: nat)
    requires Distinct(rows) && Booked(journal, t.entryId, rows) && Initial(t) >= 0.0 && k < |rows|
    ensures var p := BookAll(t, rows, visible, journal);
            && p.rows[k].id == rows[k].id
            && (QtyBooked(p.journal, t.entryId, p.rows[k]) <==> !Cut(t, rows, visible, k))
  {
    hide TakeTurn, KeysBelow;
    var n := |rows| - 1;
    var before := BookAll(t, rows[..n], visible, journal);
    if k == n {
      PassNeverOverbooks(t, rows[..n], visible, journal);
      RowKept(t, rows[..n], visible, journal, rows[n]);
      TurnKeepsRow(t, rows[n], visible, before.allotted, before.journal);
      TurnStaysBookedIff(t, rows[n], visible, before.allotted, before.journal);
    } else {
      OrderStaysBookedIff(t, rows[..n], visible, journal, k);
      assert rows[..n][..k] == rows[..k];
      OthersStayAsBooked(t, rows[n], visible, before.allotted, before.journal, before.rows[k]);
    }
  }

  lemma TurnKeepsRow(t: Trade, row: CloseRow, visible: bool, allotted: real, journal: seq<Booking>)
    ensures TakeTurn(t, row, visible, allotted, journal).row.id == row.id
  {
  }

  lemma OthersStayAsBooked(t: Trade, row: CloseRow, visible: bool, allotted: real, journal: seq<Booking>,
                           other: CloseRow)
    requires row.id != other.id
    ensures var after := TakeTurn(t, row, visible, allotted, journal).journal;
            QtyBooked(after, t.entryId, other) <==> QtyBooked(journal, t.entryId, other)
  {
    hide TakeTurn, BookedQty, BookedMoney, KeyBelow;
    var after := TakeTurn(t, row, visible, allotted, journal).journal;
    TurnKeepsOthers(t, row, visible, allotted, journal, t.entryId, other.id, other.logged);
    TurnExtends(t, row, visible, allotted, journal);
    assert forall i :: 0 <= i < |journal| ==> after[i] == journal[i];
  }

  lemma TurnExtends(t: Trade, row: CloseRow, visible: bool, allotted: real, journal: seq<Booking>)
    ensures journal <= TakeTurn(t, row, visible, allotted, journal).journal
  {
    hide BookingOf, HasKey;
  }

  /**
   * One pass from a booked state: the journal stays what the rows say is booked exactly when every new fill either
   * fits what the earlier orders left of the entry or finds nothing left. A booking cut short is recorded as whole.
   */
  lemma PassStaysBookedIff(t: Trade, rows: seq<CloseRow>, visible: bool, journal: seq<Booking>)
    requires Distinct(rows) && Booked(journal, t.entryId, rows) && Initial(t) >= 0.0
    ensures var p := BookAll(t, rows, visible, journal);
            Booked(p.journal, t.entryId, p.rows) <==> forall k :: 0 <= k < |rows| ==> !Cut(t, rows, visible, k)
  {
    hide BookAll, QtyBooked, Cut;
    forall k | 0 <= k < |rows|
      ensures var p := BookAll(t, rows, visible, journal);
              QtyBooked(p.journal, t.entryId, p.rows[k]) <==> !Cut(t, rows, visible, k)
    {
      OrderStaysBookedIff(t, rows, visible, journal, k);
    }
  }

  // ---- Overbooking across passes

  function Filled10(id: nat, filled: real): CloseRow {
    CloseRow(id, "SPY", Some(1), true, Canceled, Some(10.0), filled, Some(2.0), Some(1.0), 0.0, 0.0, None)
  }

  /**
   * The cap is per pass: orders that together report more than the entry overbook it across passes. Here 4 and
   * 6 of 10 are booked, then the first order's final fill grows to 10 and another 6 are booked.
   */
  lemma LateGrowthOverbooks(t: Trade)
    requires Initial(t) == 10.0
    ensures var p := BookAll(t, [Filled10(1, 4.0), Filled10(2, 6.0)], false, []);
            var grown := [p.rows[0].(filled := 10.0), p.rows[1]];
            var late := BookAll(t, grown, false, p.journal);
            && BookedQty(p.journal, t.entryId, 1) + BookedQty(p.journal, t.entryId, 2) == 10.0
            && BookedQty(late.journal, t.entryId, 1) + BookedQty(late.journal, t.entryId, 2) == 16.0
  {
    var rows := [Filled10(1, 4.0), Filled10(2, 6.0)];
    assert rows[..1][..0] == [] && rows[..1] == [rows[0]];
    assert TakenTotal(t, rows[..1], false) == 4.0;
    PassBooks(t, rows, false, []);
    var p := BookAll(t, rows, false, []);
    assert QtyBooked(p.journal, t.entryId, p.rows[0]) && QtyBooked(p.journal, t.entryId, p.rows[1]);
    GrownPass(t, p.rows[0].(filled := 10.0), p.rows[1], p.journal);
  }

  /** A booking cut short: orders of 6 and 10 for an entry of 10 journal 6 and 4, and the second row says 10. */
  lemma CutBookingIsRecordedWhole(t: Trade)
    requires Initial(t) == 10.0
    ensures var p := BookAll(t, [Filled10(1, 6.0), Filled10(2, 10.0)], false, []);
            !Booked(p.journal, t.entryId, p.rows) && p.rows[1].logged == 10.0
  {
    var rows := [Filled10(1, 6.0), Filled10(2, 10.0)];
    assert rows[..1][..0] == [] && rows[..1] == [rows[0]];
    assert TakenTotal(t, rows[..1], false) == 6.0;
    assert Cut(t, rows, false, 1);
    PassStaysBookedIff(t, rows, false, []);
    PassNeverOverbooks(t, rows[..1], false, []);
  }

  lemma GrownPass(t: Trade, c: CloseRow, d: CloseRow, journal: seq<Booking>)
    requires Initial(t) == 10.0
    requires c == Filled10(1, 10.0).(logged := 4.0, loggedAverage := c.loggedAverage)
    requires d == Filled10(2, 6.0).(logged := 6.0, loggedAverage := d.loggedAverage)
    requires QtyBooked(journal, t.entryId, c) && QtyBooked(journal, t.entryId, d)
    ensures var late := BookAll(t, [c, d], false, journal);
            BookedQty(late.journal, t.entryId, 1) == 10.0 && BookedQty(late.journal, t.entryId, 2) == 6.0
  {
    TwoTurns(t, c, d, false, journal);
    TurnBooksGrowth(t, c, false, 0.0, journal);
    TurnKeepsOthers(t, c, false, 0.0, journal, t.entryId, 2, 6.0);
    SpentTurn(t, d, 10.0, TakeTurn(t, c, false, 0.0, journal).journal);
  }

  lemma SpentTurn(t: Trade, d: CloseRow, allotted: real, journal: seq<Booking>)
    requires Initial(t) == 10.0 && d == Filled10(2, 6.0).(logged := 6.0, loggedAverage := d.loggedAverage)
    ensures TakeTurn(t, d, false, allotted, journal).journal == journal
  {
  }

  lemma TwoTurns(t: Trade, a: CloseRow, b: CloseRow, visible: bool, journal: seq<Booking>)
    ensures var x := TakeTurn(t, a, visible, 0.0, journal);
            var y := TakeTurn(t, b, visible, x.allotted, x.journal);
            BookAll(t, [a, b], visible, journal) == Pass([x.row, y.row], y.allotted, y.journal)
  {
    hide TakeTurn;
    OneTurn(t, a, visible, journal);
    assert [a, b][..1] == [a];
  }

  lemma OneTurn(t: Trade, a: CloseRow, visible: bool, journal: seq<Booking>)
    ensures var x := TakeTurn(t, a, visible, 0.0, journal);
            BookAll(t, [a], visible, journal) == Pass([x.row], x.allotted, x.journal)
  {
  }

  // ---- Each exposure has its own part of the journal

  /** The rows of one exposure. */
  function Restrict(journal: seq<Booking>, entry: Option<nat>): seq<Booking> {
    if journal == [] then []
    else
      var b := journal[|journal| - 1];
      Restrict(journal[..|journal| - 1], entry) + if b.key.entry == entry then [b] else []
  }

  lemma {:induction false} RestrictKeepsKeys(journal: seq<Booking>, key: Key)
    ensures HasKey(Restrict(journal, key.entry), key) <==> HasKey(journal, key)
  {
    if journal != [] {
      var n := |journal| - 1;
      var rest := Restrict(journal[..n], key.entry);
      var all := Restrict(journal, key.entry);
      RestrictKeepsKeys(journal[..n], key);
      assert HasKey(journal, key) <==> HasKey(journal[..n], key) || journal[n].key == key by {
        assert forall i :: 0 <= i < n ==> journal[..n][i] == journal[i];
      }
      assert HasKey(all, key) <==> HasKey(rest, key) || journal[n].key == key by {
        assert forall i :: 0 <= i < |rest| ==> all[i] == rest[i];
        assert journal[n].key == key ==> all[|rest|] == journal[n];
      }
    }
  }

  lemma TurnStaysInItsExposure(t: Trade, row: CloseRow, visible: bool, allotted: real, journal: seq<Booking>,
                               entry: Option<nat>)
    ensures Restrict(TakeTurn(t, row, visible, allotted, journal).journal, entry) ==
            if t.entryId == entry then TakeTurn(t, row, visible, allotted, Restrict(journal, entry)).journal
            else Restrict(journal, entry)
  {
    hide Gross, Fee, BookingPrice;
    var after := TakeTurn(t, row, visible, allotted, journal).journal;
    var qty := Unbooked(row, Initial(t), allotted);
    if Eligible(row, Initial(t), visible) && qty > 0.0 {
      RestrictKeepsKeys(journal, BookingKey(t, row, Initial(t)));
      if |after| > |journal| {
        assert after[..|after| - 1] == journal;
      }
    }
  }

  lemma {:induction false} PassStaysInItsExposure(t: Trade, rows: seq<CloseRow>, visible: bool, journal: seq<Booking>,
                                                  entry: Option<nat>)
    ensures var p := BookAll(t, rows, visible, journal);
            var alone := BookAll(t, rows, visible, Restrict(journal, entry));
            && p.rows == alone.rows && p.allotted == alone.allotted
            && Restrict(p.journal, entry) == if t.entryId == entry then alone.journal else Restrict(journal, entry)
  {
    hide BookingOf, Restrict;
    if rows != [] {
      var n := |rows| - 1;
      var before := BookAll(t, rows[..n], visible, journal);
      PassStaysInItsExposure(t, rows[..n], visible, journal, entry);
      TurnStaysInItsExposure(t, rows[n], visible, before.allotted, before.journal, entry);
    }
  }

  /** One trade's turn in one reconciliation. */
  datatype Event = Event(trade: Trade, rows: seq<CloseRow>, visible: bool)

  function Chronicle(journal: seq<Booking>, events: seq<Event>): seq<Booking> {
    if events == [] then journal
    else
      var e := events[|events| - 1];
      BookAll(e.trade, e.rows, e.visible, Chronicle(journal, events[..|events| - 1])).journal
  }

  function Only(events: seq<Event>, entry: Option<nat>): seq<Event> {
    if events == [] then []
    else
      var e := events[|events| - 1];
      Only(events[..|events| - 1], entry) + if e.trade.entryId == entry then [e] else []
  }

  /**
   * Over any run of passes, each over whatever rows it is given, the journal rows of one exposure are what its
   * own passes alone would have written: no pass sees or changes another exposure's.
   */
  lemma {:induction false} JournalsAreSeparate(journal: seq<Booking>, events: seq<Event>, entry: Option<nat>)
    ensures Restrict(Chronicle(journal, events), entry) == Chronicle(Restrict(journal, entry), Only(events, entry))
  {
    if events != [] {
      var n := |events| - 1;
      var e := events[n];
      var own := Only(events, entry);
      JournalsAreSeparate(journal, events[..n], entry);
      PassStaysInItsExposure(e.trade, e.rows, e.visible, Chronicle(journal, events[..n]), entry);
      if e.trade.entryId == entry {
        assert own[..|own| - 1] == Only(events[..n], entry);
      } else {
        assert own == Only(events[..n], entry);
      }
    }
  }
}
