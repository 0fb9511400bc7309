/**
 * One entry pass: the durable risk tally, the nested loop over edges and symbols with its portfolio caps, and
 * what a failed submission does to the rest of the pass.
 */
module EntryPass {
  import opened Basics

  // ---- The durable risk tally

  /** An open trade; `risk` or `notional` is `None` when it is not a number. */
  datatype ActiveTrade = ActiveTrade(underlying: string, risk: Option<real>, notional: Option<real>)

  datatype Plan = Plan(risk: Option<real>, notional: Option<real>, underlying: string)

  datatype OrderRow = OrderRow(status: Status, closes: bool, plan: Option<Plan>)
  {
    /** Still able to open an exposure. */
    predicate Counts() { !status.IsTerminal() && !closes }

    predicate Sound() {
      Counts() ==>
        (&& plan.Some?
         && plan.value.risk.Some? && plan.value.risk.value >= 0.0
         && plan.value.notional.Some? && plan.value.notional.value >= 0.0
         && plan.value.underlying != "")
    }

    function Risk(): real { if Counts() && plan.Some? then plan.value.risk.GetOr(0.0) else 0.0 }

    function Notional(): real { if Counts() && plan.Some? then plan.value.notional.GetOr(0.0) else 0.0 }
  }

  /** Which rows count: entries whose status is a working one, partly filled, or one of the three that may reopen. */
  lemma CountsByStatus(o: OrderRow)
    ensures o.Counts() <==>
            !o.closes && (o.status.Working? || o.status in {PartiallyFilled, Done, Closed, DoneForDay})
    ensures !o.Counts() <==>
            (o.closes || o.status in {Filled, Canceled, Cancelled, Expired, Rejected, Replaced, Stopped, Suspended,
                                      Failed, NotFound})
  {
  }

  /** A row that counts is sound exactly when its plan has an underlying and a risk and notional, none negative. */
  lemma SoundIff(o: OrderRow, t: ActiveTrade)
    ensures o.Counts() ==>
              (o.Sound() <==>
                match o.plan
                case Some(Plan(Some(risk), Some(notional), underlying)) =>
                  !(risk < 0.0) && !(notional < 0.0) && |underlying| > 0
                case _ => false)
    ensures SoundTrade(t) <==>
              match (t.risk, t.notional)
              case (Some(risk), Some(notional)) => !(risk < 0.0) && !(notional < 0.0)
              case _ => false
  {
  }

  predicate SoundTrade(t: ActiveTrade) {
    t.risk.Some? && t.notional.Some? && t.risk.value >= 0.0 && t.notional.value >= 0.0
  }

  function OpenRisk(trades: seq<ActiveTrade>): real {
    if trades == [] then 0.0 else OpenRisk(trades[..|trades| - 1]) + trades[|trades| - 1].risk.GetOr(0.0)
  }

  function PendingRisk(orders: seq<OrderRow>): real {
    if orders == [] then 0.0 else PendingRisk(orders[..|orders| - 1]) + orders[|orders| - 1].Risk()
  }

  function PendingNotional(orders: seq<OrderRow>): real {
    if orders == [] then 0.0 else PendingNotional(orders[..|orders| - 1]) + orders[|orders| - 1].Notional()
  }

  function PendingUnderlyings(orders: seq<OrderRow>): set<string> {
    set o | o in orders && o.Counts() && o.plan.Some? :: o.plan.value.underlying
  }

  function Held(trades: seq<ActiveTrade>): set<string> { set t | t in trades :: t.underlying }

  /** What the book and the pending orders already commit. */
  datatype Tally = Tally(openRisk: real, pendingRisk: real, pendingNotional: real, underlyings: set<string>)

  method TallyTrades(trades: seq<ActiveTrade>) returns (openRisk: Option<real>)
    ensures openRisk.Some? <==> forall t :: t in trades ==> SoundTrade(t)
    ensures openRisk.Some? ==> openRisk.value == OpenRisk(trades)
  {
    var sum, k := 0.0, 0;
    while k < |trades|
      invariant 0 <= k <= |trades| && sum == OpenRisk(trades[..k])
      invariant forall i :: 0 <= i < k ==> SoundTrade(trades[i])
    {
      assert trades[..k + 1][..k] == trades[..k];
      var t := trades[k];
      if t.risk.None? || t.notional.None? || t.risk.value < 0.0 || t.notional.value < 0.0 {
        assert t in trades && !SoundTrade(t);
        return None;
      }
      sum := sum + t.risk.value;
      k := k + 1;
    }
    assert trades[..k] == trades;
    openRisk := Some(sum);
  }

  /** The sums of a sound book are those of its parts, and none of them is negative. */
  lemma {:induction false} TallyAddsUp(a: seq<OrderRow>, b: seq<OrderRow>)
    requires forall o :: o in a + b ==> o.Sound()
    ensures PendingRisk(a + b) == PendingRisk(a) + PendingRisk(b)
    ensures PendingNotional(a + b) == PendingNotional(a) + PendingNotional(b)
    ensures PendingRisk(b) >= 0.0 && PendingNotional(b) >= 0.0
  {
    if b == [] {
      assert a + b == a;
    } else {
      var n := |b| - 1;
      assert a + b == (a + b[..n]) + [b[n]] && b == b[..n] + [b[n]];
      TallyAddsUp(a, b[..n]);
      RowAdds(a + b[..n], b[n]);
      RowAdds(b[..n], b[n]);
      assert b[n] in a + b;
    }
  }

  /** One row adds what it plans if it counts, and nothing otherwise; no row adds nothing. */
  lemma OneRowTally(o: OrderRow)
    requires o.Sound()
    ensures PendingRisk([o]) == if o.Counts() then o.plan.value.risk.value else 0.0
    ensures PendingNotional([o]) == if o.Counts() then o.plan.value.notional.value else 0.0
    ensures PendingRisk([]) == PendingNotional([]) == 0.0
  {
    assert [o][..0] == [];
  }

  /** Adds up the book; any malformed or negative row makes the whole tally unusable. */
  method TallyBook(trades: seq<ActiveTrade>, orders: seq<OrderRow>) returns (tally: Option<Tally>)
    ensures tally.Some? <==> (forall t :: t in trades ==> SoundTrade(t)) && (forall o :: o in orders ==> o.Sound())
    ensures tally.Some? ==>
              tally.value == Tally(OpenRisk(trades), PendingRisk(orders), PendingNotional(orders),
                                   PendingUnderlyings(orders))
  {
    hide OpenRisk, PendingRisk, PendingNotional, PendingUnderlyings, SoundTrade;
    NothingPending(orders);
    var openRisk := TallyTrades(trades);
    if openRisk.None? {
      return None;
    }
    var pendingRisk, pendingNotional, underlyings := 0.0, 0.0, {};
    var k := 0;
    while k < |orders|
      invariant 0 <= k <= |orders|
      invariant pendingRisk == PendingRisk(orders[..k]) && pendingNotional == PendingNotional(orders[..k])
      invariant underlyings == PendingUnderlyings(orders[..k])
      invariant forall i :: 0 <= i < k ==> orders[i].Sound()
    {
      var o := orders[k];
      assert orders[..k + 1] == orders[..k] + [o];
      RowAdds(orders[..k], o);
      k := k + 1;
      if o.status.IsTerminal() || o.closes {
        continue;
      }
      if o.plan.None? || o.plan.value.risk.None? || o.plan.value.notional.None?
         || o.plan.value.risk.value < 0.0 || o.plan.value.notional.value < 0.0 || o.plan.value.underlying == "" {
        assert o in orders && !o.Sound();
        return None;
      }
      underlyings := underlyings + {o.plan.value.underlying};
      pendingRisk := pendingRisk + o.plan.value.risk.value;
      pendingNotional := pendingNotional + o.plan.value.notional.value;
    }
    assert orders[..k] == orders;
    tally := Some(Tally(openRisk.value, pendingRisk, pendingNotional, underlyings));
  }

  lemma NothingPending(orders: seq<OrderRow>)
    ensures PendingRisk(orders[..0]) == PendingNotional(orders[..0]) == 0.0 && PendingUnderlyings(orders[..0]) == {}
  {
  }

  lemma RowAdds(orders: seq<OrderRow>, row: OrderRow)
    ensures PendingRisk(orders + [row]) == PendingRisk(orders) + row.Risk()
    ensures PendingNotional(orders + [row]) == PendingNotional(orders) + row.Notional()
    ensures PendingUnderlyings(orders + [row]) ==
            PendingUnderlyings(orders) + if row.Counts() && row.plan.Some? then {row.plan.value.underlying} else {}
  {
  }

  // ---- Caps

  /** The configured limits; a percentage that is not configured does not limit. */
  datatype Caps = Caps(equity: real, riskPct: Option<real>, grossPct: Option<real>, maxPositions: int)
  {
    predicate AllowsRisk(total: real) { riskPct.Some? ==> total <= equity * riskPct.value / 100.0 + EPSILON }

    predicate AllowsGross(total: real) { grossPct.Some? ==> total <= equity * grossPct.value / 100.0 + EPSILON }
  }

  /** A configured cap admits what is at most its percentage of equity, up to the tolerance. */
  lemma CapsArePercentages(caps: Caps, total: real)
    ensures caps.AllowsRisk(total) <==>
              caps.riskPct.None? || 100.0 * (total - EPSILON) <= Times(caps.equity, caps.riskPct.value)
    ensures caps.AllowsGross(total) <==>
              caps.grossPct.None? || 100.0 * (total - EPSILON) <= Times(caps.equity, caps.grossPct.value)
  {
  }

  /** What stands before the pass begins. */
  datatype Base = Base(tally: Tally, gross: real, positions: nat, pendingPositions: nat)

  function GrossOf(values: seq<Option<real>>): real {
    if values == [] then 0.0 else GrossOf(values[..|values| - 1]) + Abs(values[|values| - 1].GetOr(0.0))
  }

  /** Gross exposure adds up over positions, each at the size of its value, long or short. */
  lemma {:induction false} GrossAddsUp(a: seq<Option<real>>, b: seq<Option<real>>, value: real)
    ensures GrossOf(a + b) == GrossOf(a) + GrossOf(b)
    ensures GrossOf([]) == 0.0
    ensures GrossOf([Some(value)]) == if value < 0.0 then -value else value
  {
    assert [Some(value)][..0] == [];
    if b == [] {
      assert a + b == a;
    } else {
      var n := |b| - 1;
      GrossAddsUp(a, b[..n], value);
      assert (a + b)[..|a + b| - 1] == a + b[..n];
    }
  }

  /** Measures the book before the pass; a position without a market value, or a malformed row, ends it there. */
  method Prepare(trades: seq<ActiveTrade>, orders: seq<OrderRow>, values: seq<Option<real>>)
    returns (base: Option<Base>)
    ensures base.Some? <==>
            (&& (forall v :: v in values ==> v.Some?)
             && (forall t :: t in trades ==> SoundTrade(t))
             && (forall o :: o in orders ==> o.Sound()))
    ensures base.Some? ==>
              (&& base.value.tally.openRisk == OpenRisk(trades)
               && base.value.tally.pendingRisk == PendingRisk(orders)
               && base.value.tally.pendingNotional == PendingNotional(orders)
               && base.value.tally.underlyings == PendingUnderlyings(orders)
               && base.value.gross == GrossOf(values)
               && base.value.positions == |values|
               && base.value.pendingPositions == |PendingUnderlyings(orders) - Held(trades)|)
  {
    var gross, k := 0.0, 0;
    while k < |values|
      invariant 0 <= k <= |values| && gross == GrossOf(values[..k])
      invariant forall i :: 0 <= i < k ==> values[i].Some?
    {
      assert values[..k + 1][..k] == values[..k];
      if values[k].None? {
        assert values[k] in values;
        return None;
      }
      gross := gross + Abs(values[k].value);
      k := k + 1;
    }
    assert values[..k] == values;
    var tally := TallyBook(trades, orders);
    if tally.None? {
      return None;
    }
    base := Some(Base(tally.value, gross, |values|, |tally.value.underlyings - Held(trades)|));
  }

  // ---- Requests and their fills

  /** A sized entry; shares carry their stop, an option its debit and the ask it was admitted at. */
  datatype Entry =
    | Shares(short: bool, qty: real, price: real, stop: real)
    | Contracts(qty: real, multiplier: real, debit: real, ask: real)
  {
    /** The price the risk was sized from. */
    function Reference(): real { if Shares? then price else debit }

    /** What one unit risks when it is entered at `p`. */
    function RiskAt(p: real): real { if Shares? then Abs(p - stop) else Times(Abs(p), multiplier) }

    function Risk(): real { Times(qty, RiskAt(Reference())) }

    function NotionalOf(quantity: real, p: real): real {
      if Shares? then Times(quantity, Abs(p)) else Times(quantity, Times(Abs(p), multiplier))
    }

    function Notional(): real { NotionalOf(qty, Reference()) }

    /** What sizing guarantees: the stop lies on the losing side. */
    predicate Sized() {
      qty > 0.0 && if Shares? then (if short then price < stop else stop < price) else multiplier > 0.0 && debit > 0.0
    }

    /** Every entry is a limit order: shares at the quote the risk was sized from, an option at its ask. */
    predicate WithinLimit(p: real) {
      if Contracts? then 0.0 <= p <= ask else if short then p >= price else p <= price
    }

    /** A better price lies past the stop by at most the distance sized; an option costs at most its debit. */
    predicate StaysNear(p: real) {
      if Contracts? then p <= debit else if short then p <= 2.0 * stop - price else p >= 2.0 * stop - price
    }
  }

  /** Planned risk and notional scale with the quantity; a share risks its way to the stop, an option its debit. */
  lemma PlanIsPerUnit(e: Entry)
    requires e.Sized()
    ensures e.Shares? && e.short ==> e.Risk() == Times(e.qty, e.stop - e.price)
    ensures e.Shares? && !e.short ==> e.Risk() == Times(e.qty, e.price - e.stop)
    ensures e.Shares? && e.price >= 0.0 ==> e.Notional() == Times(e.qty, e.price)
    ensures e.Contracts? ==> e.Risk() == e.Notional() == Times(e.qty, Times(e.debit, e.multiplier))
  {
  }

  /** A cumulative fill; a broker may omit its average. */
  datatype Fill = Fill(qty: real, average: Option<real>)

  function Delivered(e: Entry, f: Fill): real { Times(f.qty, e.RiskAt(f.average.GetOr(e.Reference()))) }

  /** Within its limit, a fill costs no more risk a unit than was sized exactly when its price stays near. */
  lemma LimitBoundsRiskIff(e: Entry, p: real)
    requires e.Sized() && e.WithinLimit(p)
    ensures e.RiskAt(p) <= e.RiskAt(e.Reference()) <==> e.StaysNear(p)
  {
    if e.Contracts? {
      TimesGrow(e.multiplier, p, e.debit);
      TimesGrow(e.multiplier, e.debit, p);
    }
  }

  /** A fill of at most the request, at a price that stays near, delivers at most what was planned. */
  lemma DeliversAtMostThePlan(e: Entry, f: Fill)
    requires e.Sized() && FillFits(e, f)
    ensures 0.0 <= Delivered(e, f) <= Times(f.qty, e.RiskAt(e.Reference())) <= e.Risk()
  {
    var p, unit := f.average.GetOr(e.Reference()), e.RiskAt(e.Reference());
    if f.average.Some? {
      LimitBoundsRiskIff(e, p);
    }
    if e.Contracts? {
      TimesGrow(e.multiplier, 0.0, Abs(p));
    }
    TimesGrow(f.qty, 0.0, e.RiskAt(p));
    TimesGrow(f.qty, e.RiskAt(p), unit);
    TimesGrow(unit, f.qty, e.qty);
  }

  predicate FillFits(e: Entry, f: Fill) {
    && 0.0 <= f.qty <= e.qty
    && (f.average.Some? ==> e.WithinLimit(f.average.value) && e.StaysNear(f.average.value))
  }

  lemma TimesGrow(a: real, b: real, c: real)
    requires a >= 0.0
    ensures b <= c ==> Times(a, b) <= Times(a, c) && Times(b, a) <= Times(c, a)
    ensures a > 0.0 && b < c ==> Times(a, b) < Times(a, c)
    ensures Times(a, 0.0) == 0.0 == Times(0.0, a) && Times(a, b) == Times(b, a)
  {
    assert Times(a, c) - Times(a, b) == Times(a, c - b);
    if a > 0.0 && b < c {
      Positive(a, c - b);
    }
  }

  /** What the book knows of an order: its status, and the fill it opened a trade with. */
  datatype Answer = Answer(status: Status, fill: Option<Fill>)

  /** An order as the broker returns it; a filled one may come without a quantity. */
  datatype Placed = Placed(status: Status, filled: real, average: Option<real>)
  {
    function Known(requested: real): Answer {
      var qty := if status == Filled && filled <= 0.0 then requested else filled;
      Answer(status, if qty > 0.0 && status.IsFill() then Some(Fill(qty, average)) else None)
    }
  }

  /** Only fill statuses open a trade, for the quantity reported, and a filled order always does. */
  lemma KnownIsWhatFilled(o: Placed, requested: real)
    requires requested > 0.0
    ensures var known := o.Known(requested);
            && known.status == o.status
            && (known.fill.Some? <==> o.status == Filled || (o.status == PartiallyFilled && o.filled > 0.0))
            && (known.fill.Some? ==>
                  && known.fill.value.average == o.average
                  && known.fill.value.qty == if o.filled > 0.0 then o.filled else requested)
  {
  }

  /** One request sent to the broker; `counted` unless it was definitely refused. */
  datatype Attempt = Attempt(symbol: string, entry: Entry, counted: bool, answer: Answer)
  {
    /** The order row as recorded. */
    function Row(): OrderRow {
      OrderRow(answer.status, false, Some(Plan(Some(entry.Risk()), Some(entry.Notional()), symbol)))
    }

    function FillRisk(): real { if answer.fill.Some? then Delivered(entry, answer.fill.value) else 0.0 }

    /** The trades a recorded fill opens. */
    function Trades(): seq<ActiveTrade> {
      match answer.fill
      case None => []
      case Some(f) =>
        [ActiveTrade(symbol, Some(FillRisk()), Some(entry.NotionalOf(f.qty, f.average.GetOr(entry.Reference()))))]
    }
  }

  /** The order rows a pass records. */
  function RowsOf(log: seq<Attempt>): seq<OrderRow> {
    if log == [] then []
    else RowsOf(log[..|log| - 1]) + if log[|log| - 1].counted then [log[|log| - 1].Row()] else []
  }

  function TradesOf(log: seq<Attempt>): seq<ActiveTrade> {
    if log == [] then []
    else TradesOf(log[..|log| - 1]) + if log[|log| - 1].counted then log[|log| - 1].Trades() else []
  }

  function PlannedRisk(log: seq<Attempt>): real {
    if log == [] then 0.0
    else PlannedRisk(log[..|log| - 1]) + if log[|log| - 1].counted then log[|log| - 1].entry.Risk() else 0.0
  }

  function PlannedNotional(log: seq<Attempt>): real {
    if log == [] then 0.0
    else PlannedNotional(log[..|log| - 1]) + if log[|log| - 1].counted then log[|log| - 1].entry.Notional() else 0.0
  }

  function Counted(log: seq<Attempt>): nat {
    if log == [] then 0 else Counted(log[..|log| - 1]) + if log[|log| - 1].counted then 1 else 0
  }

  /** At the moment request `i` was sent, everything committed so far plus the request was within every cap. */
  predicate WithinCaps(base: Base, caps: Caps, log: seq<Attempt>, i: nat)
    requires i < |log|
  {
    && caps.AllowsRisk(base.tally.openRisk + base.tally.pendingRisk + PlannedRisk(log[..i]) + log[i].entry.Risk())
    && caps.AllowsGross(base.gross + base.tally.pendingNotional + PlannedNotional(log[..i]) + log[i].entry.Notional())
    && base.positions + base.pendingPositions + Counted(log[..i]) + 1 <= caps.maxPositions
  }

  /** Every request was within the caps when it was sent. */
  predicate AllWithinCaps(base: Base, caps: Caps, log: seq<Attempt>) {
    forall i :: 0 <= i < |log| ==> WithinCaps(base, caps, log, i)
  }

  /** An order for the symbol is pending from before, or may exist since. */
  predicate Taken(base: Base, log: seq<Attempt>, symbol: string) {
    symbol in base.tally.underlyings || exists i :: 0 <= i < |log| && log[i].counted && log[i].symbol == symbol
  }

  /** No underlying is entered twice, nor while an earlier order for it is pending. */
  predicate OnePerUnderlying(base: Base, log: seq<Attempt>) {
    && (forall i :: 0 <= i < |log| ==> log[i].symbol !in base.tally.underlyings)
    && (forall i, j :: 0 <= i < j < |log| && log[i].counted ==> log[i].symbol != log[j].symbol)
  }

  // ---- A failed submission

  datatype Refusal = IdConflict | Definite | Ambiguous

  datatype Lookup = Present | Absent | Broken

  datatype Resolution = Recovered | Refused | Unresolved

  /** Settles one failed entry from the kind of failure and a lookup by client order id. */
  function Resolve(kind: Refusal, lookup: Lookup): (r: Resolution)
    ensures r.Recovered? <==> !kind.IdConflict? && lookup.Present?
    ensures r.Unresolved? <==> !kind.IdConflict? && !lookup.Present? && (kind.Ambiguous? || lookup.Broken?)
  {
    if kind.IdConflict? then Refused
    else if lookup.Present? then Recovered
    else if kind.Definite? && !lookup.Broken? then Refused
    else Unresolved
  }

  /** What becomes of a submission: an answer, or a failure with what the lookup then says. */
  datatype Reply = Answered(order: Placed) | Raised(kind: Refusal, lookup: Lookup, order: Placed)
  {
    /** It may exist at the broker. */
    predicate MayExist() {
      Raised? ==> !kind.IdConflict? && (lookup.Present? || kind.Ambiguous? || lookup.Broken?)
    }

    /** Nobody can tell. */
    predicate Unclear() { MayExist() && !AtHand() }

    /** The order is at hand. */
    predicate AtHand() { Raised? ==> !kind.IdConflict? && lookup.Present? }
  }

  // ---- The pass

  /**
   * What an edge wants for a symbol: nothing, or a sized entry, without measurable risk or notional in the `None`
   * case; `pending` when an order under its client id is still working, `reply` what its submission would meet and
   * `durable` whether its record could then be written.
   */
  datatype Proposal = Skip | Candidate(entry: Option<Entry>, pending: bool, reply: Reply, durable: bool)

  datatype Ending = Decided | FailedClosed | DurabilityFailure

  class Cycle {
    const base: Base
    const caps: Caps
    ghost const before: (seq<ActiveTrade>, seq<OrderRow>)
    var orders: seq<OrderRow>           // durable
    var trades: seq<ActiveTrade>        // durable
    var placed: nat
    var plannedRisk: real
    var plannedNotional: real
    var pendingUnderlyings: set<string>
    var halted: bool
    ghost var log: seq<Attempt>
    ghost var turns: seq<(string, Proposal)>  // what was considered, in order

    constructor (base: Base, caps: Caps, orders: seq<OrderRow>, trades: seq<ActiveTrade>)
      ensures Valid() && this.base == base && this.caps == caps && log == [] && !halted
      ensures this.orders == orders && this.trades == trades && before == (trades, orders)
    {
      this.base, this.caps, this.orders, this.trades, log, turns := base, caps, orders, trades, [], [];
      placed, plannedRisk, plannedNotional, halted := 0, 0.0, 0.0, false;
      pendingUnderlyings := base.tally.underlyings;
      before := (trades, orders);
    }

    /** The loop's counters agree with what was sent, and everything sent was within the caps. */
    ghost predicate Sent()
      reads `log, `halted, `placed, `pendingUnderlyings, `plannedRisk, `plannedNotional
    {
      && plannedRisk == PlannedRisk(log)
      && plannedNotional == PlannedNotional(log)
      && placed + (if halted then 1 else 0) == Counted(log)
      && (forall symbol :: symbol in pendingUnderlyings <==> Taken(base, log, symbol))
      && AllWithinCaps(base, caps, log)
      && OnePerUnderlying(base, log)
    }

    /** The book is as before, with a row for every request that may exist and a trade for every fill. */
    ghost predicate Recorded()
      reads this
    {
      trades == before.0 + TradesOf(log) && orders == before.1 + RowsOf(log)
    }

    ghost predicate Valid()
      reads this
    {
      Sent() && Recorded()
    }

    /** The candidate's risk is usable. */
    static predicate Usable(p: Proposal) {
      p.Candidate? && p.entry.Some? && p.entry.value.Risk() >= 0.0 && p.entry.value.Notional() >= 0.0
    }

    /** The log entry of a candidate that is sent. */
    static function Logged(symbol: string, entry: Entry, reply: Reply): Attempt {
      Attempt(symbol, entry, reply.MayExist(),
              if reply.AtHand() then reply.order.Known(entry.qty) else Answer(Working("submitted"), None))
    }

    /** One edge's turn at one symbol: a request goes out exactly when nothing speaks against it. */
    method Consider(symbol: string, proposal: Proposal) returns (ending: Option<Ending>)
      requires Valid() && !halted && symbol != ""
      modifies this
      ensures Sent() && (ending != Some(DurabilityFailure) ==> Recorded())
      ensures turns == old(turns) + [(symbol, proposal)] && ending != Some(Decided)
      ensures var blocked := Taken(base, old(log), symbol) || proposal.Skip?;
              && (ending == Some(FailedClosed) <==> !blocked && !Usable(proposal))
              && (|log| == |old(log)| + 1 || log == old(log))
              && (|log| > |old(log)| <==>
                  && !blocked && Usable(proposal) && !proposal.pending
                  && WithinCaps(base, caps, old(log) + [Logged(symbol, proposal.entry.value, proposal.reply)],
                                |old(log)|))
      ensures |log| > |old(log)| ==>
                && log == old(log) + [Logged(symbol, proposal.entry.value, proposal.reply)]
                && halted == proposal.reply.Unclear()
                && (ending.Some? <==> proposal.reply.MayExist() && !proposal.durable)
      ensures log == old(log) ==> !halted
    {
      hide Caps.AllowsRisk, Caps.AllowsGross, Entry.Risk, Entry.Notional;
      ending := None;
      turns := turns + [(symbol, proposal)];
      if proposal.Skip? || symbol in pendingUnderlyings {
        return;
      }
      if proposal.entry.None? || proposal.entry.value.Risk() < 0.0 || proposal.entry.value.Notional() < 0.0 {
        return Some(FailedClosed);
      }
      var entry := proposal.entry.value;
      CapsHold(base, caps, log, Logged(symbol, entry, proposal.reply));
      if base.positions + base.pendingPositions + placed >= caps.maxPositions {
        return;
      }
      if !caps.AllowsRisk(base.tally.openRisk + base.tally.pendingRisk + plannedRisk + entry.Risk()) {
        return;
      }
      if !caps.AllowsGross(base.gross + base.tally.pendingNotional + plannedNotional + entry.Notional()) {
        return;
      }
      if proposal.pending {
        return;
      }
      ending := Send(symbol, entry, proposal.reply, proposal.durable);
    }

    /** Submits a request that passed every check, and records it unless it was definitely refused. */
    method Send(symbol: string, entry: Entry, reply: Reply, durable: bool) returns (ending: Option<Ending>)
      requires Valid() && !halted && symbol != "" && symbol !in pendingUnderlyings
      requires entry.Risk() >= 0.0 && entry.Notional() >= 0.0
      requires base.positions + base.pendingPositions + placed < caps.maxPositions
      requires caps.AllowsRisk(base.tally.openRisk + base.tally.pendingRisk + plannedRisk + entry.Risk())
      requires caps.AllowsGross(base.gross + base.tally.pendingNotional + plannedNotional + entry.Notional())
      modifies this
      ensures Sent() && (ending != Some(DurabilityFailure) ==> Recorded())
      ensures ending == if reply.MayExist() && !durable then Some(DurabilityFailure) else None
      ensures log == old(log) + [Logged(symbol, entry, reply)] && halted == reply.Unclear() && turns == old(turns)
    {
      hide Caps.AllowsRisk, Caps.AllowsGross, Sent, Entry.Risk, Entry.Notional, Attempt.Row, Attempt.Trades;
      hide RowsOf, TradesOf, Placed.Known;
      ending := None;
      var resolution := Recovered;
      if reply.Raised? {
        resolution := Resolve(reply.kind, reply.lookup);
      }
      var answer := Answer(Working("submitted"), None);
      if resolution == Recovered {
        answer := reply.order.Known(entry.qty);
      }
      var attempt := Attempt(symbol, entry, resolution != Refused, answer);
      BookGrows(before.0, before.1, log, attempt);
      Count(attempt, resolution == Unresolved);
      if resolution == Refused {
        return;
      }
      if !durable {
        return Some(DurabilityFailure);
      }
      orders := orders + [attempt.Row()];
      trades := trades + attempt.Trades();
    }

    /** Counts a request that may exist at the broker; one whose fate is unknown halts the pass. */
    method Count(attempt: Attempt, unknown: bool)
      requires Sent() && !halted && attempt.symbol !in pendingUnderlyings && (unknown ==> attempt.counted)
      requires base.positions + base.pendingPositions + placed < caps.maxPositions
      requires caps.AllowsRisk(base.tally.openRisk + base.tally.pendingRisk + plannedRisk + attempt.entry.Risk())
      requires caps.AllowsGross(base.gross + base.tally.pendingNotional + plannedNotional + attempt.entry.Notional())
      modifies `log, `halted, `placed, `pendingUnderlyings, `plannedRisk, `plannedNotional
      ensures Sent() && log == old(log) + [attempt] && halted == unknown
    {
      hide Caps.AllowsRisk, Caps.AllowsGross, AllWithinCaps, OnePerUnderlying, PlannedRisk, PlannedNotional, Counted;
      hide Entry.Risk, Entry.Notional;
      TakenGrows(base, log, attempt);
      CountsGrow(log, attempt);
      CapsHold(base, caps, log, attempt);
      StillOnePerUnderlying(base, log, attempt);
      log := log + [attempt];
      if !attempt.counted {
        return;
      }
      if unknown {
        halted := true;
      } else {
        placed := placed + 1;
      }
      pendingUnderlyings := pendingUnderlyings + {attempt.symbol};
      plannedRisk := plannedRisk + attempt.entry.Risk();
      plannedNotional := plannedNotional + attempt.entry.Notional();
    }

    /** Every edge's turn at every symbol, until the pass is halted or fails. */
    method Run(edges: nat, symbols: seq<string>, propose: (nat, string) -> Proposal) returns (ending: Ending)
      requires Valid() && !halted && (forall s :: s in symbols ==> s != "")
      modifies this
      ensures Sent() && (ending != DurabilityFailure ==> Recorded())
      ensures ending == Decided && !halted ==> turns == old(turns) + Turns(edges, symbols, propose)
    {
      hide Sent, Recorded, EdgeTurns;
      var e := 0;
      while e < edges && !halted
        invariant 0 <= e <= edges && Valid()
        invariant !halted ==> turns == old(turns) + Turns(e, symbols, propose)
        decreases edges - e
      {
        ending := RunEdge(e, symbols, propose);
        if ending != Decided {
          return;
        }
        e := e + 1;
      }
      ending := Decided;
    }

    /** One edge's turns, symbol by symbol. */
    method RunEdge(edge: nat, symbols: seq<string>, propose: (nat, string) -> Proposal) returns (ending: Ending)
      requires Valid() && !halted && (forall s :: s in symbols ==> s != "")
      modifies this
      ensures Sent() && (ending != DurabilityFailure ==> Recorded())
      ensures ending == Decided && !halted ==> turns == old(turns) + EdgeTurns(edge, symbols, propose)
    {
      hide Sent, Recorded, Usable, Logged, Taken, WithinCaps;
      var k := 0;
      while k < |symbols| && !halted
        invariant 0 <= k <= |symbols| && Valid()
        invariant !halted ==> turns == old(turns) + EdgeTurns(edge, symbols[..k], propose)
        decreases |symbols| - k
      {
        assert symbols[k] in symbols;
        assert symbols[..k + 1][..k] == symbols[..k];
        var outcome := Consider(symbols[k], propose(edge, symbols[k]));
        if outcome.Some? {
          return outcome.value;
        }
        k := k + 1;
      }
      assert k == |symbols| ==> symbols[..k] == symbols;
      ending := Decided;
    }
  }

  /** What one edge proposes, symbol by symbol. */
  function EdgeTurns(edge: nat, symbols: seq<string>, propose: (nat, string) -> Proposal): seq<(string, Proposal)> {
    if symbols == [] then []
    else
      var symbol := symbols[|symbols| - 1];
      EdgeTurns(edge, symbols[..|symbols| - 1], propose) + [(symbol, propose(edge, symbol))]
  }

  /** Every edge's proposals, edge by edge. */
  function Turns(edges: nat, symbols: seq<string>, propose: (nat, string) -> Proposal): seq<(string, Proposal)> {
    if edges == 0 then [] else Turns(edges - 1, symbols, propose) + EdgeTurns(edges - 1, symbols, propose)
  }

  lemma TakenGrows(base: Base, log: seq<Attempt>, a: Attempt)
    ensures forall symbol ::
              Taken(base, log + [a], symbol) <==> Taken(base, log, symbol) || (a.counted && a.symbol == symbol)
  {
    var after := log + [a];
    forall symbol
      ensures Taken(base, after, symbol) <==> Taken(base, log, symbol) || (a.counted && a.symbol == symbol)
    {
      assert after[|log|] == a && forall i :: 0 <= i < |log| ==> after[i] == log[i];
    }
  }

  lemma CountsGrow(log: seq<Attempt>, a: Attempt)
    ensures PlannedRisk(log + [a]) == PlannedRisk(log) + if a.counted then a.entry.Risk() else 0.0
    ensures PlannedNotional(log + [a]) == PlannedNotional(log) + if a.counted then a.entry.Notional() else 0.0
    ensures Counted(log + [a]) == Counted(log) + if a.counted then 1 else 0
  {
    assert (log + [a])[..|log|] == log;
  }

  lemma BookGrows(trades: seq<ActiveTrade>, orders: seq<OrderRow>, log: seq<Attempt>, a: Attempt)
    ensures var rows := orders + RowsOf(log);
            orders + RowsOf(log + [a]) == if a.counted then rows + [a.Row()] else rows
    ensures var ours := trades + TradesOf(log);
            trades + TradesOf(log + [a]) == if a.counted then ours + a.Trades() else ours
  {
    hide Attempt.Row, Attempt.Trades;
    assert (log + [a])[..|log|] == log;
  }

  /** A request extends the log within the caps exactly when it passes the checks. */
  lemma CapsHold(base: Base, caps: Caps, log: seq<Attempt>, a: Attempt)
    requires AllWithinCaps(base, caps, log)
    ensures WithinCaps(base, caps, log + [a], |log|) <==>
            (&& base.positions + base.pendingPositions + Counted(log) < caps.maxPositions
             && caps.AllowsRisk(base.tally.openRisk + base.tally.pendingRisk + PlannedRisk(log) + a.entry.Risk())
             && caps.AllowsGross(base.gross + base.tally.pendingNotional + PlannedNotional(log) + a.entry.Notional()))
    ensures AllWithinCaps(base, caps, log + [a]) <==> WithinCaps(base, caps, log + [a], |log|)
  {
    hide WithinCaps, AllWithinCaps, Caps.AllowsRisk, Caps.AllowsGross, PlannedRisk, PlannedNotional, Counted;
    hide Entry.Risk, Entry.Notional;
    RequestFits(base, caps, log + [a], |log|, log);
    EarlierStay(base, caps, log, a);
  }

  lemma EarlierStay(base: Base, caps: Caps, log: seq<Attempt>, a: Attempt)
    requires AllWithinCaps(base, caps, log)
    ensures AllWithinCaps(base, caps, log + [a]) <==> WithinCaps(base, caps, log + [a], |log|)
  {
    hide WithinCaps;
    var after := log + [a];
    forall i | 0 <= i < |log|
      ensures WithinCaps(base, caps, after, i)
    {
      assert WithinCaps(base, caps, log, i);
      assert after[..i] == log[..i];
      RequestFits(base, caps, log, i, log[..i]);
      RequestFits(base, caps, after, i, log[..i]);
    }
  }

  lemma RequestFits(base: Base, caps: Caps, log: seq<Attempt>, i: nat, earlier: seq<Attempt>)
    requires i < |log| && earlier == log[..i]
    ensures WithinCaps(base, caps, log, i) <==>
            (&& base.positions + base.pendingPositions + Counted(earlier) < caps.maxPositions
             && caps.AllowsRisk(base.tally.openRisk + base.tally.pendingRisk + PlannedRisk(earlier) +
                                log[i].entry.Risk())
             && caps.AllowsGross(base.gross + base.tally.pendingNotional + PlannedNotional(earlier) +
                                 log[i].entry.Notional()))
  {
    hide Caps.AllowsRisk, Caps.AllowsGross, PlannedRisk, PlannedNotional, Counted, Entry.Risk, Entry.Notional;
  }

  lemma StillOnePerUnderlying(base: Base, log: seq<Attempt>, a: Attempt)
    requires OnePerUnderlying(base, log) && a.symbol !in base.tally.underlyings
    requires forall i :: 0 <= i < |log| && log[i].counted ==> log[i].symbol != a.symbol
    ensures OnePerUnderlying(base, log + [a])
  {
  }

  /** What a pass planned is itself within the caps, an ambiguous submission included. */
  lemma {:induction false} PlannedIsWithinCaps(base: Base, caps: Caps, log: seq<Attempt>)
    requires AllWithinCaps(base, caps, log) && Counted(log) > 0
    ensures caps.AllowsRisk(base.tally.openRisk + base.tally.pendingRisk + PlannedRisk(log))
    ensures caps.AllowsGross(base.gross + base.tally.pendingNotional + PlannedNotional(log))
    ensures base.positions + base.pendingPositions + Counted(log) <= caps.maxPositions
  {
    var n := |log| - 1;
    if log[n].counted {
      assert WithinCaps(base, caps, log, n);
    } else {
      forall i | 0 <= i < n
        ensures WithinCaps(base, caps, log[..n], i)
      {
        assert WithinCaps(base, caps, log, i);
        assert log[..n][..i] == log[..i];
      }
      PlannedIsWithinCaps(base, caps, log[..n]);
    }
  }

  // ---- The next tally

  /** Risk of fills whose row still counts with its whole plan. */
  function CountedTwice(log: seq<Attempt>): real {
    if log == [] then 0.0
    else
      var a := log[|log| - 1];
      CountedTwice(log[..|log| - 1]) + if a.counted && a.Row().Counts() then a.FillRisk() else 0.0
  }

  /** What requests that no longer work fell short of their plan. */
  function FellShort(log: seq<Attempt>): real {
    if log == [] then 0.0
    else
      var a := log[|log| - 1];
      FellShort(log[..|log| - 1]) + if a.counted && !a.Row().Counts() then a.entry.Risk() - a.FillRisk() else 0.0
  }

  /** What the risk cap still allows beyond a total. */
  function Room(caps: Caps, total: real): real
    requires caps.riskPct.Some?
  {
    caps.equity * caps.riskPct.value / 100.0 + EPSILON - total
  }

  /** The risk that a tally of the book finds after a pass, with whatever evidence its orders have by then. */
  function NextRisk(trades: seq<ActiveTrade>, orders: seq<OrderRow>, log: seq<Attempt>): real {
    OpenRisk(trades + TradesOf(log)) + PendingRisk(orders + RowsOf(log))
  }

  /** It is what stood before and what was planned, with fills of working rows twice and finished rows as filled. */
  lemma {:induction false} NextRiskIs(trades: seq<ActiveTrade>, orders: seq<OrderRow>, log: seq<Attempt>)
    ensures NextRisk(trades, orders, log) ==
            OpenRisk(trades) + PendingRisk(orders) + PlannedRisk(log) + CountedTwice(log) - FellShort(log)
  {
    hide OpenRisk, PendingRisk, Attempt.FillRisk, Entry.Risk, Attempt.Row, Attempt.Trades, OrderRow.Counts;
    if log == [] {
      assert trades + [] == trades && orders + [] == orders;
    } else {
      var n := |log| - 1;
      NextRiskIs(trades, orders, log[..n]);
      assert log == log[..n] + [log[n]];
      BookGrows(trades, orders, log[..n], log[n]);
      if log[n].counted {
        RowAddsRisk(orders + RowsOf(log[..n]), log[n]);
        TradesAdd(trades + TradesOf(log[..n]), log[n]);
      }
    }
  }

  lemma RowAddsRisk(orders: seq<OrderRow>, a: Attempt)
    ensures PendingRisk(orders + [a.Row()]) == PendingRisk(orders) + if a.Row().Counts() then a.entry.Risk() else 0.0
  {
    hide Entry.Risk;
    RowAdds(orders, a.Row());
  }

  lemma TradesAdd(trades: seq<ActiveTrade>, a: Attempt)
    ensures OpenRisk(trades + a.Trades()) == OpenRisk(trades) + a.FillRisk()
  {
    if a.answer.fill.Some? {
      assert (trades + a.Trades())[..|trades|] == trades;
    } else {
      assert trades + a.Trades() == trades;
    }
  }

  /** Every counted request was sized, and its fill kept to its limit and near its stop. */
  predicate FillsFit(log: seq<Attempt>) {
    forall i :: 0 <= i < |log| && log[i].counted ==>
      log[i].entry.Sized() && (log[i].answer.fill.Some? ==> FillFits(log[i].entry, log[i].answer.fill.value))
  }

  /** No row that still counts has a fill. */
  predicate NoPartialFill(log: seq<Attempt>) {
    forall i :: 0 <= i < |log| && log[i].counted && log[i].Row().Counts() ==> log[i].answer.fill.None?
  }

  lemma {:induction false} FittingFills(log: seq<Attempt>)
    requires FillsFit(log)
    ensures FellShort(log) >= 0.0 && 0.0 <= CountedTwice(log) <= PlannedRisk(log)
    ensures NoPartialFill(log) ==> CountedTwice(log) == 0.0
  {
    hide Delivered, Entry.Risk, Entry.Sized, FillFits;
    if log != [] {
      var n := |log| - 1;
      assert forall i :: 0 <= i < n ==> log[..n][i] == log[i];
      FittingFills(log[..n]);
      if log[n].counted {
        FillIsWithinPlan(log[n]);
      }
    }
  }

  lemma FillIsWithinPlan(a: Attempt)
    requires a.entry.Sized() && (a.answer.fill.Some? ==> FillFits(a.entry, a.answer.fill.value))
    ensures 0.0 <= a.FillRisk() <= a.entry.Risk()
  {
    if a.answer.fill.Some? {
      DeliversAtMostThePlan(a.entry, a.answer.fill.value);
    } else {
      DeliversAtMostThePlan(a.entry, Fill(0.0, None));
    }
  }

  /**
   * The next tally is within the risk cap exactly when the fills of rows that still count - their whole plan is
   * tallied as pending and their trade as open - fit the room the plans left and what finished rows fell short.
   * Fills that keep to their limit and near their stop exceed it by no more than those, and not at all when no
   * partly filled row is left.
   */
  lemma NextTallyIsWithinCapIff(base: Base, caps: Caps, log: seq<Attempt>, trades: seq<ActiveTrade>,
                                orders: seq<OrderRow>)
    requires base.tally.openRisk == OpenRisk(trades) && base.tally.pendingRisk == PendingRisk(orders)
    requires AllWithinCaps(base, caps, log) && Counted(log) > 0
    ensures caps.AllowsRisk(NextRisk(trades, orders, log)) <==>
            caps.riskPct.None? ||
            CountedTwice(log) <=
            Room(caps, base.tally.openRisk + base.tally.pendingRisk + PlannedRisk(log)) + FellShort(log)
    ensures FillsFit(log) ==> caps.AllowsRisk(NextRisk(trades, orders, log) - CountedTwice(log))
    ensures FillsFit(log) && NoPartialFill(log) ==> caps.AllowsRisk(NextRisk(trades, orders, log))
  {
    hide NextRisk, PlannedRisk, CountedTwice, FellShort, FillsFit, NoPartialFill, AllWithinCaps, Counted;
    PlannedIsWithinCaps(base, caps, log);
    NextRiskIs(trades, orders, log);
    if FillsFit(log) {
      FittingFills(log);
    }
  }

  /** The smallest excess: a request for all the cap allows, half filled exactly as planned, is tallied at 1.5. */
  lemma HalfFilledEntryIsCountedTwice(e: Entry)
    requires e == Shares(false, 2.0, 10.0, 9.5)
    ensures var base := Base(Tally(0.0, 0.0, 0.0, {}), 0.0, 0, 0);
            var caps := Caps(100.0, Some(1.0), None, 1);
            var log := [Attempt("SPY", e, true, Answer(PartiallyFilled, Some(Fill(1.0, Some(10.0)))))];
            && AllWithinCaps(base, caps, log) && FillsFit(log)
            && NextRisk([], [], log) == 1.5
            && !caps.AllowsRisk(NextRisk([], [], log))
  {
    var log := [Attempt("SPY", e, true, Answer(PartiallyFilled, Some(Fill(1.0, Some(10.0)))))];
    assert log[..0] == [];
    assert e.Risk() == 1.0 && Delivered(e, Fill(1.0, Some(10.0))) == 0.5;
    NextRiskIs([], [], log);
  }

  /** The limit does not bound a better price: bought far past its stop, an entry risks more than was sized. */
  lemma FillPastTheStopCostsMore(e: Entry)
    requires e == Shares(false, 2.0, 10.0, 9.5)
    ensures e.Sized() && e.WithinLimit(8.0) && !e.StaysNear(8.0)
    ensures Delivered(e, Fill(2.0, Some(8.0))) == 3.0 && e.Risk() == 1.0
  {
  }

  /** An option candidate that names a debit below its ask is sized from the debit and may be filled at the ask. */
  lemma AskAboveDebitCostsMore(e: Entry)
    requires e.Contracts? && e.Sized() && e.ask > e.debit
    ensures e.WithinLimit(e.ask) && Delivered(e, Fill(e.qty, Some(e.ask))) > e.Risk()
  {
    TimesGrow(e.multiplier, e.debit, e.ask);
    TimesGrow(e.qty, e.RiskAt(e.debit), e.RiskAt(e.ask));
  }
}
