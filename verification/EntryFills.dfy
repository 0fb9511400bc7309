/**
 * Entry fills: how a reconciliation turns the cumulative fill of an entry order into an open trade and
 * incremental journal rows.
 *
 * A broker reports a cumulative quantity and a cumulative average price. Each journal row carries only the
 * growth since the last one, priced so that the rows still add up to the broker's own totals.
 */
module EntryFills {
  import opened Basics
  import opened Evidence

  /** Averages closer than this are the same price. */
  const PRICE_TOLERANCE: real := 0.000000000001

  /** The entry half of the active trade this order opened. */
  datatype Opened = Opened(qty: real, price: Option<real>, exitsBegan: bool)

  /** A durable entry order row. */
  datatype Entry = Entry(
    evidence: Row,
    planned: bool,                // the row carries a sizing plan
    planPrice: Option<real>,
    fillLogged: bool,
    logged: real,                 // cumulative quantity already journalled
    loggedAverage: Option<real>,  // cumulative average at that point
    trade: Option<Opened>)

  /** One "open" row of the journal. */
  datatype Fill = Fill(qty: real, price: Option<real>)

  datatype Activation = Refused | Activated(entry: Entry, fills: seq<Fill>)

  // ---- Activation

  /** The price an activation uses: the broker's, else the open trade's, else the plan's. */
  function FillPrice(e: Entry): Option<real> {
    if e.evidence.average.Some? then e.evidence.average
    else if e.trade.Some? && e.trade.value.price.Some? then e.trade.value.price
    else e.planPrice
  }

  /** The average the journalled quantity was last accounted at. */
  function Baseline(e: Entry): Option<real> {
    if e.loggedAverage.None? && e.logged > 0.0 && e.trade.Some? then e.trade.value.price else e.loggedAverage
  }

  /** Once completed bars have driven the exit, the entry it was computed from must not change. */
  predicate EntryMoved(e: Entry) {
    && e.trade.Some? && e.trade.value.exitsBegan
    && (|| e.trade.value.price.None? || FillPrice(e).None?
        || Abs(e.trade.value.qty - e.evidence.filled) > EPSILON
        || Abs(e.trade.value.price.value - FillPrice(e).value) > EPSILON)
  }

  /** Journal quantity this activation adds. */
  function Growth(e: Entry): real { Max(0.0, e.evidence.filled - e.logged) }

  function Activate(e: Entry): Activation {
    if EntryMoved(e) then Refused
    else
      var price := FillPrice(e);
      var holding := Opened(e.evidence.filled, price, e.trade.Some? && e.trade.value.exitsBegan);
      var grown := e.(trade := Some(holding),
                      fillLogged := e.fillLogged || Growth(e) > 0.0,
                      logged := if Growth(e) > 0.0 then e.evidence.filled else e.logged,
                      loggedAverage := if e.evidence.filled > 0.0 then price else e.loggedAverage);
      Activated(grown, if Growth(e) > 0.0 then [Fill(Growth(e), IncrementPrice(e))] else [])
  }

  /** The price at which `filled - logged` shares take the average from `baseline` to `price`. */
  function Implied(price: real, filled: real, baseline: real, logged: real): (r: real)
    requires filled > logged
    ensures (filled - logged) * r == price * filled - baseline * logged
  {
    (price * filled - baseline * logged) / (filled - logged)
  }

  /** The price that makes old rows plus this one reproduce the new cumulative average. */
  function IncrementPrice(e: Entry): Option<real>
    requires Growth(e) > 0.0
  {
    if e.logged > 0.0 && Baseline(e).Some? && FillPrice(e).Some?
    then Some(Implied(FillPrice(e).value, e.evidence.filled, Baseline(e).value, e.logged))
    else FillPrice(e)
  }

  predicate AverageChanged(e: Entry) {
    e.evidence.average.Some? &&
    (e.loggedAverage.None? || Abs(e.evidence.average.value - e.loggedAverage.value) > PRICE_TOLERANCE)
  }

  predicate NeedsActivation(e: Entry) {
    e.evidence.filled > 0.0 && e.planned && (!e.fillLogged || e.evidence.filled > e.logged || AverageChanged(e))
  }

  /** One reconciliation of one entry row. */
  function Reconciled(e: Entry, view: Option<View>): Activation {
    var seen := e.(evidence := Observe(e.evidence, view));
    if view.Some? && NeedsActivation(seen) then Activate(seen) else Activated(seen, [])
  }

  /** The program's reconciliation of one row: merge, then activate when there is something to record. */
  method ReconcileEntry(e: Entry, view: Option<View>) returns (result: Activation)
    ensures result == Reconciled(e, view)
  {
    var merged := MergeView(e.evidence, view);
    var entry := e.(evidence := merged);
    if view.None? || merged.filled <= 0.0 || !e.planned {
      return Activated(entry, []);
    }
    var changed := false;
    if merged.average.Some? {
      changed := e.loggedAverage.None? || Abs(merged.average.value - e.loggedAverage.value) > PRICE_TOLERANCE;
    }
    if e.fillLogged && merged.filled <= e.logged && !changed {
      return Activated(entry, []);
    }
    var baseline := e.loggedAverage;
    var price := merged.average;
    if e.trade.Some? {
      if baseline.None? && e.logged > 0.0 {
        baseline := e.trade.value.price;
      }
      if price.None? {
        price := e.trade.value.price;
      }
    }
    if price.None? {
      price := e.planPrice;
    }
    assert price == FillPrice(entry) && baseline == Baseline(entry) && NeedsActivation(entry);
    var began := e.trade.Some? && e.trade.value.exitsBegan;
    if began {
      var prior := e.trade.value;
      if prior.price.None? || price.None? {
        return Refused;
      }
      if Abs(prior.qty - merged.filled) > EPSILON || Abs(prior.price.value - price.value) > EPSILON {
        return Refused;
      }
    }
    ghost var seen := entry;
    entry := entry.(trade := Some(Opened(merged.filled, price, began)));
    var fills := [];
    if merged.filled > e.logged {
      var increment := merged.filled - e.logged;
      var incrementPrice := price;
      if e.logged > 0.0 && baseline.Some? && price.Some? {
        incrementPrice := Some(Implied(price.value, merged.filled, baseline.value, e.logged));
      }
      assert increment == Growth(seen) && incrementPrice == IncrementPrice(seen);
      fills := [Fill(increment, incrementPrice)];
      entry := entry.(fillLogged := true, logged := merged.filled);
    }
    entry := entry.(loggedAverage := price);
    result := Activated(entry, fills);
    assert result == Activate(seen);

  }

  // ---- What an activation rests on

  /**
   * A reconciliation is refused exactly when completed bars have driven the exit of the trade and its entry moved:
   * the quantity, or a price the broker names, by more than the tolerance.
   */
  lemma RefusedIffEntryMoved(e: Entry, view: Option<View>)
    requires e.trade.Some? && view.Some?
    ensures var now, was := Observe(e.evidence, view), e.trade.value;
            Reconciled(e, view).Refused? <==>
            (&& NeedsActivation(e.(evidence := now))
             && was.exitsBegan
             && (|| was.price.None?
                 || now.filled < was.qty - EPSILON || now.filled > was.qty + EPSILON
                 || (now.average.Some? && (now.average.value < was.price.value - EPSILON ||
                                           now.average.value > was.price.value + EPSILON))))
  {
    hide Observe, NeedsActivation, IncrementPrice;
  }

  /** Without a price from the broker the trade keeps its own, and what the fill grew by is booked at that price. */
  lemma UnpricedGrowthKeepsTheTradePrice(e: Entry, view: Option<View>, price: real)
    requires view.Some? && e.planned && e.trade.Some? && e.trade.value.price == Some(price)
    requires e.loggedAverage == None || e.loggedAverage == Some(price)
    requires Observe(e.evidence, view).average.None? && Observe(e.evidence, view).filled > e.logged >= 0.0
    requires !Reconciled(e, view).Refused?
    ensures var after, grown := Reconciled(e, view), Observe(e.evidence, view).filled - e.logged;
            && after.fills == [Fill(grown, Some(price))]
            && after.entry.trade.value.price == after.entry.loggedAverage == Some(price)
  {
    hide Observe;
    var now := Observe(e.evidence, view);
    if e.logged > 0.0 {
      SamePrice(price, now.filled, e.logged);
    }
  }

  lemma SamePrice(price: real, filled: real, logged: real)
    requires filled > logged
    ensures Implied(price, filled, price, logged) == price
  {
    assert price * filled - price * logged == price * (filled - logged);
  }

  /** A trade whose baseline was never recorded is corrected from the price it was opened at. */
  lemma UnrecordedBaselineIsTheTradePrice(e: Entry, view: Option<View>, price: real)
    requires view.Some? && e.planned && e.trade.Some? && e.trade.value.price == Some(price) && e.loggedAverage.None?
    requires var now := Observe(e.evidence, view); now.average.Some? && now.filled > e.logged > 0.0
    requires !Reconciled(e, view).Refused?
    ensures var after, now := Reconciled(e, view), Observe(e.evidence, view);
            && |after.fills| == 1 && after.fills[0].qty == now.filled - e.logged && after.fills[0].price.Some?
            && Times(now.filled - e.logged, after.fills[0].price.value) ==
               Times(now.average.value, now.filled) - Times(price, e.logged)
  {
    hide Observe;
  }

  /** The same view again records nothing. */
  lemma RepeatedViewIsIdle(a: Account, view: View)
    requires Telescopes(a) && Reconciled(a.entry, Some(view)).Activated?
    ensures Pass(Pass(a, Some(view)), Some(view)) == Pass(a, Some(view))
  {
    hide Quantity, Value, Times;
    var seen := a.entry.(evidence := Observe(a.entry.evidence, Some(view)));
    assert Observe(seen.evidence, Some(view)) == seen.evidence;
    var once := Pass(a, Some(view));
    assert !NeedsActivation(once.entry);
    assert once.fills + [] == once.fills;
  }

  // ---- Sums over journal rows

  function Quantity(fills: seq<Fill>): real {
    if fills == [] then 0.0 else Quantity(fills[..|fills| - 1]) + fills[|fills| - 1].qty
  }

  /** Price-weighted quantity; a row without a price adds nothing. */
  function Value(fills: seq<Fill>): real {
    if fills == [] then 0.0
    else
      var f := fills[|fills| - 1];
      Value(fills[..|fills| - 1]) + f.qty * f.price.GetOr(0.0)
  }

  lemma {:induction false} SumsAppend(a: seq<Fill>, b: seq<Fill>)
    ensures Quantity(a + b) == Quantity(a) + Quantity(b)
    ensures Value(a + b) == Value(a) + Value(b)
  {
    if b == [] {
      assert a + b == a;
    } else {
      var n := |b| - 1;
      SumsAppend(a, b[..n]);
      assert (a + b)[..|a + b| - 1] == a + b[..n];
    }
  }

  // ---- Telescoping

  /** An order with its journal and the value moved by average-only corrections. */
  datatype Account = Account(entry: Entry, fills: seq<Fill>, corrections: real)

  /** An entry as it is recorded at submission, before any fill is journalled. */
  predicate Fresh(e: Entry) {
    && e.planned && e.planPrice.Some? && !e.fillLogged && e.logged == 0.0 && e.loggedAverage.None?
    && e.trade.None? && 0.0 <= e.evidence.filled
  }

  /** What every pass keeps about one order and its journal. */
  ghost predicate Telescopes(a: Account) {
    var e := a.entry;
    && e.planned && e.planPrice.Some?
    && 0.0 <= e.logged <= e.evidence.filled
    && (e.fillLogged <==> e.logged > 0.0)
    && (e.logged > 0.0 ==> e.loggedAverage.Some? && e.trade.Some?)
    && Quantity(a.fills) == e.logged
    && Value(a.fills) == e.logged * e.loggedAverage.GetOr(0.0) - a.corrections
  }

  /** A pass that changes the baseline of already journalled quantity without adding a row. */
  function Correction(before: Entry, after: Entry): real {
    if after.logged == before.logged && before.logged > 0.0
    then before.logged * (after.loggedAverage.GetOr(0.0) - before.loggedAverage.GetOr(0.0))
    else 0.0
  }

  /** One uninterrupted pass; a refused activation stops the whole reconciliation and changes nothing. */
  function Pass(a: Account, view: Option<View>): Account {
    match Reconciled(a.entry, view)
    case Refused => a
    case Activated(entry, fills) =>
      Account(entry, a.fills + fills, a.corrections + Correction(a.entry, entry))
  }

  /** A view reports a nonnegative quantity. */
  predicate Plausible(views: seq<Option<View>>) {
    forall i :: 0 <= i < |views| && views[i].Some? ==> views[i].value.filled >= 0.0
  }

  lemma PassTelescopes(a: Account, view: Option<View>)
    requires Telescopes(a)
    ensures Telescopes(Pass(a, view))
    ensures Reconciled(a.entry, view).Activated? && view.Some? ==> Caught(Pass(a, view).entry)
  {
    hide Telescopes, Caught, Activate, Correction, Observe;
    var seen := a.entry.(evidence := Observe(a.entry.evidence, view));
    EvidenceGrows(a, view);
    if view.Some? && NeedsActivation(seen) && !EntryMoved(seen) {
      if Growth(seen) > 0.0 {
        GrowthTelescopes(a, seen);
      } else {
        CorrectionTelescopes(a, seen);
      }
    } else {
      IdlePassTelescopes(a, view);
    }
  }

  lemma EvidenceGrows(a: Account, view: Option<View>)
    requires Telescopes(a)
    ensures Observe(a.entry.evidence, view).filled >= a.entry.logged
  {
  }

  /** A pass with nothing to record, or one that is refused, changes no row. */
  lemma IdlePassTelescopes(a: Account, view: Option<View>)
    requires Telescopes(a)
    requires var seen := a.entry.(evidence := Observe(a.entry.evidence, view));
             view.None? || !NeedsActivation(seen) || EntryMoved(seen)
    ensures Telescopes(Pass(a, view))
    ensures Reconciled(a.entry, view).Activated? && view.Some? ==> Caught(Pass(a, view).entry)
  {
    assert a.fills + [] == a.fills;
  }

  /** The journal has caught up with the evidence. */
  predicate Caught(e: Entry) {
    && e.logged == e.evidence.filled
    && (e.evidence.filled > 0.0 && e.evidence.average.Some? ==>
          && e.loggedAverage.Some?
          && Abs(e.evidence.average.value - e.loggedAverage.value) <= PRICE_TOLERANCE)
  }

  /** A row for the growth moves quantity and value to the new totals. */
  lemma GrowthTelescopes(a: Account, seen: Entry)
    requires Telescopes(a) && seen == a.entry.(evidence := seen.evidence) && Growth(seen) > 0.0
    requires !EntryMoved(seen)
    ensures var Activated(entry, fills) := Activate(seen);
            Telescopes(Account(entry, a.fills + fills, a.corrections + Correction(a.entry, entry))) && Caught(entry)
  {
  }

  /** Without growth no row is written; the baseline moves and the difference is booked as a correction. */
  lemma CorrectionTelescopes(a: Account, seen: Entry)
    requires Telescopes(a) && seen == a.entry.(evidence := seen.evidence) && Growth(seen) == 0.0
    requires seen.evidence.filled > 0.0 && seen.evidence.filled >= seen.logged && !EntryMoved(seen)
    ensures var Activated(entry, fills) := Activate(seen);
            && fills == []
            && Telescopes(Account(entry, a.fills + fills, a.corrections + Correction(a.entry, entry))) && Caught(entry)
  {
    assert a.fills + [] == a.fills;
    var before, after := a.entry.loggedAverage.value, FillPrice(seen).value;
    assert a.entry.logged * (after - before) == a.entry.logged * after - a.entry.logged * before;
  }

  function Passes(a: Account, views: seq<Option<View>>): Account {
    if views == [] then a else Pass(Passes(a, views[..|views| - 1]), views[|views| - 1])
  }

  /** No pass of the run was refused. */
  ghost predicate NeverRefused(a: Account, views: seq<Option<View>>) {
    views == [] ||
    (&& NeverRefused(a, views[..|views| - 1])
     && Reconciled(Passes(a, views[..|views| - 1]).entry, views[|views| - 1]).Activated?)
  }

  /**
   * Over any sequence of cumulative snapshots, lagging ones included, the open rows add up to the largest
   * fill ever seen, and their price-weighted sum is fill times average less the average-only corrections.
   */
  lemma {:induction false} OpenRowsTelescope(e: Entry, views: seq<Option<View>>)
    requires Fresh(e)
    requires |views| > 0 && views[|views| - 1].Some?
    requires NeverRefused(Account(e, [], 0.0), views)
    ensures var end := Passes(Account(e, [], 0.0), views);
            && Telescopes(end)
            && Caught(end.entry)
            && Quantity(end.fills) == Peak(e.evidence.filled, views)
            && (forall i :: 0 <= i < |views| && LastPriced(e.evidence, views, i) ==>
                  ValueIsAt(end, views[i].value.average.value, Peak(e.evidence.filled, views)))
  {
    var start := Account(e, [], 0.0);
    PassesTelescope(start, views);
    LastPassCatchesUp(start, views);
    EvidenceFollowsRun(start, views);
    EvidenceIsMonotone(e.evidence, views);
    forall i | 0 <= i < |views| && LastPriced(e.evidence, views, i)
      ensures ValueIsAt(Passes(start, views), views[i].value.average.value, Peak(e.evidence.filled, views))
    {
      LastPricedViewDecides(e.evidence, views, i);
      AccountedAt(Passes(start, views), views[i].value.average.value);
    }
  }

  /** With the average-only corrections, the rows are worth `qty` at `price`, as far as prices are told apart. */
  ghost predicate ValueIsAt(a: Account, price: real, qty: real) {
    Abs(Value(a.fills) + a.corrections - Times(price, qty)) <= Times(PRICE_TOLERANCE, qty)
  }

  lemma AccountedAt(a: Account, price: real)
    requires Telescopes(a) && Caught(a.entry) && a.entry.evidence.average == Some(price)
    ensures ValueIsAt(a, price, a.entry.evidence.filled)
  {
    var qty, off := a.entry.logged, a.entry.loggedAverage.GetOr(0.0) - price;
    assert Times(qty, a.entry.loggedAverage.GetOr(0.0)) == Times(price, qty) + Times(off, qty);
    if qty > 0.0 {
      NonNegative(PRICE_TOLERANCE - off, qty);
      NonNegative(PRICE_TOLERANCE + off, qty);
    }
  }

  /** A fill that grows from `a` at `p` to `b` at `q`: two rows, together worth all of it at the new average. */
  lemma TwoFillsAreTwoRows(e: Entry, a: real, p: real, b: real, q: real, one: View, two: View)
    requires Fresh(e) && e.evidence.filled == 0.0 && 0.0 < a < b && p != 0.0
    requires one.filled == a && one.average == Some(p) && two.filled == b && two.average == Some(q)
    ensures var fills := Passes(Account(e, [], 0.0), [Some(one), Some(two)]).fills;
            && |fills| == 2
            && fills[0] == Fill(a, Some(p))
            && fills[1].qty == b - a && fills[1].price.Some?
            && Times(b - a, fills[1].price.value) == Times(q, b) - Times(p, a)
  {
    var start := Account(e, [], 0.0);
    assert [Some(one), Some(two)][..1] == [Some(one)] && [Some(one)][..0] == [];
    assert Passes(start, [Some(one)]) == Pass(start, Some(one));
    FirstFill(e, a, p, one);
    SecondFill(Pass(start, Some(one)), a, p, b, q, two);
  }

  lemma FirstFill(e: Entry, a: real, p: real, one: View)
    requires Fresh(e) && e.evidence.filled == 0.0 && 0.0 < a && one.filled == a && one.average == Some(p)
    ensures var first := Pass(Account(e, [], 0.0), Some(one));
            && first.fills == [Fill(a, Some(p))]
            && first.entry.planned && first.entry.logged == a && first.entry.loggedAverage == Some(p)
            && first.entry.evidence.filled == a
            && first.entry.trade == Some(Opened(a, Some(p), false))
  {
  }

  lemma SecondFill(first: Account, a: real, p: real, b: real, q: real, two: View)
    requires first.fills == [Fill(a, Some(p))] && first.entry.trade == Some(Opened(a, Some(p), false))
    requires first.entry.planned && first.entry.logged == a && first.entry.loggedAverage == Some(p)
    requires first.entry.evidence.filled == a && 0.0 < a < b && two.filled == b && two.average == Some(q)
    ensures var fills := Pass(first, Some(two)).fills;
            && |fills| == 2
            && fills[0] == Fill(a, Some(p))
            && fills[1].qty == b - a && fills[1].price.Some?
            && Times(b - a, fills[1].price.value) == Times(q, b) - Times(p, a)
  {
    hide Join;
    var seen := first.entry.(evidence := Observe(first.entry.evidence, Some(two)));
    assert seen.evidence.filled == b && seen.evidence.average == Some(q) && Growth(seen) == b - a;
    assert IncrementPrice(seen) == Some(Implied(q, b, p, a));
    assert Times(b - a, Implied(q, b, p, a)) == Times(q, b) - Times(p, a);
  }

  lemma {:induction false} PassesTelescope(a: Account, views: seq<Option<View>>)
    requires Telescopes(a)
    ensures Telescopes(Passes(a, views))
  {
    if views != [] {
      PassesTelescope(a, views[..|views| - 1]);
      PassTelescopes(Passes(a, views[..|views| - 1]), views[|views| - 1]);
    }
  }

  lemma LastPassCatchesUp(a: Account, views: seq<Option<View>>)
    requires Telescopes(a) && |views| > 0 && views[|views| - 1].Some? && NeverRefused(a, views)
    ensures Caught(Passes(a, views).entry)
  {
    var n := |views| - 1;
    PassesTelescope(a, views[..n]);
    PassTelescopes(Passes(a, views[..n]), views[n]);
  }

  lemma {:induction false} EvidenceFollowsRun(a: Account, views: seq<Option<View>>)
    requires NeverRefused(a, views)
    ensures Passes(a, views).entry.evidence == Run(a.entry.evidence, views)
  {
    if views != [] {
      EvidenceFollowsRun(a, views[..|views| - 1]);
    }
  }

  // ---- Crashes between the journal and the book

  /** A pass that stops after journalling and before the book is written keeps the rows and loses the row state. */
  function CrashedPass(a: Account, view: Option<View>): Account {
    match Reconciled(a.entry, view)
    case Refused => a
    case Activated(_, fills) => a.(fills := a.fills + fills)
  }

  /** What a crashed pass journals that no later pass will know about. */
  function Orphaned(a: Account, view: Option<View>): real {
    match Reconciled(a.entry, view)
    case Refused => 0.0
    case Activated(_, fills) => Quantity(fills)
  }

  datatype Turn = Turn(view: Option<View>, crashes: bool)

  function Turns(a: Account, turns: seq<Turn>): Account {
    if turns == [] then a
    else
      var before := Turns(a, turns[..|turns| - 1]);
      var t := turns[|turns| - 1];
      if t.crashes then CrashedPass(before, t.view) else Pass(before, t.view)
  }

  function OrphanedTotal(a: Account, turns: seq<Turn>): real {
    if turns == [] then 0.0
    else
      var t := turns[|turns| - 1];
      OrphanedTotal(a, turns[..|turns| - 1]) +
      if t.crashes then Orphaned(Turns(a, turns[..|turns| - 1]), t.view) else 0.0
  }

  /** Nothing is journalled: no view, no plan, an activation refused, or no fill beyond what is journalled. */
  predicate Idle(e: Entry, view: Option<View>) {
    || view.None?
    || !e.planned
    || EntryMoved(e.(evidence := Observe(e.evidence, view)))
    || Max(e.evidence.filled, view.value.filled) <= e.logged
  }

  /** A pass over an accounted row journals quantity exactly when it is not idle. */
  lemma OrphansIffNotIdle(a: Account, view: Option<View>)
    requires 0.0 <= a.entry.logged <= a.entry.evidence.filled
    ensures Orphaned(a, view) == 0.0 <==> Idle(a.entry, view)
    ensures Orphaned(a, view) >= 0.0
    ensures Idle(a.entry, view) && Reconciled(a.entry, view).Activated? ==> Reconciled(a.entry, view).fills == []
  {
    var step := Reconciled(a.entry, view);
    if step.Activated? && |step.fills| == 1 {
      assert step.fills[..0] == [];
      assert Quantity(step.fills) == step.fills[0].qty;
    }
  }

  /** Every pass that crashed found no fill beyond what was journalled. */
  ghost predicate CrashesWereIdle(a: Account, turns: seq<Turn>) {
    turns == [] ||
    (&& CrashesWereIdle(a, turns[..|turns| - 1])
     && var t := turns[|turns| - 1];
        t.crashes ==> Idle(Turns(a, turns[..|turns| - 1]).entry, t.view))
  }

  /** The views of the passes that were written. */
  function Completed(turns: seq<Turn>): seq<Option<View>> {
    if turns == [] then []
    else
      var t := turns[|turns| - 1];
      Completed(turns[..|turns| - 1]) + if t.crashes then [] else [t.view]
  }

  /**
   * Open rows have no replay key, so a crash between journal and book repeats its rows later. The journal
   * still equals the accounted fill exactly when no crashed pass had seen a fill beyond what was journalled; then
   * the crashes left no trace at all, and the value of the rows telescopes too.
   */
  lemma {:induction false} JournalIsExactIffCrashesWereIdle(e: Entry, turns: seq<Turn>)
    requires Fresh(e)
    ensures var start := Account(e, [], 0.0);
            var end := Turns(start, turns);
            && Quantity(end.fills) == end.entry.logged + OrphanedTotal(start, turns)
            && OrphanedTotal(start, turns) >= 0.0
            && (Quantity(end.fills) == end.entry.logged <==> CrashesWereIdle(start, turns))
            && (CrashesWereIdle(start, turns) ==> end == Passes(start, Completed(turns)) && Telescopes(end))
  {
    var start := Account(e, [], 0.0);
    FreshConserves(e);
    hide OrphanedTotal, CrashesWereIdle, Turns, Passes, Completed, Fresh, Telescopes;
    TurnsConserve(start, turns);
    OrphansVanishIffIdle(start, turns);
    if CrashesWereIdle(start, turns) {
      IdleCrashesLeaveNoTrace(start, turns);
      PassesTelescope(start, Completed(turns));
    }
  }

  lemma FreshConserves(e: Entry)
    requires Fresh(e)
    ensures Conserves(Account(e, [], 0.0), 0.0) && Telescopes(Account(e, [], 0.0))
  {
  }

  lemma {:induction false} IdleCrashesLeaveNoTrace(a: Account, turns: seq<Turn>)
    requires Conserves(a, 0.0) && CrashesWereIdle(a, turns)
    ensures Turns(a, turns) == Passes(a, Completed(turns))
  {
    if turns != [] {
      var n := |turns| - 1;
      var before := Turns(a, turns[..n]);
      IdleCrashesLeaveNoTrace(a, turns[..n]);
      if turns[n].crashes {
        TurnsConserve(a, turns[..n]);
        OrphansIffNotIdle(before, turns[n].view);
        assert before.fills + [] == before.fills;
        assert Completed(turns) == Completed(turns[..n]);
      } else {
        var views := Completed(turns);
        assert views[..|views| - 1] == Completed(turns[..n]);
      }
    }
  }

  /** Everything `Telescopes` says about quantities, with the orphans added. */
  ghost predicate Conserves(a: Account, orphans: real) {
    && a.entry.planned && a.entry.planPrice.Some?
    && 0.0 <= a.entry.logged <= a.entry.evidence.filled
    && Quantity(a.fills) == a.entry.logged + orphans
  }

  lemma {:induction false} TurnsConserve(a: Account, turns: seq<Turn>)
    requires Conserves(a, 0.0)
    ensures Conserves(Turns(a, turns), OrphanedTotal(a, turns))
  {
    if turns != [] {
      var before := Turns(a, turns[..|turns| - 1]);
      var view := turns[|turns| - 1].view;
      TurnsConserve(a, turns[..|turns| - 1]);
      match Reconciled(before.entry, view) {
        case Refused =>
        case Activated(entry, fills) =>
          SumsAppend(before.fills, fills);
          PassQuantity(before.entry, view);
      }
    }
  }

  lemma PassQuantity(e: Entry, view: Option<View>)
    requires 0.0 <= e.logged <= e.evidence.filled
    requires Reconciled(e, view).Activated?
    ensures var Activated(entry, fills) := Reconciled(e, view);
            && Quantity(fills) == entry.logged - e.logged >= 0.0
            && 0.0 <= entry.logged <= entry.evidence.filled
            && entry.planned == e.planned && entry.planPrice == e.planPrice
  {
  }

  lemma {:induction false} OrphansVanishIffIdle(a: Account, turns: seq<Turn>)
    requires Conserves(a, 0.0)
    ensures OrphanedTotal(a, turns) >= 0.0
    ensures OrphanedTotal(a, turns) == 0.0 <==> CrashesWereIdle(a, turns)
  {
    if turns != [] {
      var n := |turns| - 1;
      OrphansVanishIffIdle(a, turns[..n]);
      TurnsConserve(a, turns[..n]);
      OrphansIffNotIdle(Turns(a, turns[..n]), turns[n].view);
    }
  }

  /** The smallest such run: a fill of ten shares journalled, a crash, and the same fill journalled again. */
  lemma CrashRepeatsAnOpenRow(e: Entry)
    requires Fresh(e) && e.evidence.filled == 0.0 && e.evidence.status == Working("new")
    ensures var view := Some(View(Some(Filled), 10.0, Some(5.0)));
            var end := Turns(Account(e, [], 0.0), [Turn(view, true), Turn(view, false)]);
            end.entry.evidence.filled == 10.0 && Quantity(end.fills) == 20.0
  {
    var view := Some(View(Some(Filled), 10.0, Some(5.0)));
    var start := Account(e, [], 0.0);
    var one := [Turn(view, true)];
    var two := [Turn(view, true), Turn(view, false)];
    assert one[..0] == [] && two[..1] == one;
    var fill := Fill(10.0, Some(5.0));
    assert Reconciled(e, view).fills == [fill];
    assert Turns(start, one).fills == [fill];
    assert Turns(start, two).fills == [fill] + [fill];
    SumsAppend([fill], [fill]);
    assert [fill][..0] == [];
  }
}
