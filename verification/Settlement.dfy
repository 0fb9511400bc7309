/**
 * Settling an active trade: which order rows close it, how much they account for, and whether it stays.
 *
 * The position endpoint may omit a position that is still held, so an exposure leaves the book only on evidence
 * that its whole entry quantity was closed.
 */
module Settlement {
  import opened Basics
  import opened CloseJournal

  /** A close order as the broker lists it. */
  datatype BrokerOrder = BrokerOrder(status: Status, qty: Option<real>, filled: real, average: Option<real>)

  // ---- Which rows close a trade

  predicate Binds(t: Trade, row: CloseRow) {
    && row.symbol == t.symbol
    && (row.isClose || t.closingId == Some(row.id))
    && (row.parent.Some? && t.entryId.Some? ==> row.parent == t.entryId)
    && (row.parent.None? ==> t.closingId == Some(row.id))
  }

  /** The named closing order has no bound row, yet the broker lists it. */
  predicate NeedsFallback(t: Trade, orders: map<nat, CloseRow>, listed: map<nat, BrokerOrder>) {
    && t.closingId.Some?
    && !(t.closingId.value in orders && Binds(t, orders[t.closingId.value]))
    && t.closingId.value in listed
  }

  function Fallback(t: Trade, id: nat, o: BrokerOrder): CloseRow {
    CloseRow(id, t.symbol, t.entryId, true, o.status, o.qty, o.filled, o.average, Some(t.closingAttempt), 0.0, 0.0,
             None)
  }

  function WithFallback(t: Trade, orders: map<nat, CloseRow>, listed: map<nat, BrokerOrder>): map<nat, CloseRow> {
    if NeedsFallback(t, orders, listed)
    then orders[t.closingId.value := Fallback(t, t.closingId.value, listed[t.closingId.value])]
    else orders
  }

  /** Attempt, then time, then order id. */
  predicate Precedes(a: CloseRow, b: CloseRow) {
    var x, y := a.attempt.GetOr(0.0), b.attempt.GetOr(0.0);
    x < y || (x == y && (a.updated < b.updated || (a.updated == b.updated && a.id <= b.id)))
  }

  predicate InOrder(rows: seq<CloseRow>) {
    forall i, j :: 0 <= i < j < |rows| ==> Precedes(rows[i], rows[j])
  }

  /** Rows are compared by attempt first, a missing one counting as none, and any two rows of a book compare one way. */
  lemma AttemptsComeInOrder(a: CloseRow, b: CloseRow, c: CloseRow)
    ensures Precedes(a, b) || Precedes(b, a)
    ensures Precedes(a, b) && Precedes(b, a) ==> a.id == b.id
    ensures Precedes(a, b) && Precedes(b, c) ==> Precedes(a, c)
    ensures a.attempt.GetOr(0.0) < b.attempt.GetOr(0.0) ==> Precedes(a, b) && !Precedes(b, a)
    ensures a.attempt == b.attempt && a.updated < b.updated ==> Precedes(a, b) && !Precedes(b, a)
  {
  }

  predicate Keyed(orders: map<nat, CloseRow>) {
    forall k :: k in orders ==> orders[k].id == k
  }

  predicate Saved(t: Trade, orders: map<nat, CloseRow>, row: CloseRow) {
    row.id in orders && row == orders[row.id] && Binds(t, row)
  }

  function Ids(rows: seq<CloseRow>): set<nat> { set r | r in rows :: r.id }

  /** `rows` are exactly the bound rows, each once, in attempt order. */
  ghost predicate Enumerates(rows: seq<CloseRow>, t: Trade, orders: map<nat, CloseRow>) {
    && InOrder(rows)
    && Distinct(rows)
    && (forall r :: r in rows ==> Saved(t, orders, r))
    && (forall k :: k in orders && Binds(t, orders[k]) ==> orders[k] in rows)
  }

  /** So the entries of a trade come in one order, whatever the order of the book. */
  lemma EntriesAreDetermined(t: Trade, orders: map<nat, CloseRow>, a: seq<CloseRow>, b: seq<CloseRow>)
    requires Keyed(orders) && Enumerates(a, t, orders) && Enumerates(b, t, orders)
    ensures a == b
  {
    hide InOrder, Binds;
    OneEnumeration(a, b);
  }

  lemma {:induction false} OneEnumeration(a: seq<CloseRow>, b: seq<CloseRow>)
    requires InOrder(a) && Distinct(a) && InOrder(b) && Distinct(b)
    requires forall r :: r in a <==> r in b
    ensures a == b
  {
    hide Precedes;
    assert b != [] ==> b[0] in a;
    assert a != [] ==> a[0] in b;
    if a != [] {
      var x, y := a[|a| - 1], b[|b| - 1];
      LastIsLast(a, y);
      LastIsLast(b, x);
      AttemptsComeInOrder(x, y, x);
      WithoutLast(a);
      WithoutLast(b);
      OneEnumeration(a[..|a| - 1], b[..|b| - 1]);
      assert a == a[..|a| - 1] + [x] && b == b[..|b| - 1] + [y];
    }
  }

  lemma LastIsLast(rows: seq<CloseRow>, row: CloseRow)
    requires InOrder(rows) && row in rows
    ensures Precedes(row, rows[|rows| - 1])
  {
    AttemptsComeInOrder(row, row, row);
  }

  lemma WithoutLast(rows: seq<CloseRow>)
    requires InOrder(rows) && Distinct(rows) && rows != []
    ensures var before := rows[..|rows| - 1];
            && InOrder(before) && Distinct(before)
            && (forall r :: r in before <==> r in rows && r.id != rows[|rows| - 1].id)
  {
    hide Precedes;
    assert rows == rows[..|rows| - 1] + [rows[|rows| - 1]];
  }

  /** A fallback row closes this trade with what the broker reports, nothing of it booked, ahead of timed attempts. */
  lemma FallbackIsUnbooked(t: Trade, id: nat, o: BrokerOrder, initial: real, other: CloseRow)
    requires t.closingId == Some(id) && initial >= 0.0
    ensures var row := Fallback(t, id, o);
            && Binds(t, row) && row.id == id
            && row.status == o.status && row.qty == o.qty && row.filled == o.filled && row.average == o.average
            && AlreadyBooked(row, initial) <= 0.0
            && BookingKey(t, row, initial) == First(t.entryId, id)
            && (Eligible(row, initial, true) <==> o.status.IsTerminal() && Raw(row, initial) > 0.0)
            && (other.attempt == row.attempt && other.updated > 0.0 ==> Precedes(row, other))
  {
  }

  class Orders {
    var rows: map<nat, CloseRow>

    constructor (initial: map<nat, CloseRow>)
      ensures rows == initial
    {
      rows := initial;
    }

    /** A trade's close attempts in attempt order; broker-only evidence is written to the book first. */
    method CloseEntries(t: Trade, listed: map<nat, BrokerOrder>) returns (entries: seq<CloseRow>)
      requires Keyed(rows)
      modifies this
      ensures rows == WithFallback(t, old(rows), listed) && Keyed(rows)
      ensures Enumerates(entries, t, rows)
    {
      entries := Gather(t);
      if t.closingId.Some? && t.closingId.value !in Ids(entries) && t.closingId.value in listed {
        var id := t.closingId.value;
        var fallback := Fallback(t, id, listed[id]);
        assert NeedsFallback(t, rows, listed);
        rows := rows[id := fallback];
        entries := Place(entries, fallback);
      }
    }

    method Gather(t: Trade) returns (entries: seq<CloseRow>)
      requires Keyed(rows)
      ensures Enumerates(entries, t, rows)
    {
      entries := [];
      var todo := rows.Keys;
      while todo != {}
        invariant todo <= rows.Keys
        invariant InOrder(entries) && Distinct(entries)
        invariant forall r :: r in entries ==> Saved(t, rows, r) && r.id !in todo
        invariant forall k :: k in rows.Keys - todo && Binds(t, rows[k]) ==> rows[k] in entries
        decreases todo
      {
        var k :| k in todo;
        todo := todo - {k};
        var saved := rows[k];
        if saved.symbol != t.symbol || (!saved.isClose && t.closingId != Some(k)) {
          continue;
        }
        if saved.parent.Some? && t.entryId.Some? && saved.parent != t.entryId {
          continue;
        }
        if saved.parent.None? && t.closingId != Some(k) {
          continue;
        }
        entries := Place(entries, saved);
      }
    }
  }

  /** Puts one more row in its place. */
  method Place(rows: seq<CloseRow>, row: CloseRow) returns (placed: seq<CloseRow>)
    requires InOrder(rows) && Distinct(rows) && row.id !in Ids(rows)
    ensures InOrder(placed) && Distinct(placed)
    ensures forall r :: r in placed <==> r in rows || r == row
  {
    hide Inserted;
    var k := |rows|;
    while k > 0 && Precedes(row, rows[k - 1])
      invariant 0 <= k <= |rows|
      invariant forall i :: k <= i < |rows| ==> Precedes(row, rows[i])
    {
      k := k - 1;
    }
    placed := Inserted(rows, row, k);
    InPlace(rows, row, k);
    NewMember(rows, row, k);
  }

  lemma InPlace(rows: seq<CloseRow>, row: CloseRow, k: nat)
    requires InOrder(rows) && k <= |rows|
    requires forall i :: k <= i < |rows| ==> Precedes(row, rows[i])
    requires k > 0 ==> !Precedes(row, rows[k - 1])
    ensures InOrder(Inserted(rows, row, k))
  {
  }

  lemma NewMember(rows: seq<CloseRow>, row: CloseRow, k: nat)
    requires Distinct(rows) && k <= |rows| && row.id !in Ids(rows)
    ensures var placed := Inserted(rows, row, k);
            Distinct(placed) && (forall r :: r in placed <==> r in rows || r == row)
  {
  }

  // ---- How much they account for

  /** Totals over the bound rows, terminal or not. */
  datatype Totals = Totals(qty: real, weighted: real, weightedQty: real, gross: real, known: bool)

  function Add(t: Trade, sum: Totals, row: CloseRow): Totals {
    var take := Min(Raw(row, Initial(t)), Max(0.0, Initial(t) - sum.qty));
    if take <= 0.0 then sum
    else if row.average.None? then sum.(qty := sum.qty + take, known := false)
    else
      Totals(sum.qty + take, sum.weighted + Costing(row.average.value, take), sum.weightedQty + take,
             sum.gross + Gross(t, row.average, take).GetOr(0.0), sum.known)
  }

  function Costing(price: real, qty: real): real { qty * price }

  function Accounted(t: Trade, rows: seq<CloseRow>): Totals {
    if rows == [] then Totals(0.0, 0.0, 0.0, 0.0, true)
    else Add(t, Accounted(t, rows[..|rows| - 1]), rows[|rows| - 1])
  }

  method AddRow(t: Trade, saved: CloseRow, sum: Totals) returns (total: Totals)
    ensures total == Add(t, sum, saved)
  {
    total := sum;
    var initial := if t.filled >= t.qty then t.filled else t.qty;
    var raw := saved.filled;
    var requested := initial;
    if saved.qty.Some? && saved.qty.value != 0.0 {
      requested := saved.qty.value;
    }
    if raw <= 0.0 && saved.status == Filled {
      raw := requested;
    }
    raw := Min(Min(initial, Max(0.0, raw)), requested);
    assert raw == Raw(saved, Initial(t));
    var take := Min(raw, Max(0.0, initial - sum.qty));
    if raw <= 0.0 || take <= 0.0 {
      return;
    }
    if saved.average.Some? {
      total := total.(weighted := sum.weighted + Costing(saved.average.value, take),
                      weightedQty := sum.weightedQty + take,
                      gross := sum.gross + Gross(t, saved.average, take).GetOr(0.0));
    } else {
      total := total.(known := false);
    }
    total := total.(qty := sum.qty + take);
  }

  method AddUp(t: Trade, rows: seq<CloseRow>) returns (sum: Totals)
    ensures sum == Accounted(t, rows)
  {
    hide Add;
    sum := Totals(0.0, 0.0, 0.0, 0.0, true);
    var k := 0;
    while k < |rows|
      invariant 0 <= k <= |rows|
      invariant sum == Accounted(t, rows[..k])
    {
      assert rows[..k + 1][..k] == rows[..k];
      sum := AddRow(t, rows[k], sum);
      k := k + 1;
    }
    assert rows[..k] == rows;
  }

  /** What the bound rows report together. */
  function Reported(t: Trade, rows: seq<CloseRow>): (r: real)
    ensures r >= 0.0
  {
    if rows == [] then 0.0
    else Reported(t, rows[..|rows| - 1]) + Max(0.0, Raw(rows[|rows| - 1], Initial(t)))
  }

  /** The accounted quantity is everything reported, capped at the entry, whatever the order of the rows. */
  lemma {:induction false} AccountedIsCapped(t: Trade, rows: seq<CloseRow>)
    requires Initial(t) >= 0.0
    ensures Accounted(t, rows).qty == Min(Initial(t), Reported(t, rows))
  {
    if rows != [] {
      AccountedIsCapped(t, rows[..|rows| - 1]);
    }
  }

  /** The settled result is what the priced quantity earned. */
  lemma {:induction false} SettledIsGained(t: Trade, rows: seq<CloseRow>)
    requires t.entryPrice.Some?
    ensures var sum := Accounted(t, rows);
            sum.gross == Gained(t, sum.weighted, sum.weightedQty) && (sum.known ==> sum.weightedQty == sum.qty)
  {
    hide Gained, Gross, Raw;
    if rows == [] {
      NothingGained(t);
    } else {
      var before := Accounted(t, rows[..|rows| - 1]);
      var row := rows[|rows| - 1];
      SettledIsGained(t, rows[..|rows| - 1]);
      if row.average.Some? {
        var take := Min(Raw(row, Initial(t)), Max(0.0, Initial(t) - before.qty));
        GrossIsGained(t, row.average.value, take);
        GainsAdd(t, before.weighted, before.weightedQty, Times(row.average.value, take), take);
        assert Costing(row.average.value, take) == Times(row.average.value, take);
      }
    }
  }

  lemma NothingGained(t: Trade)
    requires t.entryPrice.Some?
    ensures Gained(t, 0.0, 0.0) == 0.0
  {
  }

  lemma GainsAdd(t: Trade, v: real, q: real, w: real, p: real)
    requires t.entryPrice.Some?
    ensures Gained(t, v, q) + Gained(t, w, p) == Gained(t, v + w, q + p)
  {
    var e := t.entryPrice.value;
    assert Times(e, q) + Times(e, p) == Times(e, q + p);
    var x := if t.short then Times(e, q) - v else v - Times(e, q);
    var y := if t.short then Times(e, p) - w else w - Times(e, p);
    assert Times(t.multiplier, x) + Times(t.multiplier, y) == Times(t.multiplier, x + y);
  }

  // ---- Whether the trade stays

  /** The trade's entry order row. */
  datatype EntryRow = EntryRow(status: Status, filled: real)

  datatype Verdict =
    | Stays                       // the exposure stays as the snapshot rebuilt it
    | Kept                        // the saved exposure is put back
    | Residual(qty: real)         // a partial close: what is left stays, unconfirmed
    | Covered                     // the bound rows cover the entry
    | ClosedLocally(qty: real)    // no bound rows, an explicit local close price and reason
    | ClosedOnStray(qty: real)    // no bound rows, but the named row is some other exposure's fill

  predicate CutShort(status: Status) {
    status == Canceled || status == Cancelled || status == Expired || status == Rejected
  }

  /** The canceled remainder of a partly filled entry is not a close of the filled part. */
  predicate OwnsFill(t: Trade, entry: Option<EntryRow>) {
    entry.Some? && CutShort(entry.value.status) && entry.value.filled > 0.0 && t.closingId.None?
  }

  predicate Unconfirmed(t: Trade) { t.confirmed == Some(false) }

  /** One snapshot, as far as one trade is concerned. */
  datatype Snapshot = Snapshot(visible: bool, entry: Option<EntryRow>, entries: seq<CloseRow>, stray: Option<real>)
  {
    /** The trade is in the rebuilt book: a position shows it, or it was never confirmed. */
    predicate Lists(t: Trade) { visible || Unconfirmed(t) }
  }

  function VerdictOf(t: Trade, s: Snapshot): Verdict {
    if s.Lists(t) && !(Unconfirmed(t) && s.entries != []) then Stays
    else if OwnsFill(t, s.entry) then Kept
    else if s.entries != [] then
      var total := Accounted(t, s.entries).qty;
      if total <= 0.0 then Kept
      else if Initial(t) > total + EPSILON then Residual(Initial(t) - total)
      else Covered
    else
      var evidence := if s.stray.Some? then Max(0.0, s.stray.value)
                      else if t.closingPrice.Some? && t.closingReason then t.qty
                      else 0.0;
      var qty := Min(t.qty, evidence);
      if qty <= 0.0 then Kept else if s.stray.Some? then ClosedOnStray(qty) else ClosedLocally(qty)
  }

  method Settle(t: Trade, s: Snapshot) returns (verdict: Verdict)
    ensures verdict == VerdictOf(t, s)
  {
    if s.Lists(t) && !(t.confirmed == Some(false) && |s.entries| > 0) {
      return Stays;
    }
    if s.entry.Some? && CutShort(s.entry.value.status) && s.entry.value.filled > 0.0 && t.closingId.None? {
      return Kept;
    }
    if |s.entries| > 0 {
      var sum := AddUp(t, s.entries);
      var initial := if t.filled >= t.qty then t.filled else t.qty;
      if sum.qty <= 0.0 {
        return Kept;
      }
      if initial > sum.qty + EPSILON {
        return Residual(initial - sum.qty);
      }
      return Covered;
    }
    var filled := 0.0;
    if s.stray.Some? {
      filled := s.stray.value;
    } else if t.closingPrice.Some? && t.closingReason {
      filled := t.qty;
    }
    filled := Min(t.qty, Max(0.0, filled));
    if filled <= 0.0 {
      return Kept;
    }
    return if s.stray.Some? then ClosedOnStray(filled) else ClosedLocally(filled);
  }

  // ---- No exposure is lost

  /** The entry order ended early with a fill, and no closing order is named. */
  predicate IsCutShort(t: Trade, s: Snapshot) {
    && s.entry.Some? && s.entry.value.filled > 0.0
    && s.entry.value.status in {Canceled, Cancelled, Expired, Rejected}
    && t.closingId.None?
  }

  /** The snapshot gives the settling loop something to decide. */
  predicate Considered(t: Trade, s: Snapshot) { !s.Lists(t) || (Unconfirmed(t) && s.entries != []) }

  /**
   * When an exposure leaves the book: exactly when bound rows report its whole entry, or when nothing is bound
   * and an explicit local close says so. In every other case it stays, and what a partial close leaves is the
   * entry less everything reported.
   */
  lemma LeavesIffAccountedFor(t: Trade, s: Snapshot)
    requires Initial(t) > EPSILON && s.stray.None?
    ensures VerdictOf(t, s).Covered? <==>
            (&& Considered(t, s)
             && !IsCutShort(t, s)
             && s.entries != []
             && Reported(t, s.entries) >= Initial(t) - EPSILON)
    ensures VerdictOf(t, s).ClosedLocally? <==>
            (&& Considered(t, s)
             && !IsCutShort(t, s)
             && s.entries == []
             && t.closingPrice.Some?
             && t.closingReason
             && t.qty > 0.0)
    ensures VerdictOf(t, s).Residual? ==>
              VerdictOf(t, s).qty + Min(Initial(t), Reported(t, s.entries)) == Initial(t)
    ensures VerdictOf(t, s).ClosedLocally? ==> VerdictOf(t, s).qty == t.qty
    ensures !VerdictOf(t, s).ClosedOnStray?
  {
    AccountedIsCapped(t, s.entries);
  }

  /**
   * A closing order named by the trade and bound to another exposure closes the whole trade on any fill, and
   * answers for what it filled of it.
   */
  lemma StrayRowClosesWholeTrade(t: Trade, s: Snapshot)
    requires s.stray.Some? && s.entries == []
    ensures VerdictOf(t, s).ClosedOnStray? <==>
            Considered(t, s) && !IsCutShort(t, s) && t.qty > 0.0 && s.stray.value > 0.0
    ensures VerdictOf(t, s).ClosedOnStray? ==>
              0.0 < VerdictOf(t, s).qty <= t.qty
              && VerdictOf(t, s).qty == (if s.stray.value < t.qty then s.stray.value else t.qty)
    ensures !VerdictOf(t, s).ClosedLocally? && !VerdictOf(t, s).Covered? && !VerdictOf(t, s).Residual?
  {
  }

  // ---- Runs

  /** The entry order's row once a snapshot is merged into it; `repriced` when that moved its average. */
  datatype EntryReport = EntryReport(status: Status, filled: real, repriced: bool)

  /**
   * One reconciliation of a trade: the closing fields as recorded by then, the position endpoint's answer, the
   * entry order's row, if the book has one, and the trade's close rows. One that raises writes nothing and is
   * not a turn.
   */
  datatype Turn = Turn(closingId: Option<nat>, closingAttempt: real, closingReason: bool, closingPrice: Option<real>,
                       visible: bool, position: real, report: Option<EntryReport>,
                       entries: seq<CloseRow>, stray: Option<real>)

  function Recorded(t: Trade, turn: Turn): Trade {
    t.(closingId := turn.closingId, closingAttempt := turn.closingAttempt,
       closingReason := turn.closingReason, closingPrice := turn.closingPrice)
  }

  /** An exposure and the largest entry fill that was reported and journalled for it. */
  datatype Exposure = Active(trade: Trade, known: real) | Gone(trade: Trade, known: real, snapshot: Snapshot)

  function NowKnown(known: real, turn: Turn): real {
    if turn.report.Some? then Max(known, turn.report.value.filled) else known
  }

  predicate Grows(known: real, turn: Turn) { NowKnown(known, turn) > known }

  /** The entry row's fill is activated: it grew, or its average moved. */
  predicate Activates(known: real, turn: Turn) {
    turn.report.Some? && NowKnown(known, turn) > 0.0 && (Grows(known, turn) || turn.report.value.repriced)
  }

  function SnapshotOf(known: real, turn: Turn): Snapshot {
    var entry := if turn.report.Some? then Some(EntryRow(turn.report.value.status, NowKnown(known, turn))) else None;
    Snapshot(turn.visible, entry, turn.entries, turn.stray)
  }

  /**
   * The trade as this snapshot's activation leaves it. The settling loop decides on the copy saved before the
   * activation; which of the two is written back depends on the branch.
   */
  function FreshCopy(t: Trade, known: real, turn: Turn): Trade {
    if Activates(known, turn) then t.(filled := NowKnown(known, turn), qty := NowKnown(known, turn)) else t
  }

  /** The trade that an activation opens where none is left: the whole fill, unconfirmed until a position shows it. */
  function Regained(t: Trade, known: real, turn: Turn): Trade {
    var now := NowKnown(known, turn);
    t.(closingId := None, closingReason := false, closingPrice := None,
       filled := now, qty := if turn.visible then turn.position else now, confirmed := Some(turn.visible))
  }

  /** A removed exposure keeps its entry row, whose fill may still be activated. */
  function Reconcile(e: Exposure, turn: Turn): Exposure {
    match e
    case Gone(t, known, _) =>
      if Activates(known, turn) then Active(Regained(t, known, turn), NowKnown(known, turn)) else e
    case Active(saved, known) =>
      var t, s, now := Recorded(saved, turn), SnapshotOf(known, turn), NowKnown(known, turn);
      var updated := FreshCopy(t, known, turn);
      match VerdictOf(t, s)
      case Stays =>
        Active(if turn.visible then updated.(qty := turn.position, confirmed := Some(true)) else updated, now)
      case Kept => Active(if OwnsFill(t, s.entry) then updated else t, now)
      case Residual(qty) => Active(t.(qty := qty, confirmed := Some(false)), now)
      case _ => Gone(t, now, s)
  }

  function History(t: Trade, turns: seq<Turn>): Exposure {
    if turns == [] then Active(t, t.filled) else Reconcile(History(t, turns[..|turns| - 1]), turns[|turns| - 1])
  }

  /** The recorded entry fill is the largest one reported. */
  predicate Current(e: Exposure) { e.trade.filled == e.known }

  /** The snapshot leads to a copy saved before this snapshot's fill, or to removal on one. */
  predicate WritesSaved(e: Exposure, turn: Turn)
    requires e.Active?
  {
    var t, s := Recorded(e.trade, turn), SnapshotOf(e.known, turn);
    Considered(t, s) && !OwnsFill(t, s.entry)
  }

  /**
   * One reconciliation leaves the recorded entry fill at the largest one reported exactly when the saved copy is
   * written without growth, or the fresh one is written and the record was current or the fill was activated.
   */
  lemma TurnIsCurrentIff(e: Exposure, turn: Turn)
    requires e.Active? && e.trade.filled <= e.known && e.known >= 0.0
    ensures Current(Reconcile(e, turn)) <==>
            if WritesSaved(e, turn) then Current(e) && !Grows(e.known, turn)
            else Current(e) || Activates(e.known, turn)
  {
    hide Accounted;
  }

  /** The quantity that the settling code answers for, fill or position, reaches the largest fill reported. */
  predicate Covers(e: Exposure) { Initial(e.trade) == e.known }

  /** A position shown is written over the quantity. */
  predicate WritesPosition(e: Exposure, turn: Turn)
    requires e.Active?
  {
    turn.visible && VerdictOf(Recorded(e.trade, turn), SnapshotOf(e.known, turn)).Stays?
  }

  predicate LeavesResidual(e: Exposure, turn: Turn)
    requires e.Active?
  {
    VerdictOf(Recorded(e.trade, turn), SnapshotOf(e.known, turn)).Residual?
  }

  /**
   * The same for the quantity answered for: a position of that size makes up for a fill that is not recorded,
   * until a partial close.
   */
  lemma TurnCoversIff(e: Exposure, turn: Turn)
    requires e.Active? && 0.0 <= e.trade.filled && EPSILON < Initial(e.trade) <= e.known
    requires turn.position <= NowKnown(e.known, turn) && turn.stray.None?
    ensures Covers(Reconcile(e, turn)) <==>
            if WritesSaved(e, turn)
            then !Grows(e.known, turn) && if LeavesResidual(e, turn) then Current(e) else Covers(e)
            else Activates(e.known, turn) ||
                 if WritesPosition(e, turn) then Current(e) || turn.position == e.known else Covers(e)
  {
    hide Accounted, Reported;
    AccountedIsCapped(Recorded(e.trade, turn), turn.entries);
  }

  /** A growing fill was reported in a snapshot that wrote, or removed the trade on, the copy saved before it. */
  predicate Missed(t: Trade, turns: seq<Turn>, i: nat)
    requires i < |turns|
  {
    var e := History(t, turns[..i]);
    e.Active? && Grows(e.known, turns[i]) && WritesSaved(e, turns[i])
  }

  /** A later snapshot activated the fill again and wrote the fresh copy, or the trade came back with it. */
  predicate Restored(t: Trade, turns: seq<Turn>, i: nat)
    requires i < |turns|
  {
    var e := History(t, turns[..i]);
    Activates(e.known, turns[i]) && (e.Active? ==> !WritesSaved(e, turns[i]))
  }

  ghost predicate RestoredAfter(t: Trade, turns: seq<Turn>, i: nat) {
    exists j :: i < j < |turns| && Restored(t, turns, j)
  }

  ghost predicate EveryMissRestored(t: Trade, turns: seq<Turn>) {
    forall i :: 0 <= i < |turns| && Missed(t, turns, i) ==> RestoredAfter(t, turns, i)
  }

  /** The largest fill reported over a run. */
  function FillSeen(known: real, turns: seq<Turn>): real {
    if turns == [] then known else NowKnown(FillSeen(known, turns[..|turns| - 1]), turns[|turns| - 1])
  }

  /** Positions never exceed what was bought, and the named closing order is bound to this trade. */
  predicate Sane(t: Trade, turns: seq<Turn>) {
    forall i :: 0 <= i < |turns| ==>
      turns[i].position <= FillSeen(t.filled, turns[..i + 1]) && turns[i].stray.None?
  }

  /** A trade that left did so on bound rows covering its entry, or on an explicit local close. */
  predicate AccountedFor(t: Trade, s: Snapshot) {
    if s.entries != [] then Reported(t, s.entries) >= Initial(t) - EPSILON
    else t.closingPrice.Some? && t.closingReason
  }

  /** What every turn keeps: nothing is answered for twice, and a trade leaves only accounted for. */
  predicate Sound(t: Trade, e: Exposure) {
    && t.filled <= e.trade.filled
    && e.trade.entryId == t.entryId
    && Initial(e.trade) <= e.known
    && (e.Gone? ==> AccountedFor(e.trade, e.snapshot))
  }

  lemma TurnIsSound(t: Trade, e: Exposure, turn: Turn)
    requires t.filled > EPSILON && Sound(t, e)
    requires turn.position <= NowKnown(e.known, turn) && turn.stray.None?
    ensures Sound(t, Reconcile(e, turn))
    ensures Reconcile(e, turn).known == NowKnown(e.known, turn)
  {
    hide Accounted, Reported;
    if e.Gone? {
      return;
    }
    var s := SnapshotOf(e.known, turn);
    LeavesIffAccountedFor(Recorded(e.trade, turn), s);
    AccountedIsCapped(Recorded(e.trade, turn), s.entries);
    ReportedIsNotNegative(Recorded(e.trade, turn), s.entries);
  }

  lemma ReportedIsNotNegative(t: Trade, rows: seq<CloseRow>)
    ensures Reported(t, rows) >= 0.0
  {
  }

  /**
   * Over any run of snapshots, ones that omit the position and ones that report more of the entry included: the
   * exposure leaves only accounted for, and never answers for more than was bought. Its recorded entry fill is the
   * largest one reported exactly when every growth that was reported while the saved copy was written - the
   * position missing, or unconfirmed with close rows, and the entry not cut short - was activated again later
   * and written fresh; then it answers for the whole of it.
   */
  lemma {:induction false} NoExposureIsLost(t: Trade, turns: seq<Turn>)
    requires t.qty <= t.filled && t.filled > EPSILON && Sane(t, turns)
    ensures var e := History(t, turns);
            && Sound(t, e)
            && e.known == FillSeen(t.filled, turns)
            && (Current(e) <==> EveryMissRestored(t, turns))
            && (Current(e) ==> Covers(e))
  {
    hide Reconcile, VerdictOf, NowKnown, WritesSaved, Grows, Activates;
    if turns != [] {
      var n := |turns| - 1;
      var e := History(t, turns[..n]);
      SaneSoFar(t, turns);
      NoExposureIsLost(t, turns[..n]);
      MissesSoFar(t, turns);
      assert turns[..n + 1] == turns;
      TurnIsSound(t, e, turns[n]);
      if e.Active? {
        TurnIsCurrentIff(e, turns[n]);
      } else {
        RemovedComesBackIff(e, turns[n]);
      }
    }
  }

  /** With any fill known, one is reported that is larger than all before, or newly priced. */
  predicate ReportsAnew(known: real, turn: Turn) {
    && turn.report.Some?
    && (turn.report.value.filled > 0.0 || known > 0.0)
    && (turn.report.value.filled > known || turn.report.value.repriced)
  }

  /** That is what activates the entry's fill. */
  lemma ActivatesIff(known: real, turn: Turn)
    ensures Activates(known, turn) <==> ReportsAnew(known, turn)
  {
  }

  /** A removed exposure comes back exactly when its entry row is activated again, and then with the whole fill. */
  lemma RemovedComesBackIff(e: Exposure, turn: Turn)
    requires e.Gone? && e.known >= 0.0
    ensures var after := Reconcile(e, turn);
            && (after.Active? <==> Activates(e.known, turn))
            && (after.Active? ==>
                  && Current(after) && after.known == NowKnown(e.known, turn)
                  && after.trade.confirmed == Some(turn.visible)
                  && after.trade.qty == if turn.visible then turn.position else after.known)
            && (after.Gone? ==> after == e && NowKnown(e.known, turn) == e.known)
  {
  }

  /**
   * What becomes of it: the close rows that removed it still count, so it leaves again or keeps what the growth
   * added. Without any, as after a local close, it stays for good.
   */
  lemma RegainedIsSettledAgain(e: Exposure, grown: Turn, later: Turn)
    requires e.Gone? && e.known > EPSILON && Activates(e.known, grown) && !grown.visible
    requires !later.visible && !Activates(NowKnown(e.known, grown), later) && later.stray.None?
    requires later.report.Some? ==> !CutShort(later.report.value.status)
    ensures var back, end := Reconcile(e, grown), Reconcile(Reconcile(e, grown), later);
            var closed := Reported(Recorded(back.trade, later), later.entries);
            && back.Active? && back.trade.qty == back.trade.filled == back.known
            && (later.entries == [] ==> end == Active(Recorded(back.trade, later), back.known))
            && (later.entries != [] ==>
                  (end.Gone? <==> closed >= back.known - EPSILON)
                  && (end.Active? ==> end.trade.qty == back.known - closed))
  {
    hide Accounted, Reported;
    var back := Reconcile(e, grown);
    LeavesIffAccountedFor(Recorded(back.trade, later), SnapshotOf(back.known, later));
    AccountedIsCapped(Recorded(back.trade, later), later.entries);
    ReportedIsNotNegative(Recorded(back.trade, later), later.entries);
  }

  /** The smallest case: ten shares closed locally come back when their average entry price is corrected. */
  lemma LocalCloseComesBack(t: Trade, closed: Turn, corrected: Turn, quiet: Turn)
    requires TenHeld(t)
    requires !closed.visible && closed.report.None? && closed.entries == [] && closed.stray.None?
    requires closed.closingPrice.Some? && closed.closingReason
    requires !corrected.visible && corrected.report == Some(EntryReport(Filled, 10.0, true))
    requires !quiet.visible && quiet.report == Some(EntryReport(Filled, 10.0, false)) && quiet.entries == []
    ensures History(t, [closed]).Gone?
    ensures var e := History(t, [closed, corrected]); e.Active? && Initial(e.trade) == 10.0 && Unconfirmed(e.trade)
    ensures var e := History(t, [closed, corrected, quiet]); e.Active? && Initial(e.trade) == 10.0
  {
    assert [closed][..0] == [] && [closed, corrected][..1] == [closed];
    assert [closed, corrected, quiet][..2] == [closed, corrected];
    assert History(t, [closed][..0]) == Active(t, 10.0);
    assert History(t, [closed]).Gone?;
  }

  lemma SaneSoFar(t: Trade, turns: seq<Turn>)
    requires Sane(t, turns) && turns != []
    ensures Sane(t, turns[..|turns| - 1])
    ensures var n := |turns| - 1;
            turns[n].position <= NowKnown(FillSeen(t.filled, turns[..n]), turns[n]) && turns[n].stray.None?
  {
    var n := |turns| - 1;
    forall i | 0 <= i < n
      ensures turns[..n][i].position <= FillSeen(t.filled, turns[..n][..i + 1]) && turns[..n][i].stray.None?
    {
      assert turns[..n][..i + 1] == turns[..i + 1];
    }
    assert turns[..n + 1] == turns;
  }

  /** The last turn adds its own miss, or restores all earlier ones, or neither. */
  lemma MissesSoFar(t: Trade, turns: seq<Turn>)
    requires turns != []
    ensures var n := |turns| - 1;
            EveryMissRestored(t, turns) <==>
            (!Missed(t, turns, n) && (EveryMissRestored(t, turns[..n]) || Restored(t, turns, n)))
  {
    hide History, WritesSaved, Grows, Activates;
    var n := |turns| - 1;
    forall i | 0 <= i < n
      ensures Missed(t, turns[..n], i) == Missed(t, turns, i) && Restored(t, turns[..n], i) == Restored(t, turns, i)
    {
      assert turns[..n][..i] == turns[..i];
    }
    forall i | 0 <= i < n
      ensures RestoredAfter(t, turns, i) <==> RestoredAfter(t, turns[..n], i) || Restored(t, turns, n)
    {
      if j :| i < j < |turns| && Restored(t, turns, j) {
        assert j < n ==> Restored(t, turns[..n], j);
      }
      if j :| i < j < n && Restored(t, turns[..n], j) {
        assert Restored(t, turns, j);
      }
    }
    assert !RestoredAfter(t, turns, n);
  }

  /** Ten shares confirmed and held. */
  predicate TenHeld(t: Trade) { t.filled == 10.0 && t.qty == 10.0 && t.confirmed == Some(true) }

  /**
   * The smallest miss: the entry grows to fifteen in a snapshot without the position, and the book keeps ten;
   * once ten are closed, the trade is removed with five shares unaccounted for.
   */
  lemma LateFillIsMissed(t: Trade, late: Turn, closed: Turn, row: CloseRow)
    requires TenHeld(t)
    requires !late.visible && late.report == Some(EntryReport(Filled, 15.0, false))
    requires late.entries == [] && late.stray.None? && late.closingPrice.None?
    requires row.filled == 10.0 && row.qty == Some(10.0)
    requires !closed.visible && closed.report == Some(EntryReport(Filled, 15.0, false)) && closed.entries == [row]
    ensures Missed(t, [late], 0)
    ensures History(t, [late]) == Active(Recorded(t, late), 15.0) && !Current(History(t, [late]))
    ensures var e := History(t, [late, closed]);
            e.Gone? && e.known == 15.0 && Accounted(e.trade, [row]).qty == 10.0
  {
    hide Accounted;
    assert [late][..0] == [] && [late, closed][..1] == [late];
    assert History(t, [late][..0]) == Active(t, 10.0);
    var kept := Recorded(t, late);
    assert History(t, [late]) == Active(kept, 15.0);
    OneRow(Recorded(kept, closed), row, 10.0);
  }

  /** What one partial close leaves still answers for the same entry exactly when the entry's fill was recorded. */
  lemma ResidualKeepsEntryIffFillKnown(t: Trade, known: real, turn: Turn)
    requires Initial(t) > EPSILON && VerdictOf(Recorded(t, turn), SnapshotOf(known, turn)).Residual?
    ensures Initial(Reconcile(Active(t, known), turn).trade) == Initial(t) <==> t.filled >= t.qty
  {
    AccountedIsCapped(Recorded(t, turn), turn.entries);
  }

  /** Without it, four of ten shares closed once are counted again and again until the trade is dropped. */
  lemma UnknownFillIsLost(t: Trade, row: CloseRow, turn: Turn)
    requires t.qty == 10.0 && t.filled == 0.0 && t.confirmed == Some(false)
    requires row.filled == 4.0 && row.qty == Some(4.0)
    requires turn.closingId.Some? && !turn.visible && turn.report.None? && turn.entries == [row] && turn.stray.None?
    ensures History(t, [turn]) == Active(Recorded(t, turn).(qty := 6.0), 0.0)
    ensures History(t, [turn, turn]) == Active(Recorded(t, turn).(qty := 2.0), 0.0)
    ensures History(t, [turn, turn, turn]).Gone?
  {
    hide Accounted;
    var now := Recorded(t, turn);
    assert [turn][..0] == [] && [turn, turn][..1] == [turn] && [turn, turn, turn][..2] == [turn, turn];
    OneRow(now, row, 4.0);
    OneRow(now.(qty := 6.0), row, 4.0);
    OneRow(now.(qty := 2.0), row, 4.0);
    assert History(t, []) == Active(t, 0.0);
    assert History(t, [turn]) == Active(now.(qty := 6.0), 0.0);
    assert Recorded(now.(qty := 6.0), turn) == now.(qty := 6.0);
    assert Recorded(now.(qty := 2.0), turn) == now.(qty := 2.0);
  }

  lemma OneRow(t: Trade, row: CloseRow, qty: real)
    requires Initial(t) > 0.0 && qty > 0.0 && row.filled == qty && row.qty == Some(qty)
    ensures Accounted(t, [row]).qty == Min(Initial(t), qty)
  {
    hide Gross;
    assert [row][..0] == [];
  }

  // ---- Agreement with the journal

  function SumQty(journal: seq<Booking>, entry: Option<nat>, rows: seq<CloseRow>): real {
    if rows == [] then 0.0
    else SumQty(journal, entry, rows[..|rows| - 1]) + BookedQty(journal, entry, rows[|rows| - 1].id)
  }

  function SumMoney(journal: seq<Booking>, entry: Option<nat>, rows: seq<CloseRow>): Money {
    if rows == [] then NOTHING
    else SumMoney(journal, entry, rows[..|rows| - 1]).Plus(BookedMoney(journal, entry, rows[|rows| - 1].id))
  }

  predicate AllTerminal(rows: seq<CloseRow>) { forall i :: 0 <= i < |rows| ==> rows[i].status.IsTerminal() }

  /** Each order's fill is booked at its current average. */
  ghost predicate UpToDate(t: Trade, journal: seq<Booking>, rows: seq<CloseRow>)
    requires Measurable(t)
  {
    forall i :: 0 <= i < |rows| ==>
      (&& BookedQty(journal, t.entryId, rows[i].id) == Max(0.0, Raw(rows[i], Initial(t)))
       && (Raw(rows[i], Initial(t)) > 0.0 ==> rows[i].average.Some?)
       && BookedMoney(journal, t.entryId, rows[i].id) ==
          Closing(t, Max(0.0, Raw(rows[i], Initial(t))), rows[i].average.GetOr(0.0)))
  }

  /**
   * Once every order's fill is booked, the journal and the settlement agree: on quantity, on price-weighted
   * quantity, on gross result, and the pro-rated fees are the share of the trade's fee that the quantity is of
   * the entry - the whole fee when the entry is covered.
   */
  lemma {:induction false} JournalMatchesSettlement(t: Trade, rows: seq<CloseRow>, journal: seq<Booking>)
    requires Measurable(t) && UpToDate(t, journal, rows) && Reported(t, rows) <= Initial(t)
    ensures var sum := Accounted(t, rows);
            && sum.known
            && sum.qty == SumQty(journal, t.entryId, rows)
            && Money(sum.weighted, sum.gross, Prorated(t.fee.value, Share(sum.qty, Initial(t)))) ==
               SumMoney(journal, t.entryId, rows)
    ensures Accounted(t, rows).qty == Initial(t) ==> SumMoney(journal, t.entryId, rows).fees == t.fee.value
  {
    SumsAgree(t, rows, journal);
    AccountedIsCapped(t, rows);
    if Accounted(t, rows).qty == Initial(t) {
      WholeShare(t.fee.value, Initial(t));
    }
  }

  /** The settlement's own net result: it charges the trade's whole fee. */
  function SettledNet(t: Trade, rows: seq<CloseRow>): real
    requires t.fee.Some?
  {
    Accounted(t, rows).gross - Max(0.0, t.fee.value)
  }

  /** What the journal's close rows net to. */
  function JournalledNet(t: Trade, rows: seq<CloseRow>, journal: seq<Booking>): real {
    SumMoney(journal, t.entryId, rows).gross - SumMoney(journal, t.entryId, rows).fees
  }

  /**
   * The journal pro-rates the fee and the settlement charges all of it: the two nets agree exactly when there is
   * no fee or the entry is covered to the last share. A settlement within the tolerance is short by at most the
   * fee's share of that tolerance.
   */
  lemma NetsAgreeIffFeeIsCharged(t: Trade, rows: seq<CloseRow>, journal: seq<Booking>)
    requires Measurable(t) && UpToDate(t, journal, rows) && Reported(t, rows) <= Initial(t)
    ensures JournalledNet(t, rows, journal) == SettledNet(t, rows) <==>
            t.fee.value == 0.0 || Accounted(t, rows).qty == Initial(t)
    ensures JournalledNet(t, rows, journal) - SettledNet(t, rows) ==
            Prorated(t.fee.value, Share(Initial(t) - Accounted(t, rows).qty, Initial(t)))
    ensures Initial(t) <= Accounted(t, rows).qty + EPSILON ==>
              JournalledNet(t, rows, journal) - SettledNet(t, rows) <= Prorated(t.fee.value, Share(EPSILON, Initial(t)))
  {
    hide Accounted, SumMoney, SumQty, UpToDate, Reported;
    var qty := Accounted(t, rows).qty;
    JournalMatchesSettlement(t, rows, journal);
    AccountedIsCapped(t, rows);
    ChargeLeft(t.fee.value, qty, Initial(t));
    if Initial(t) <= qty + EPSILON {
      SharesGrow(t.fee.value, Initial(t) - qty, EPSILON, Initial(t));
    }
  }

  /** What pro-rating a fee over part of a quantity leaves uncharged. */
  lemma ChargeLeft(fee: real, qty: real, whole: real)
    requires fee >= 0.0 && whole > 0.0 && qty <= whole
    ensures fee - Prorated(fee, Share(qty, whole)) == Prorated(fee, Share(whole - qty, whole))
    ensures Prorated(fee, Share(whole - qty, whole)) == 0.0 <==> fee == 0.0 || qty == whole
  {
    ShareAdds(fee, qty, whole - qty, whole);
    WholeShare(fee, whole);
    var left := Share(whole - qty, whole);
    assert Times(left, whole) == whole - qty;
    if fee > 0.0 && left > 0.0 {
      Positive(fee, left);
    }
  }

  lemma SharesGrow(fee: real, a: real, b: real, whole: real)
    requires fee >= 0.0 && whole > 0.0 && a <= b
    ensures Prorated(fee, Share(a, whole)) <= Prorated(fee, Share(b, whole))
  {
    var more := Share(b - a, whole);
    assert Share(b, whole) - Share(a, whole) == more;
    assert Times(more, whole) == b - a;
    assert Times(fee, more) >= 0.0;
  }

  lemma WholeShare(fee: real, whole: real)
    requires whole > 0.0
    ensures Prorated(fee, Share(whole, whole)) == fee
  {
    assert Share(whole, whole) == 1.0;
  }

  lemma NoShare(t: Trade, price: real)
    requires Measurable(t)
    ensures Closing(t, 0.0, price) == NOTHING && MoneyOf(t, 0.0, 0.0) == NOTHING
  {
    assert Share(0.0, Initial(t)) == 0.0;
  }

  lemma {:induction false} SumsAgree(t: Trade, rows: seq<CloseRow>, journal: seq<Booking>)
    requires Measurable(t) && UpToDate(t, journal, rows) && Reported(t, rows) <= Initial(t)
    ensures var sum := Accounted(t, rows);
            && sum.known
            && sum.qty == SumQty(journal, t.entryId, rows) == Reported(t, rows)
            && MoneyOf(t, sum.qty, sum.weighted) == SumMoney(journal, t.entryId, rows)
            && sum.gross == MoneyOf(t, sum.qty, sum.weighted).gross
  {
    hide Add, MoneyOf, Closing, Raw;
    if rows == [] {
      NoShare(t, 0.0);
    } else {
      var n := |rows| - 1;
      var row := rows[n];
      var before := Accounted(t, rows[..n]);
      var raw := Max(0.0, Raw(row, Initial(t)));
      SumsAgree(t, rows[..n], journal);
      assert BookedQty(journal, t.entryId, rows[n].id) == raw;
      if raw == 0.0 {
        NoShare(t, row.average.GetOr(0.0));
        EmptyRow(t, row, before);
      } else {
        RowAgrees(t, row, before);
      }
    }
  }

  lemma EmptyRow(t: Trade, row: CloseRow, before: Totals)
    requires Raw(row, Initial(t)) <= 0.0
    ensures Add(t, before, row) == before
  {
  }

  lemma RowAgrees(t: Trade, row: CloseRow, before: Totals)
    requires Measurable(t) && row.average.Some? && 0.0 < Raw(row, Initial(t)) <= Initial(t) - before.qty
    requires before.gross == MoneyOf(t, before.qty, before.weighted).gross
    ensures var sum := Add(t, before, row);
            var raw := Raw(row, Initial(t));
            && sum.known == before.known
            && sum.qty == before.qty + raw
            && MoneyOf(t, sum.qty, sum.weighted) ==
               MoneyOf(t, before.qty, before.weighted).Plus(Closing(t, raw, row.average.value))
            && sum.gross == MoneyOf(t, sum.qty, sum.weighted).gross
  {
    hide Difference, Directed, Prorated, Share;
    var raw := Raw(row, Initial(t));
    GrossOf(t, row.average.value, raw);
    MoneyAdds(t, before.qty, before.weighted, raw, Costing(row.average.value, raw));
  }

  /**
   * The journalling loop passes over protective-leg rows while the trade is still listed, and an unconfirmed
   * trade always is, yet the settling loop counts them. So what a reconciliation journals of freshly reported
   * fills equals what it settles exactly when no such row carries a fill.
   */
  lemma {:induction false} SettledIsJournalledIffAttempts(t: Trade, rows: seq<CloseRow>, listed: bool,
                                                          journal: seq<Booking>)
    requires Distinct(rows) && AllTerminal(rows) && Booked(journal, t.entryId, rows)
    requires forall i :: 0 <= i < |rows| ==> rows[i].logged == 0.0
    requires Reported(t, rows) <= Initial(t)
    ensures var p := BookAll(t, rows, listed, journal);
            SumQty(p.journal, t.entryId, rows) == Accounted(t, rows).qty <==>
            AllAttempted(t, rows, listed)
  {
    var p := BookAll(t, rows, listed, journal);
    Shortfall(t, rows, listed);
    PassBooks(t, rows, listed, journal);
    AccountedIsCapped(t, rows);
    FreshSum(t, rows, listed, p.journal, p.rows);
  }

  /** Nothing carries a fill that the journalling loop passes over. */
  predicate AllAttempted(t: Trade, rows: seq<CloseRow>, listed: bool) {
    listed ==> forall i :: 0 <= i < |rows| && Raw(rows[i], Initial(t)) > 0.0 ==> rows[i].attempt.Some?
  }

  lemma {:induction false} Shortfall(t: Trade, rows: seq<CloseRow>, listed: bool)
    requires AllTerminal(rows)
    ensures TakenTotal(t, rows, listed) <= Reported(t, rows)
    ensures TakenTotal(t, rows, listed) == Reported(t, rows) <==> AllAttempted(t, rows, listed)
  {
    if rows != [] {
      var n := |rows| - 1;
      Shortfall(t, rows[..n], listed);
      assert AllAttempted(t, rows, listed) <==>
             AllAttempted(t, rows[..n], listed) &&
             (listed && Raw(rows[n], Initial(t)) > 0.0 ==> rows[n].attempt.Some?);
    }
  }

  lemma {:induction false} FreshSum(t: Trade, rows: seq<CloseRow>, listed: bool, journal: seq<Booking>,
                                    booked: seq<CloseRow>)
    requires |booked| == |rows|
    requires forall i :: 0 <= i < |rows| ==>
               (&& rows[i].logged == 0.0
                && booked[i].id == rows[i].id
                && booked[i].logged == NowLogged(t, rows[i], listed)
                && QtyBooked(journal, t.entryId, booked[i]))
    ensures SumQty(journal, t.entryId, rows) == TakenTotal(t, rows, listed)
  {
    if rows != [] {
      var n := |rows| - 1;
      FreshSum(t, rows[..n], listed, journal, booked[..n]);
      assert QtyBooked(journal, t.entryId, booked[n]);
    }
  }

  /** A row whose fill is new, or already booked at its present average. */
  predicate Fresh(t: Trade, row: CloseRow) {
    var raw := Max(0.0, Raw(row, Initial(t)));
    row.logged < raw || (row.logged == raw && (raw > 0.0 ==> row.loggedAverage == row.average))
  }

  /** One pass over final, priced rows brings the journal up to date with them, and so into line with settlement. */
  lemma PassMatchesSettlement(t: Trade, rows: seq<CloseRow>, listed: bool, journal: seq<Booking>)
    requires Measurable(t) && Distinct(rows) && AllTerminal(rows) && AllAttempted(t, rows, listed)
    requires Booked(journal, t.entryId, rows) && AllMoneyBooked(t, journal, rows)
    requires Reported(t, rows) <= Initial(t)
    requires forall i :: 0 <= i < |rows| ==>
               Fresh(t, rows[i]) && (Raw(rows[i], Initial(t)) > 0.0 ==> rows[i].average.Some?)
    ensures var p := BookAll(t, rows, listed, journal);
            var sum := Accounted(t, rows);
            && sum.qty == SumQty(p.journal, t.entryId, rows)
            && Money(sum.weighted, sum.gross, Prorated(t.fee.value, Share(sum.qty, Initial(t)))) ==
               SumMoney(p.journal, t.entryId, rows)
  {
    var p := BookAll(t, rows, listed, journal);
    Shortfall(t, rows, listed);
    PassBooks(t, rows, listed, journal);
    PassBooksMoney(t, rows, listed, journal);
    forall i | 0 <= i < |rows|
      ensures var raw := Max(0.0, Raw(rows[i], Initial(t)));
              && BookedQty(p.journal, t.entryId, rows[i].id) == raw
              && BookedMoney(p.journal, t.entryId, rows[i].id) == Closing(t, raw, rows[i].average.GetOr(0.0))
    {
      RowUpToDate(t, rows[i], listed, p.rows[i], p.journal);
    }
    JournalMatchesSettlement(t, rows, p.journal);
  }

  lemma RowUpToDate(t: Trade, row: CloseRow, listed: bool, now: CloseRow, journal: seq<Booking>)
    requires Measurable(t) && Fresh(t, row) && row.status.IsTerminal()
    requires listed && Raw(row, Initial(t)) > 0.0 ==> row.attempt.Some?
    requires now == row.(logged := NowLogged(t, row, listed), loggedAverage := NowAverage(t, row, listed))
    requires QtyBooked(journal, t.entryId, now) && MoneyBooked(t, journal, now)
    ensures var raw := Max(0.0, Raw(row, Initial(t)));
            && BookedQty(journal, t.entryId, row.id) == raw
            && BookedMoney(journal, t.entryId, row.id) == Closing(t, raw, row.average.GetOr(0.0))
  {
    hide Closing, BookedQty, BookedMoney, KeysBelow, Raw;
    NoShare(t, row.average.GetOr(0.0));
    NoShare(t, row.loggedAverage.GetOr(0.0));
  }

  // ---- Whose rows close a trade

  /** The trade names a closing order of its symbol that no entry is recorded for. */
  predicate NamesParentless(t: Trade, orders: map<nat, CloseRow>) {
    && t.closingId.Some?
    && t.closingId.value in orders
    && orders[t.closingId.value].symbol == t.symbol
    && orders[t.closingId.value].parent.None?
  }

  /** A close of some entry is in the book, in the symbol of a trade that has no entry order itself. */
  predicate InheritsCloses(t: Trade, orders: map<nat, CloseRow>) {
    exists k :: k in orders && Inherits(t, orders[k])
  }

  predicate Inherits(t: Trade, row: CloseRow) {
    row.symbol == t.symbol && row.parent.Some? && (row.isClose || t.closingId == Some(row.id))
  }

  /**
   * Every row that closes a trade belongs to its own entry, unless the named row carries no entry at all. A trade
   * without an entry order, known from a broker position only, takes any close of its symbol.
   */
  lemma EntriesAreOwn(t: Trade, orders: map<nat, CloseRow>, entries: seq<CloseRow>)
    requires Keyed(orders) && Enumerates(entries, t, orders)
    ensures (forall r :: r in entries ==> r.parent == t.entryId) <==>
            !(if t.entryId.Some? then NamesParentless(t, orders) else InheritsCloses(t, orders))
  {
    if t.entryId.None? && InheritsCloses(t, orders) {
      var k :| k in orders && Inherits(t, orders[k]);
      assert Binds(t, orders[k]) && orders[k] in entries;
    }
  }

  /** The smallest case: a position of ten shares nobody entered here, and the closed ten of an earlier entry. */
  lemma OldCloseCoversEnteredElsewhere(t: Trade, row: CloseRow, journal: seq<Booking>)
    requires t.entryId.None? && t.confirmed == Some(true) && t.filled == 0.0 && t.qty == 10.0
    requires row.symbol == t.symbol && row.parent == Some(1) && row.isClose
    requires row.qty == Some(10.0) && row.filled == row.logged == 10.0
    ensures Binds(t, row)
    ensures VerdictOf(t, Snapshot(false, None, [row], None)).Covered?
    ensures BookAll(t, [row], false, journal).journal == journal
  {
    hide Gross, Accounted;
    OneRow(t, row, 10.0);
    assert [row][..0] == [];
  }

  /** Two exposures of one symbol never share a row, once every row names its entry. */
  lemma NoSharedRows(t: Trade, u: Trade, orders: map<nat, CloseRow>, mine: seq<CloseRow>, yours: seq<CloseRow>)
    requires t.entryId.Some? && u.entryId.Some? && t.entryId != u.entryId
    requires Enumerates(mine, t, orders) && Enumerates(yours, u, orders)
    requires forall k :: k in orders ==> orders[k].parent.Some?
    ensures Ids(mine) !! Ids(yours)
  {
  }

  /**
   * The broker fallback leaves other rows alone unless the trade names one that is bound elsewhere and the
   * broker lists it; then it overwrites that row, its booked progress with it.
   */
  lemma FallbackOverwritesIffNamedElsewhere(t: Trade, orders: map<nat, CloseRow>, listed: map<nat, BrokerOrder>,
                                            k: nat)
    requires Keyed(orders) && k in orders && orders[k].logged > 0.0
    ensures WithFallback(t, orders, listed)[k] == orders[k] <==>
            !(t.closingId == Some(k) && k in listed && !Binds(t, orders[k]))
  {
  }

  // ---- Local closes in the journal

  /** The replay key of a close without bound rows: that of a named order's first booking, or one of its own. */
  datatype LocalKey = OfOrder(key: Key) | OfEntry(entry: nat) | OfOpening(symbol: string, openedAt: real)

  datatype LocalRow = LocalRow(key: LocalKey, qty: real)

  /** A trade and the snapshot that a reconciliation settles it by. */
  datatype Try = Try(t: Trade, s: Snapshot)
  {
    predicate Closes() { VerdictOf(t, s).ClosedLocally? || VerdictOf(t, s).ClosedOnStray? }

    function Row(openedAt: real): LocalRow
      requires Closes()
    {
      LocalRow(if t.closingId.Some? then OfOrder(First(t.entryId, t.closingId.value))
               else if t.entryId.Some? then OfEntry(t.entryId.value)
               else OfOpening(t.symbol, openedAt),
               VerdictOf(t, s).qty)
    }
  }

  predicate HasLocalKey(rows: seq<LocalRow>, key: LocalKey) {
    exists i :: 0 <= i < |rows| && rows[i].key == key
  }

  function LogLocal(rows: seq<LocalRow>, row: LocalRow): seq<LocalRow> {
    if HasLocalKey(rows, row.key) then rows else rows + [row]
  }

  /** The journal after reconciliations of which every one but the last crashed before its trade was removed. */
  function LoggedLocally(rows: seq<LocalRow>, tries: seq<Try>, openedAt: real): seq<LocalRow> {
    if tries == [] then rows
    else
      var before := LoggedLocally(rows, tries[..|tries| - 1], openedAt);
      var last := tries[|tries| - 1];
      if last.Closes() then LogLocal(before, last.Row(openedAt)) else before
  }

  /** Every closing try names the same closing order, or none. */
  predicate SameName(tries: seq<Try>, openedAt: real) {
    forall i, j :: 0 <= i < j < |tries| && tries[i].Closes() && tries[j].Closes() ==>
      tries[i].Row(openedAt).key == tries[j].Row(openedAt).key
  }

  predicate FirstToClose(tries: seq<Try>, k: nat) {
    k < |tries| && tries[k].Closes() && forall i :: 0 <= i < k ==> !tries[i].Closes()
  }

  /**
   * Crashes between the journal and the removal of the trade: however often it is replayed, the close is journalled
   * once, as the first try had it, exactly when the closing order it names stays the same.
   */
  lemma {:induction false} LocalCloseIsJournalledOnceIff(rows: seq<LocalRow>, tries: seq<Try>, openedAt: real, k: nat)
    requires FirstToClose(tries, k)
    requires forall i :: 0 <= i < |tries| && tries[i].Closes() ==> !HasLocalKey(rows, tries[i].Row(openedAt).key)
    ensures LoggedLocally(rows, tries, openedAt) == rows + [tries[k].Row(openedAt)] <==> SameName(tries, openedAt)
    ensures !SameName(tries, openedAt) ==> |LoggedLocally(rows, tries, openedAt)| >= |rows| + 2
  {
    hide Try.Closes, Try.Row, HasLocalKey;
    var n := |tries| - 1;
    var before := LoggedLocally(rows, tries[..n], openedAt);
    if k == n {
      NoneCloses(rows, tries[..n], openedAt);
    } else {
      LocalCloseIsJournalledOnceIff(rows, tries[..n], openedAt, k);
      if tries[n].Closes() {
        LocalKeyAppends(rows, tries[k].Row(openedAt), tries[n].Row(openedAt).key);
        assert SameName(tries, openedAt) ==> tries[k].Row(openedAt).key == tries[n].Row(openedAt).key;
      }
    }
  }

  /**
   * When there is such a row and what it says: the whole exposure was closed, or a stray order's part of it, under
   * the key of the named order's first booking, the entry's, or the opening's.
   */
  lemma LocalCloseIsJournalledWhole(a: Try, openedAt: real)
    ensures a.Closes() <==>
            (&& Considered(a.t, a.s) && !IsCutShort(a.t, a.s) && a.s.entries == [] && a.t.qty > 0.0
             && if a.s.stray.Some? then a.s.stray.value > 0.0 else a.t.closingPrice.Some? && a.t.closingReason)
    ensures a.Closes() ==>
              && a.Row(openedAt).qty ==
                 (if a.s.stray.Some? && a.s.stray.value < a.t.qty then a.s.stray.value else a.t.qty)
              && (a.t.closingId.Some? ==> a.Row(openedAt).key == OfOrder(First(a.t.entryId, a.t.closingId.value)))
              && (a.t.closingId.None? && a.t.entryId.Some? ==> a.Row(openedAt).key == OfEntry(a.t.entryId.value))
              && (a.t.closingId.None? && a.t.entryId.None? ==> a.Row(openedAt).key.OfOpening?)
  {
    hide Accounted;
  }

  lemma LocalKeyAppends(rows: seq<LocalRow>, row: LocalRow, key: LocalKey)
    ensures HasLocalKey(rows + [row], key) <==> HasLocalKey(rows, key) || row.key == key
  {
    assert (rows + [row])[|rows|] == row;
    assert forall i :: 0 <= i < |rows| ==> (rows + [row])[i] == rows[i];
  }

  lemma {:induction false} NoneCloses(rows: seq<LocalRow>, tries: seq<Try>, openedAt: real)
    requires forall i :: 0 <= i < |tries| ==> !tries[i].Closes()
    ensures LoggedLocally(rows, tries, openedAt) == rows
  {
    hide Try.Closes, Try.Row;
    if tries != [] {
      NoneCloses(rows, tries[..|tries| - 1], openedAt);
    }
  }
}
