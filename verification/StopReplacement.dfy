/**
 * Moving a protective stop: intent is written first, then the broker replaces the stop, then the successor is
 * attached. The process may stop between any two of these writes; reconciliation recovers the chain.
 */
module StopReplacement {
  import opened Basics
  import CloseJournal
  import Settlement

  // ---- The broker's side

  /** One stop of the replacement chain; stop k+1 replaced stop k. */
  datatype StopOrder = StopOrder(price: real, status: Status)

  /** What a listing says of one stop; the link fields may be missing. */
  datatype Listed = Listed(isStop: bool, price: Option<real>, status: Status,
                           replacedBy: Option<nat>, replacing: Option<nat>)

  /** Every stop but the last has been replaced. */
  predicate Chain(chain: seq<StopOrder>) {
    |chain| > 0 && forall i :: 0 <= i < |chain| ==> (chain[i].status == Replaced <==> i < |chain| - 1)
  }

  function Head(chain: seq<StopOrder>): int { |chain| - 1 }

  /** The chain after its head was replaced; the successor may already have filled. */
  function Extended(chain: seq<StopOrder>, successor: StopOrder): (r: seq<StopOrder>)
    requires Chain(chain) && successor.status != Replaced
    ensures Chain(r) && |r| == |chain| + 1 && r[Head(r)] == successor
    ensures forall i :: 0 <= i < |chain| ==> r[i].price == chain[i].price
  {
    chain[Head(chain) := chain[Head(chain)].(status := Replaced)] + [successor]
  }

  /** A listing may omit stops and links, but says nothing untrue. */
  predicate Truthful(listing: map<nat, Listed>, chain: seq<StopOrder>) {
    forall id :: id in listing ==>
      (&& id < |chain|
       && listing[id].isStop
       && listing[id].price == Some(chain[id].price)
       && listing[id].status == chain[id].status
       && (listing[id].replacedBy.Some? ==> listing[id].replacedBy.value == id + 1 < |chain|)
       && (listing[id].replacing.Some? ==> listing[id].replacing.value + 1 == id))
  }

  datatype Outcome = Accepted(successor: nat, status: Status) | Unanswered

  class Broker {
    var chain: seq<StopOrder>
    ghost var outcomes: seq<Outcome>      // of every replacement asked for

    constructor (price: real)
      ensures chain == [StopOrder(price, Working("new"))] && Chain(chain) && outcomes == []
    {
      chain := [StopOrder(price, Working("new"))];
      outcomes := [];
    }

    /**
     * Replaces a stop that is still working. The call may be refused, or take effect with its response lost:
     * both surface as a failure.
     */
    method Replace(id: nat, price: real) returns (outcome: Outcome)
      requires Chain(chain) && id < |chain|
      modifies this
      ensures Chain(chain) && outcomes == old(outcomes) + [outcome]
      ensures (chain == old(chain) && outcome.Unanswered?) ||
              (&& id == Head(old(chain))
               && !old(chain)[id].status.IsTerminal()
               && |chain| == |old(chain)| + 1
               && chain[id + 1].status != Replaced
               && chain == Extended(old(chain), StopOrder(price, chain[id + 1].status))
               && (outcome.Accepted? ==> outcome == Accepted(id + 1, chain[id + 1].status)))
    {
      outcome := Unanswered;
      if !chain[id].status.IsTerminal() {
        if * {
          var status :| status != Replaced;
          chain := Extended(chain, StopOrder(price, status));
          if * {
            outcome := Accepted(id + 1, status);
          }
        }
      }
      outcomes := outcomes + [outcome];
    }

    /** The current stop fills, is canceled, or moves on in any way except by replacement. */
    method Change(status: Status)
      requires Chain(chain) && status != Replaced
      modifies this`chain
      ensures Chain(chain) && |chain| == |old(chain)|
      ensures forall i :: 0 <= i < |chain| ==> chain[i].price == old(chain)[i].price
    {
      chain := chain[|chain| - 1 := chain[|chain| - 1].(status := status)];
    }
  }

  // ---- The program's record

  /** A recorded stop leg. */
  datatype StopLeg = StopLeg(id: nat, status: Status, price: real)

  datatype Intent = Intent(before: nat, requested: real, confirmed: bool, after: Option<nat>, misses: nat)

  /** The stop part of an active trade; `closingId` is set when a successor turns out to be filled. */
  datatype Record = Record(legs: seq<StopLeg>, active: real, intent: Option<Intent>, closingId: Option<nat>)
  {
    predicate Pending() { intent.Some? && !intent.value.confirmed }
  }

  /** Exactly one recorded stop, the broker's current one, at its price, with no step outstanding. */
  predicate InStep(r: Record, chain: seq<StopOrder>) {
    && |r.legs| == 1
    && r.legs[0].id == Head(chain)
    && r.legs[0].price == r.active == chain[r.legs[0].id].price
    && (r.intent.Some? ==>
          if r.intent.value.confirmed
          then r.intent.value.after == Some(r.legs[0].id) && r.active == r.intent.value.requested
          else r.intent.value.before == r.legs[0].id && r.intent.value.after.None?)
  }

  /** The intended replacement has happened and the record does not know it yet. */
  predicate Behind(r: Record, chain: seq<StopOrder>) {
    && |chain| > 0
    && |r.legs| == 1
    && r.Pending()
    && r.intent.value.before == r.legs[0].id
    && r.intent.value.after.None?
    && r.legs[0].id + 1 == Head(chain)
    && r.legs[0].price == r.active == chain[r.legs[0].id].price
    && r.intent.value.requested == chain[Head(chain)].price
  }

  /** What every step and every crash keeps. */
  predicate Linked(r: Record, chain: seq<StopOrder>) { Chain(chain) && (InStep(r, chain) || Behind(r, chain)) }

  /** Replaces one recorded stop by its successor. */
  function Attached(r: Record, before: nat, leg: StopLeg, intent: Intent): Record {
    Record(Without(r.legs, before) + [leg], intent.requested, Some(intent.(confirmed := true, after := Some(leg.id))),
           if leg.status.IsFill() then Some(leg.id) else r.closingId)
  }

  function Without(legs: seq<StopLeg>, id: nat): seq<StopLeg> {
    if legs == [] then []
    else Without(legs[..|legs| - 1], id) + if legs[|legs| - 1].id == id then [] else [legs[|legs| - 1]]
  }

  /** Dropping a leg drops nothing else. */
  lemma {:induction false} OthersStay(legs: seq<StopLeg>, id: nat, leg: StopLeg)
    ensures leg in Without(legs, id) <==> leg in legs && leg.id != id
  {
    if legs != [] {
      OthersStay(legs[..|legs| - 1], id, leg);
      assert legs == legs[..|legs| - 1] + [legs[|legs| - 1]];
    }
  }

  lemma AttachingClosesTheGap(r: Record, chain: seq<StopOrder>, leg: StopLeg)
    requires Chain(chain) && Behind(r, chain) && leg.id == Head(chain) && leg.price == r.intent.value.requested
    ensures InStep(Attached(r, r.intent.value.before, leg, r.intent.value), chain)
  {
    assert r.legs[..0] == [];
    assert Without(r.legs, r.intent.value.before) == [];
  }

  datatype Recovery =
    | Recovered(record: Record)
    | PredecessorUnavailable
    | SuccessorUnavailable
    | NotAStop
    | Contradictory

  /** The listed stop that replaced `intent.before`, by any of the three links. */
  predicate Succeeds(listing: map<nat, Listed>, intent: Intent, id: int) {
    && id in listing
    && (|| intent.after == Some(id)
        || (intent.after.None? && intent.before in listing && listing[intent.before].replacedBy == Some(id))
        || listing[id].replacing == Some(intent.before))
  }

  method FindSuccessor(listing: map<nat, Listed>, intent: Intent) returns (found: Option<nat>, named: bool)
    ensures found.Some? ==> Succeeds(listing, intent, found.value)
    ensures found.None? ==> forall id :: !Succeeds(listing, intent, id)
    ensures named <==> intent.after.Some? || (intent.before in listing && listing[intent.before].replacedBy.Some?)
  {
    var name := intent.after;
    if name.None? && intent.before in listing {
      name := listing[intent.before].replacedBy;
    }
    named := name.Some?;
    found := None;
    if named && name.value in listing {
      return name, named;
    }
    var todo := listing.Keys;
    while todo != {}
      invariant todo <= listing.Keys
      invariant forall id :: id in listing.Keys - todo ==> listing[id].replacing != Some(intent.before)
      decreases todo
    {
      var id :| id in todo;
      todo := todo - {id};
      if listing[id].replacing == Some(intent.before) {
        return Some(id), named;
      }
    }
  }

  /** The listing does not show how a pending replacement went. */
  predicate Hidden(r: Record, listing: map<nat, Listed>, chain: seq<StopOrder>) {
    r.Pending() &&
    if Behind(r, chain) then !Succeeds(listing, r.intent.value, Head(chain)) else r.intent.value.before !in listing
  }

  /** The closing order once a recovered successor is known: the successor when it has filled. */
  function ClosingAfter(r: Record, chain: seq<StopOrder>): Option<nat> {
    if Behind(r, chain) && chain[Head(chain)].status.IsFill() then Some(Head(chain)) else r.closingId
  }

  /** Every listed successor is of another type than a stop; there is one. */
  ghost predicate NoStopSucceeds(listing: map<nat, Listed>, intent: Intent) {
    && (exists id :: Succeeds(listing, intent, id))
    && (forall id :: Succeeds(listing, intent, id) ==> !listing[id].isStop)
  }

  /** Every listed successor is a stop at another price than the one asked for, or at none; there is one. */
  ghost predicate AnotherPriceSucceeds(listing: map<nat, Listed>, intent: Intent) {
    && (exists id :: Succeeds(listing, intent, id))
    && (forall id :: Succeeds(listing, intent, id) ==>
          && listing[id].isStop
          && (listing[id].price.None? || Abs(listing[id].price.value - intent.requested) > EPSILON))
  }

  /** Recovers a pending replacement from one listing; a successor that contradicts the request is refused. */
  method Recover(r: Record, listing: map<nat, Listed>, ghost chain: seq<StopOrder>) returns (result: Recovery)
    requires Linked(r, chain)
    ensures Truthful(listing, chain) && result.Recovered? ==> InStep(result.record, chain)
    ensures result.Recovered? && !r.Pending() ==> result.record == r
    ensures Truthful(listing, chain) && result.Recovered? ==> result.record.closingId == ClosingAfter(r, chain)
    ensures Truthful(listing, chain) ==> !result.NotAStop? && !result.Contradictory?
    ensures Truthful(listing, chain) ==> (result.Recovered? <==> !Hidden(r, listing, chain))
    ensures r.Pending() && NoStopSucceeds(listing, r.intent.value) ==> result.NotAStop?
    ensures r.Pending() && AnotherPriceSucceeds(listing, r.intent.value) ==> result.Contradictory?
  {
    if r.intent.None? || r.intent.value.confirmed {
      return Recovered(r);
    }
    var intent := r.intent.value;
    var found, named := FindSuccessor(listing, intent);
    if found.None? {
      if intent.before !in listing {
        return PredecessorUnavailable;
      }
      if listing[intent.before].status == Replaced || named {
        assert Truthful(listing, chain) ==> Behind(r, chain) && !Succeeds(listing, intent, Head(chain));
        return SuccessorUnavailable;
      }
      return Recovered(r.(intent := Some(intent.(misses := intent.misses + 1))));
    }
    var id := found.value;
    assert Succeeds(listing, intent, id) && (Truthful(listing, chain) ==> id == intent.before + 1);
    var successor := listing[id];
    if !successor.isStop {
      return NotAStop;
    }
    if successor.price.None? || Abs(successor.price.value - intent.requested) > EPSILON {
      return Contradictory;
    }
    var leg := StopLeg(id, successor.status, intent.requested);
    if Truthful(listing, chain) {
      AttachingClosesTheGap(r, chain, leg);
    }
    result := Recovered(Attached(r, intent.before, leg, intent));
  }

  /** The statuses a listing gives the recorded legs; one it omits is recorded as not found. */
  function Refreshed(legs: seq<StopLeg>, listing: map<nat, Listed>): (r: seq<StopLeg>)
    ensures |r| == |legs|
    ensures forall i :: 0 <= i < |legs| ==> r[i].id == legs[i].id && r[i].price == legs[i].price
    ensures forall i :: 0 <= i < |legs| ==>
              if r[i].id in listing then r[i].status == listing[r[i].id].status else r[i].status == NotFound
  {
    seq(|legs|, i requires 0 <= i < |legs| =>
      legs[i].(status := if legs[i].id in listing then listing[legs[i].id].status else NotFound))
  }

  /** Every leg has the status the listing gives it, and is not found exactly when the listing omits it. */
  predicate AsListed(legs: seq<StopLeg>, listing: map<nat, Listed>) {
    forall i :: 0 <= i < |legs| ==>
      if legs[i].id in listing then legs[i].status == listing[legs[i].id].status else legs[i].status == NotFound
  }

  // ---- Which copy reconciliation writes back

  /**
   * Recovery works on a private copy of the trades as they were when the snapshot was taken; the fresh copy
   * carries this snapshot's fills. The recovered stop survives unless the fresh copy alone is written.
   */
  predicate FreshCopyWins(t: CloseJournal.Trade, s: Settlement.Snapshot) {
    var verdict := Settlement.VerdictOf(t, s);
    || (verdict.Stays? && !s.visible)
    || (verdict.Kept? && Settlement.OwnsFill(t, s.entry))
  }

  /** The position is missing and the exposure is kept because its entry order was cut short. */
  predicate KeptOnCutShortEntry(t: CloseJournal.Trade, s: Settlement.Snapshot) {
    Settlement.Considered(t, s) && Settlement.OwnsFill(t, s.entry)
  }

  /** For a trade that a position once showed, or that has close rows, one guard is left. */
  lemma FreshCopyWinsIff(t: CloseJournal.Trade, s: Settlement.Snapshot)
    ensures FreshCopyWins(t, s) <==>
            (!s.visible && Settlement.Unconfirmed(t) && s.entries == []) || KeptOnCutShortEntry(t, s)
    ensures (Settlement.Unconfirmed(t) ==> s.entries != []) ==> (FreshCopyWins(t, s) <==> KeptOnCutShortEntry(t, s))
  {
  }

  /** The entry is filled as far as the exit rules ask before they read bars and move a stop. */
  predicate WhollyFilled(filled: real, requested: real) { filled >= requested * (1.0 - EPSILON) }

  /** That is the request, up to the thousand-millionth part of it. */
  lemma WhollyFilledIff(filled: real, requested: real)
    ensures WhollyFilled(filled, requested) <==> requested - filled <= Times(EPSILON, requested)
  {
  }

  /**
   * A canceled entry passes that test once its fill has grown to the whole request: its final status stays while
   * its fill still grows. While the position endpoint omits the position, the copy without the recovered stop is
   * written.
   */
  lemma CanceledEntryKeepsOldStop(t: CloseJournal.Trade, turn: Settlement.Turn)
    requires t.filled == 10.0 && t.confirmed == Some(true)
    requires !turn.visible && turn.entries == [] && turn.closingId.None?
    requires turn.report == Some(Settlement.EntryReport(Canceled, 10.0, false))
    ensures WhollyFilled(t.filled, 10.0)
    ensures FreshCopyWins(Settlement.Recorded(t, turn), Settlement.SnapshotOf(t.filled, turn))
    ensures !Settlement.Activates(t.filled, turn)
  {
  }

  /** A trade that a position showed counts as unconfirmed only once it has close rows. */
  predicate MarkHolds(t: CloseJournal.Trade, shown: bool, closeRows: bool) {
    shown && Settlement.Unconfirmed(t) ==> closeRows
  }

  lemma MarkStays(e: Settlement.Exposure, turn: Settlement.Turn, shown: bool, closeRows: bool)
    requires e.Active? && MarkHolds(e.trade, shown, closeRows) && (closeRows ==> turn.entries != [])
    ensures MarkHolds(Settlement.Reconcile(e, turn).trade, shown || turn.visible, turn.entries != [])
  {
    hide Settlement.Accounted;
  }

  class Engine {
    var record: Record                    // durable
    var exposure: Settlement.Exposure     // the durable trade whose stop it is
    var entry: Status                     // the entry row's status
    var shown: bool                       // a position snapshot showed the trade
    var closeRows: bool                   // a close order was recorded for it
    ghost var attempts: nat               // reconciliations tried after a failed move
    const requested: real                 // what the entry asked for

    /** Only a trade that a position showed gets its stop moved. */
    ghost predicate Valid(broker: Broker)
      reads this, broker
    {
      && Linked(record, broker.chain)
      && (record.intent.Some? ==> shown)
      && MarkHolds(exposure.trade, shown, closeRows)
    }

    constructor (broker: Broker, trade: CloseJournal.Trade, status: Status, requested: real)
      requires Chain(broker.chain) && |broker.chain| == 1
      ensures Valid(broker) && exposure == Settlement.Active(trade, trade.filled) && entry == status && !shown
    {
      record := Record([StopLeg(0, Working("new"), broker.chain[0].price)], broker.chain[0].price, None, None);
      exposure := Settlement.Active(trade, trade.filled);
      entry, shown, closeRows, attempts := status, false, false, 0;
      this.requested := requested;
    }

    /** A snapshot of this trade: final entry evidence and recorded closes are there to stay. */
    predicate Continues(turn: Settlement.Turn, chain: seq<StopOrder>)
      reads this
    {
      && (turn.report.Some? && entry.IsTerminal() ==> turn.report.value.status == entry)
      && (closeRows ==> turn.entries != [])
      && (ClosingAfter(record, chain).Some? ==> turn.closingId.Some?)
    }

    /** Once a stop was moved, a changed entry fill is refused. */
    predicate Refused(turn: Settlement.Turn)
      reads this
    {
      record.intent.Some? && Settlement.Activates(exposure.known, turn)
    }

    predicate FreshWins(turn: Settlement.Turn)
      reads this
    {
      FreshCopyWins(Settlement.Recorded(exposure.trade, turn), Settlement.SnapshotOf(exposure.known, turn))
    }

    predicate CutShort(turn: Settlement.Turn)
      reads this
    {
      KeptOnCutShortEntry(Settlement.Recorded(exposure.trade, turn), Settlement.SnapshotOf(exposure.known, turn))
    }

    /**
     * One reconciliation; it either fails and writes nothing, or writes one of the two copies. A trade that is
     * still there is then in step, unless its entry was cut short, the position is missing and no close is named;
     * with an entry recorded as filled it always is, and so it is with a successor that has filled.
     */
    method Reconcile(broker: Broker, listing: map<nat, Listed>, turn: Settlement.Turn) returns (normal: bool)
      requires Valid(broker) && exposure.Active?
      requires Truthful(listing, broker.chain) && Continues(turn, broker.chain)
      modifies `record, `exposure, `entry, `shown, `closeRows
      ensures Valid(broker)
      ensures !normal ==> record == old(record) && exposure == old(exposure)
      ensures normal <==>
              && !Hidden(old(record), listing, broker.chain)
              && !(old(record).intent.Some? && Settlement.ReportsAnew(old(exposure).known, turn))
      ensures normal ==> exposure == Settlement.Reconcile(old(exposure), turn)
      ensures normal && exposure.Active? ==>
                (InStep(record, broker.chain) <==> InStep(old(record), broker.chain) || !old(CutShort(turn)))
      ensures normal && InStep(record, broker.chain) && !InStep(old(record), broker.chain) ==>
                record.closingId == ClosingAfter(old(record), broker.chain)
      ensures normal && !old(FreshWins(turn)) ==> InStep(record, broker.chain) && AsListed(record.legs, listing)
      ensures normal && !old(FreshWins(turn)) && Head(broker.chain) in listing ==>
                record.legs[0].status == broker.chain[Head(broker.chain)].status
      ensures normal && (old(entry) == Filled || ClosingAfter(old(record), broker.chain).Some?) ==>
                InStep(record, broker.chain)
      ensures old(entry).IsTerminal() ==> entry == old(entry)
    {
      hide Settlement.Reconcile, Settlement.Activates, FreshCopyWins, MarkHolds, Hidden;
      var recovery := Recover(record, listing, broker.chain);
      Settlement.ActivatesIff(exposure.known, turn);
      if !recovery.Recovered? || Refused(turn) {
        return false;
      }
      MarkStays(exposure, turn, shown, closeRows);
      OneGuardIsLeft(turn);
      WriteBack(turn, recovery.record.(legs := Refreshed(recovery.record.legs, listing)));
      normal := true;
    }

    /** Writes the recovered copy, or the fresh one, which carries the record as it was. */
    method WriteBack(turn: Settlement.Turn, copy: Record)
      requires exposure.Active?
      modifies `record, `exposure, `entry, `shown, `closeRows
      ensures record == if old(FreshWins(turn)) then old(record) else copy
      ensures exposure == Settlement.Reconcile(old(exposure), turn)
      ensures shown == (old(shown) || turn.visible) && closeRows == (turn.entries != [])
      ensures entry == if turn.report.Some? then turn.report.value.status else old(entry)
    {
      hide Settlement.Reconcile;
      if !FreshWins(turn) {
        record := copy;
      }
      exposure := Settlement.Reconcile(exposure, turn);
      if turn.report.Some? {
        entry := turn.report.value.status;
      }
      shown, closeRows := shown || turn.visible, turn.entries != [];
    }

    /** Once a stop was moved, the fresh copy wins only on a cut-short entry. */
    lemma OneGuardIsLeft(turn: Settlement.Turn)
      requires MarkHolds(exposure.trade, shown, closeRows) && (closeRows ==> turn.entries != [])
      ensures shown ==> (FreshWins(turn) <==> CutShort(turn))
      ensures (turn.report.Some? ==> turn.report.value.status == Filled) || turn.closingId.Some? ==> !CutShort(turn)
    {
      FreshCopyWinsIff(Settlement.Recorded(exposure.trade, turn), Settlement.SnapshotOf(exposure.known, turn));
    }

    /** Some truthful snapshot arrives, or none. */
    method ReconcileOnce(broker: Broker)
      requires Valid(broker) && exposure.Active?
      modifies this
      ensures Valid(broker) && attempts == old(attempts) + 1
    {
      attempts := attempts + 1;
      var listing: map<nat, Listed> := *;
      var turn: Settlement.Turn := *;
      if Truthful(listing, broker.chain) && Continues(turn, broker.chain) {
        var _ := Reconcile(broker, listing, turn);
      }
    }

    /** The entry is filled, and the one recorded stop works beside a live target. */
    predicate Movable(targetLive: bool)
      reads this
    {
      && WhollyFilled(exposure.trade.filled, requested)
      && |record.legs| == 1 && !record.legs[0].status.IsTerminal() && targetLive
    }

    /**
     * Moves the stop of a trade that the last reconciliation listed. The process stops after the first write when
     * `stopAt` is 1 and after the broker call when it is 2; a failed call reconciles once and leaves any retry to
     * a later cycle.
     */
    method MoveStop(broker: Broker, wanted: real, targetLive: bool, stopAt: nat) returns (moved: bool)
      requires Valid(broker) && exposure.Active? && shown
      modifies this, broker
      ensures Valid(broker)
      ensures !old(Movable(targetLive)) ==>
                !moved && record == old(record) && broker.outcomes == old(broker.outcomes)
      ensures old(Movable(targetLive)) && stopAt != 1 ==> |broker.outcomes| == |old(broker.outcomes)| + 1
      ensures old(Movable(targetLive)) && (stopAt == 1 || stopAt == 2) ==>
                !moved && record == old(record.(intent := Some(Asked(wanted))))
      ensures old(Movable(targetLive)) && stopAt != 1 && stopAt != 2 ==>
                (moved <==> broker.outcomes[|old(broker.outcomes)|].Accepted?)
      ensures attempts > old(attempts) <==>
              (&& old(Movable(targetLive)) && stopAt != 1 && stopAt != 2
               && broker.outcomes[|old(broker.outcomes)|].Unanswered?)
      ensures moved ==> InStep(record, broker.chain) && record.intent.Some? && record.intent.value.confirmed
      ensures moved ==>
                record.active == if old(record).Pending() then old(record).intent.value.requested else wanted
      ensures moved ==> record.legs[0].status == broker.chain[Head(broker.chain)].status
      ensures moved ==> record.closingId == if broker.chain[Head(broker.chain)].status.IsFill()
                                            then Some(Head(broker.chain)) else old(record).closingId
    {
      moved := false;
      if !WhollyFilled(exposure.trade.filled, requested) {
        return;
      }
      if |record.legs| != 1 || record.legs[0].status.IsTerminal() || !targetLive {
        return;
      }
      var desired := if record.Pending() then record.intent.value.requested else wanted;
      var before := record.legs[0].id;
      record := record.(intent := Some(Intent(before, desired, false, None, 0)));
      if stopAt == 1 {
        return;
      }
      var outcome := broker.Replace(before, desired);
      if stopAt == 2 {
        return;
      }
      if outcome.Unanswered? {
        ReconcileOnce(broker);
        return;
      }
      var leg := StopLeg(outcome.successor, outcome.status, desired);
      AttachingClosesTheGap(record, broker.chain, leg);
      record := Attached(record, before, leg, record.intent.value);
      moved := true;
    }

    /** The intent to move the one recorded stop; an outstanding one is repeated. */
    function Asked(wanted: real): Intent
      requires |record.legs| == 1
      reads this
    {
      Intent(record.legs[0].id, if record.Pending() then record.intent.value.requested else wanted, false, None, 0)
    }

    /** Any interleaving of moves, crashes, broker events and reconciliations, while the trade is there. */
    method Run(broker: Broker, steps: nat)
      requires Valid(broker)
      modifies this, broker
      ensures Valid(broker)
    {
      var n := steps;
      while n > 0 && exposure.Active?
        invariant Valid(broker)
      {
        n := n - 1;
        if {
          case shown =>
            var wanted, live, stopAt: nat := *, *, *;
            var _ := MoveStop(broker, wanted, live, stopAt);
          case true =>
            ReconcileOnce(broker);
          case true =>
            var status :| status != Replaced;
            broker.Change(status);
        }
      }
    }
  }
}
