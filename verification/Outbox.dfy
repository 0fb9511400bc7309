/**
 * The learning outbox. A closed trade's outcome becomes durable in the write that removes the trade, and is
 * delivered to the evidence ledger afterwards; a crash may fall between any two writes.
 */
module Outbox {
  import opened Basics

  /** A measured close. `proof` is the proof run it names explicitly, if any. */
  datatype Outcome = Outcome(candidate: nat, opportunity: nat, proof: Option<nat>, content: nat)

  /** An outbox row is identified by what the ledger keys on. */
  datatype EntryId = EntryId(candidate: nat, opportunity: nat, proof: Option<nat>)

  function IdOf(o: Outcome): EntryId { EntryId(o.candidate, o.opportunity, o.proof) }

  /** An outbox row; one that cannot be read has no outcome. */
  datatype Entry = Entry(id: EntryId, attempts: nat, outcome: Option<Outcome>)
  {
    predicate Coherent() { outcome.Some? ==> id == IdOf(outcome.value) }
  }

  // ---- The ledger

  datatype Key = Plain(candidate: nat, opportunity: nat) | Scoped(candidate: nat, opportunity: nat, epoch: nat)

  datatype Row = Row(epoch: Option<nat>, outcome: Outcome)

  type Ledger = map<Key, Row>

  /** The proof state of a candidate when an outcome arrives. */
  datatype Epoch = NoShadow | Quarantined | Proven(run: nat)

  /** The deployment epoch an outcome is booked under, or nothing when it must be refused. */
  function Effective(o: Outcome, now: Epoch): Option<Option<nat>> {
    if o.proof.Some? then Some(o.proof)
    else match now
      case NoShadow => Some(None)
      case Quarantined => None
      case Proven(run) => Some(Some(run))
  }

  /** An outcome is booked under the run it names, else under the one proven by now; in quarantine it is refused. */
  lemma EpochIsNamedOrCurrent(o: Outcome, run: nat)
    ensures o.proof.None? ==> Effective(o, Quarantined).None? && Effective(o, NoShadow) == Some(None)
    ensures Effective(o, Proven(run)) == Some(Some(o.proof.GetOr(run)))
    ensures o.proof.Some? ==> Effective(o, Quarantined) == Effective(o, NoShadow) == Some(o.proof)
  {
  }

  function ScopedKey(o: Outcome, epoch: Option<nat>): Key {
    if epoch.Some? then Scoped(o.candidate, o.opportunity, epoch.value) else Plain(o.candidate, o.opportunity)
  }

  function Prior(ledger: Ledger, o: Outcome, epoch: Option<nat>): Option<Row> {
    var scoped, plain := ScopedKey(o, epoch), Plain(o.candidate, o.opportunity);
    if scoped in ledger then Some(ledger[scoped])
    else if plain in ledger then Some(ledger[plain])
    else None
  }

  /** The ledger after an outcome booked under `epoch`. */
  function Booked(ledger: Ledger, o: Outcome, epoch: Option<nat>): Ledger {
    var prior := Prior(ledger, o, epoch);
    if prior.None? then ledger[Plain(o.candidate, o.opportunity) := Row(epoch, o)]
    else if prior.value.epoch == epoch || epoch.None? then ledger
    else ledger[ScopedKey(o, epoch) := Row(epoch, o)]
  }

  predicate About(row: Row, candidate: nat, opportunity: nat) {
    row.outcome.candidate == candidate && row.outcome.opportunity == opportunity
  }

  /** Rows sit under their own keys, and no opportunity has two rows of one epoch. */
  predicate Sound(ledger: Ledger) {
    && (forall k :: k in ledger ==> About(ledger[k], k.candidate, k.opportunity))
    && (forall k :: k in ledger && k.Scoped? ==>
          (&& ledger[k].epoch == Some(k.epoch)
           && Plain(k.candidate, k.opportunity) in ledger
           && ledger[Plain(k.candidate, k.opportunity)].epoch != Some(k.epoch)))
  }

  /** A ledger row tells its opportunity and epoch apart from every other row. */
  lemma OneRowPerEpoch(ledger: Ledger, a: Key, b: Key)
    requires Sound(ledger) && a in ledger && b in ledger
    requires a.candidate == b.candidate && a.opportunity == b.opportunity && ledger[a].epoch == ledger[b].epoch
    ensures a == b
  {
  }

  /** Booking keeps the ledger sound, removes nothing, and leaves a row for the opportunity. */
  lemma BookingIsSound(ledger: Ledger, o: Outcome, epoch: Option<nat>)
    requires Sound(ledger)
    ensures Sound(Booked(ledger, o, epoch))
    ensures forall k :: k in ledger ==> k in Booked(ledger, o, epoch) && Booked(ledger, o, epoch)[k] == ledger[k]
    ensures Plain(o.candidate, o.opportunity) in Booked(ledger, o, epoch)
  {
  }

  /** The ledger ends up holding this very outcome for its epoch exactly when it held none before, or held it. */
  lemma FirstOutcomeWins(ledger: Ledger, o: Outcome, epoch: Option<nat>)
    requires Sound(ledger)
    ensures (exists k :: k in Booked(ledger, o, epoch) && Booked(ledger, o, epoch)[k] == Row(epoch, o)) <==>
            (|| (exists k :: k in ledger && ledger[k] == Row(epoch, o))
             || Prior(ledger, o, epoch).None?
             || (epoch.Some? && Prior(ledger, o, epoch).value.epoch != epoch))
  {
    var after := Booked(ledger, o, epoch);
    var prior := Prior(ledger, o, epoch);
    if prior.None? {
      assert after[Plain(o.candidate, o.opportunity)] == Row(epoch, o);
    } else if !(prior.value.epoch == epoch || epoch.None?) {
      assert after[ScopedKey(o, epoch)] == Row(epoch, o);
    }
  }

  /** The ledger has a row of this epoch for the opportunity. */
  predicate HoldsEpoch(ledger: Ledger, o: Outcome, epoch: Option<nat>) {
    && Prior(ledger, o, epoch).Some?
    && Prior(ledger, o, epoch).value.epoch == epoch
  }

  /**
   * Delivering an outcome again - after a crash between the ledger and the outbox - changes nothing exactly when
   * it is booked under the same epoch, under none, or under one the ledger already had. An outcome without an
   * explicit proof run takes the epoch of the moment, so a re-proof between the two deliveries makes the ledger
   * hold it a second time.
   */
  lemma RedeliveryIsIdleIffEpochKnown(ledger: Ledger, o: Outcome, first: Option<nat>, second: Option<nat>)
    requires Sound(ledger)
    ensures var once := Booked(ledger, o, first);
            var twice := Booked(once, o, second);
            && (twice == once <==> second == first || second.None? || HoldsEpoch(ledger, o, second))
            && (twice != once ==> ScopedKey(o, second) in twice && twice[ScopedKey(o, second)] == Row(second, o))
  {
    var once := Booked(ledger, o, first);
    if second != first && second.Some? && !HoldsEpoch(ledger, o, second) {
      assert ScopedKey(o, second) !in once;
      assert ScopedKey(o, second) in Booked(once, o, second);
    }
  }

  /** To an opportunity new to the ledger, such a redelivery adds the very same outcome under a second key. */
  lemma ReproofBooksTwice(ledger: Ledger, o: Outcome, first: Option<nat>, second: Option<nat>)
    requires Sound(ledger) && Plain(o.candidate, o.opportunity) !in ledger && second != first && second.Some?
    ensures var twice := Booked(Booked(ledger, o, first), o, second);
            && Plain(o.candidate, o.opportunity) in twice && ScopedKey(o, second) in twice
            && twice[Plain(o.candidate, o.opportunity)].outcome == o == twice[ScopedKey(o, second)].outcome
  {
    assert ScopedKey(o, second) !in ledger;
  }

  /** An outcome that names its proof run is booked at most once, whatever happens between deliveries. */
  lemma ExplicitProofIsBookedOnce(ledger: Ledger, o: Outcome, before: Epoch, after: Epoch)
    requires Sound(ledger) && o.proof.Some?
    ensures var once := Booked(ledger, o, Effective(o, before).value);
            Booked(once, o, Effective(o, after).value) == once
  {
  }

  // ---- Outbox rows

  function Ids(rows: seq<Entry>): set<EntryId> { set r | r in rows :: r.id }

  predicate DistinctIds(rows: seq<Entry>) {
    forall i, j :: 0 <= i < j < |rows| ==> rows[i].id != rows[j].id
  }

  predicate AllCoherent(rows: seq<Entry>) { forall r :: r in rows ==> r.Coherent() }

  function Deferring(row: Entry, deferred: map<EntryId, nat>): Entry {
    if row.id in deferred then row.(attempts := deferred[row.id]) else row
  }

  /** Rows whose id is not among `gone`, with the attempts of deferred ones updated. */
  ghost predicate Pruned(before: seq<Entry>, after: seq<Entry>, gone: set<EntryId>, deferred: map<EntryId, nat>) {
    && Ids(after) == Ids(before) - gone
    && (DistinctIds(before) ==> DistinctIds(after))
    && (AllCoherent(before) ==> AllCoherent(after))
    && (forall r :: r in after ==> exists q :: q in before && r == Deferring(q, deferred))
  }

  /** Merges pending outcomes into the outbox, each id once; what is there stays as it is. */
  method Queue(existing: seq<Entry>, pending: seq<Entry>) returns (rows: seq<Entry>)
    ensures existing <= rows
    ensures Ids(rows) == Ids(existing) + Ids(pending)
    ensures DistinctIds(existing) ==> DistinctIds(rows)
    ensures AllCoherent(existing) && AllCoherent(pending) ==> AllCoherent(rows)
  {
    rows := existing;
    var known := Ids(rows);
    var k := 0;
    while k < |pending|
      invariant 0 <= k <= |pending|
      invariant existing <= rows
      invariant known == Ids(rows) == Ids(existing) + Ids(pending[..k])
      invariant DistinctIds(existing) ==> DistinctIds(rows)
      invariant AllCoherent(existing) && AllCoherent(pending) ==> AllCoherent(rows)
    {
      var row := pending[k];
      assert pending[..k + 1] == pending[..k] + [row];
      if row.id !in known {
        assert forall i :: 0 <= i < |rows| ==> rows[i].id in Ids(rows);
        rows := rows + [row];
        known := known + {row.id};
      }
      k := k + 1;
    }
    assert pending[..k] == pending;
  }

  lemma IdsGrow(rows: seq<Entry>, row: Entry)
    ensures Ids(rows + [row]) == Ids(rows) + {row.id}
    ensures AllCoherent(rows + [row]) <==> AllCoherent(rows) && row.Coherent()
  {
  }

  lemma NextRow(rows: seq<Entry>, k: nat)
    requires k < |rows| && AllCoherent(rows)
    ensures rows[k].Coherent() && rows[k] in rows && Ids(rows[..k + 1]) == Ids(rows[..k]) + {rows[k].id}
  {
    assert rows[..k + 1] == rows[..k] + [rows[k]];
    IdsGrow(rows[..k], rows[k]);
  }

  lemma FewerIds(rows: seq<Entry>, k: nat)
    requires k <= |rows|
    ensures Ids(rows[..k]) <= Ids(rows)
  {
  }

  /** Some row with this id had one attempt fewer. */
  predicate DeferredOnce(rows: seq<Entry>, id: EntryId, attempts: nat) {
    exists r :: r in rows && r.id == id && attempts == r.attempts + 1
  }

  lemma IsDeferredOnce(rows: seq<Entry>, row: Entry)
    requires row in rows
    ensures DeferredOnce(rows, row.id, row.attempts + 1)
  {
  }

  /** One row of the walk is dropped or kept. */
  lemma PruneStep(before: seq<Entry>, after: seq<Entry>, gone: set<EntryId>, deferred: map<EntryId, nat>, row: Entry)
    requires Pruned(before, after, gone, deferred)
    ensures Pruned(before + [row], if row.id in gone then after else after + [Deferring(row, deferred)], gone, deferred)
  {
    hide DistinctIds, AllCoherent, Ids;
    var kept := Deferring(row, deferred);
    IdsGrow(before, row);
    IdsGrow(after, kept);
    DistinctGrows(before, row);
    DistinctGrows(after, kept);
    assert row in before + [row];
    forall r | r in after
      ensures exists q :: q in before + [row] && r == Deferring(q, deferred)
    {
      var q :| q in before && r == Deferring(q, deferred);
      assert q in before + [row];
    }
  }

  lemma DistinctGrows(rows: seq<Entry>, row: Entry)
    ensures DistinctIds(rows + [row]) <==> DistinctIds(rows) && row.id !in Ids(rows)
  {
    var all := rows + [row];
    assert all[|rows|] == row && forall i :: 0 <= i < |rows| ==> all[i] == rows[i];
    assert forall i :: 0 <= i < |rows| ==> rows[i].id in Ids(rows);
  }

  lemma NothingPruned(gone: set<EntryId>, deferred: map<EntryId, nat>)
    ensures Pruned([], [], gone, deferred)
  {
  }

  method Prune(latest: seq<Entry>, settled: set<EntryId>, deferred: map<EntryId, nat>) returns (kept: seq<Entry>)
    ensures Pruned(latest, kept, settled, deferred)
  {
    hide Pruned;
    kept := [];
    NothingPruned(settled, deferred);
    var k := 0;
    while k < |latest|
      invariant 0 <= k <= |latest|
      invariant Pruned(latest[..k], kept, settled, deferred)
    {
      var row := latest[k];
      assert latest[..k + 1] == latest[..k] + [row];
      PruneStep(latest[..k], kept, settled, deferred, row);
      k := k + 1;
      if row.id in settled {
        continue;
      }
      if row.id in deferred {
        row := row.(attempts := deferred[row.id]);
      }
      kept := kept + [row];
    }
    assert latest[..k] == latest;
  }

  /** What is still queued of the rows just delivered is deferred, with one more attempt. */
  lemma LeftoversAreDeferred(before: seq<Entry>, after: seq<Entry>, rows: seq<Entry>, gone: set<EntryId>,
                             deferred: map<EntryId, nat>)
    requires Pruned(before, after, gone, deferred) && Ids(rows) == gone + deferred.Keys
    requires forall id :: id in deferred ==> DeferredOnce(rows, id, deferred[id])
    ensures forall r :: r in after && r.id in Ids(rows) ==> DeferredOnce(rows, r.id, r.attempts)
  {
    hide DeferredOnce, DistinctIds, AllCoherent;
    forall r | r in after && r.id in Ids(rows)
      ensures DeferredOnce(rows, r.id, r.attempts)
    {
      assert r.id in Ids(after);
    }
  }

  // ---- The engine

  datatype Delivery = Ingested | Refused | Deferred

  class Engine {
    // durable
    var outbox: seq<Entry>
    var ledger: Ledger
    var rejected: set<EntryId>          // journalled as lost
    var closed: set<EntryId>            // outcomes of trades whose removal is durable
    // volatile
    var pending: seq<Entry>
    var view: seq<Entry>                // the last book this process wrote or read
    ghost var answers: seq<Delivery>    // of every delivery made

    constructor ()
      ensures Valid() && outbox == [] && ledger == map[] && closed == {}
    {
      outbox, ledger, rejected, closed, pending, view, answers := [], map[], {}, {}, [], [], [];
    }

    /** In the ledger, under its opportunity. */
    predicate Delivered(id: EntryId)
      reads this`ledger
    {
      Plain(id.candidate, id.opportunity) in ledger
    }

    /**
     * The outbox holds no id twice, the ledger is sound, and every outcome of a durably closed trade is in the
     * outbox, in the ledger, or journalled as rejected.
     */
    ghost predicate Valid()
      reads this
    {
      && DistinctIds(outbox)
      && AllCoherent(outbox) && AllCoherent(pending) && AllCoherent(view)
      && Sound(ledger)
      && (forall id :: id in closed ==> id in Ids(outbox) || Delivered(id) || id in rejected)
    }

    /** A close is booked: its outcome waits for the next write of the book. */
    method Record(o: Outcome)
      requires Valid()
      modifies this`pending
      ensures Valid() && pending == old(pending) + [Entry(IdOf(o), 0, Some(o))]
    {
      pending := pending + [Entry(IdOf(o), 0, Some(o))];
    }

    /** The one write that removes closed trades and queues their outcomes. */
    method Commit()
      requires Valid()
      modifies this
      ensures Valid() && pending == [] && old(outbox) <= outbox
      ensures closed == old(closed) + Ids(old(pending))
      ensures ledger == old(ledger) && rejected == old(rejected)
    {
      outbox := Queue(outbox, pending);
      closed := closed + Ids(pending);
      pending, view := [], outbox;
    }

    /** One delivery. The ledger write may take effect although the call fails afterwards. */
    method Deliver(o: Outcome, now: Epoch) returns (d: Delivery)
      requires Sound(ledger)
      modifies this`ledger, this`answers
      ensures Sound(ledger) && answers == old(answers) + [d]
      ensures Effective(o, now).None? ==> d.Refused? && ledger == old(ledger)
      ensures ledger == old(ledger) || ledger == Booked(old(ledger), o, Effective(o, now).value)
      ensures forall k :: k in old(ledger) ==> k in ledger && ledger[k] == old(ledger)[k]
      ensures d.Ingested? ==>
                (&& Effective(o, now).Some?
                 && ledger == Booked(old(ledger), o, Effective(o, now).value)
                 && Delivered(IdOf(o)))
    {
      var d0: Delivery := *;
      d := if d0.Ingested? then Deferred else d0;
      if Effective(o, now).None? {
        d := Refused;
      } else if * {
        BookingIsSound(ledger, o, Effective(o, now).value);
        ledger := Booked(ledger, o, Effective(o, now).value);
        d := if d0.Ingested? then Ingested else Deferred;
      }
      answers := answers + [d];
    }

    /** A row that cannot be read is rejected unasked; any other is treated as its one delivery is answered. */
    twostate predicate Settles(row: Entry, attempts: Option<nat>)
      reads this
    {
      if row.outcome.None? then
        attempts.None? && rejected == old(rejected) + {row.id} && answers == old(answers)
      else
        && |answers| == |old(answers)| + 1 && answers[..|old(answers)|] == old(answers)
        && var d := answers[|old(answers)|];
           (&& (attempts.Some? <==> d.Deferred?)
            && rejected == if d.Refused? then old(rejected) + {row.id} else old(rejected))
    }

    /** One row: settled, or deferred with one more attempt. A row that cannot be read is settled as rejected. */
    method DeliverRow(row: Entry, now: Epoch) returns (attempts: Option<nat>)
      requires Sound(ledger) && row.Coherent()
      modifies this`ledger, this`rejected, this`answers
      ensures Sound(ledger) && KeepsLedger(old(ledger)) && old(rejected) <= rejected
      ensures attempts.None? ==> Delivered(row.id) || row.id in rejected
      ensures attempts.Some? ==> attempts.value == row.attempts + 1 && row.outcome.Some?
      ensures Settles(row, attempts)
    {
      attempts := None;
      if row.outcome.None? {
        rejected := rejected + {row.id};
        return;
      }
      var d := Deliver(row.outcome.value, now);
      match d
      case Ingested =>
      case Refused =>
        rejected := rejected + {row.id};
      case Deferred =>
        attempts := Some(row.attempts + 1);
    }

    /** Nothing the ledger held is gone or changed. */
    predicate KeepsLedger(before: Ledger)
      reads this`ledger
    {
      forall k :: k in before ==> k in ledger && ledger[k] == before[k]
    }

    /** Delivers rows one by one; the process may stop after any of them. */
    method DeliverAll(rows: seq<Entry>, now: Epoch, stopAt: nat)
      returns (settled: set<EntryId>, deferred: map<EntryId, nat>)
      requires Sound(ledger) && AllCoherent(rows)
      modifies this`ledger, this`rejected, this`answers
      ensures Sound(ledger) && KeepsLedger(old(ledger)) && old(rejected) <= rejected
      ensures settled <= Ids(rows) && rejected <= old(rejected) + settled
      ensures forall id :: id in settled ==> Delivered(id) || id in rejected
      ensures forall id :: id in deferred ==> DeferredOnce(rows, id, deferred[id])
      ensures stopAt >= |rows| ==> Ids(rows) == settled + deferred.Keys
    {
      hide Sound, Settles, Entry.Coherent, DeferredOnce;
      settled, deferred := {}, map[];
      var k := 0;
      while k < |rows| && k < stopAt
        invariant 0 <= k <= |rows|
        invariant Sound(ledger) && KeepsLedger(old(ledger)) && old(rejected) <= rejected
        invariant rejected <= old(rejected) + settled
        invariant settled + deferred.Keys == Ids(rows[..k])
        invariant forall id :: id in settled ==> Delivered(id) || id in rejected
        invariant forall id :: id in deferred ==> DeferredOnce(rows, id, deferred[id])
      {
        hide AllCoherent, Ids, KeepsLedger;
        var row := rows[k];
        NextRow(rows, k);
        var attempts := DeliverRow(row, now);
        if attempts.None? {
          settled := settled + {row.id};
        } else {
          IsDeferredOnce(rows, row);
          deferred := deferred[row.id := attempts.value];
        }
        k := k + 1;
      }
      assert k == |rows| ==> rows[..k] == rows;
      FewerIds(rows, k);
    }

    /**
     * Delivers what this process last wrote, then prunes it from the book as it is by then. `arrivals` are rows
     * queued meanwhile; `stopAt` is where the process stops, if it does before pruning.
     */
    method Drain(arrivals: seq<Entry>, now: Epoch, stopAt: nat)
      requires Valid() && AllCoherent(arrivals)
      modifies this
      ensures Valid() && pending == old(pending)
      ensures view == if stopAt > |old(view)| then outbox else old(view)
      ensures closed == old(closed) + Ids(arrivals)
      ensures Ids(old(outbox)) - Ids(old(view)) <= Ids(outbox)
      ensures Ids(arrivals) - Ids(old(view)) <= Ids(outbox)
      ensures stopAt > |old(view)| ==>
                forall r :: r in outbox && r.id in Ids(old(view)) ==> DeferredOnce(old(view), r.id, r.attempts)
      ensures forall k :: k in old(ledger) ==> k in ledger && ledger[k] == old(ledger)[k]
    {
      var settled, deferred := DeliverAll(view, now, stopAt);
      outbox := Queue(outbox, arrivals);
      closed := closed + Ids(arrivals);
      if stopAt <= |view| {
        return;
      }
      ghost var merged := outbox;
      outbox := Prune(outbox, settled, deferred);
      LeftoversAreDeferred(merged, outbox, view, settled, deferred);
      view := outbox;
    }

    /** A restart forgets what was not written and reads the book again. */
    method Restart()
      requires Valid()
      modifies this`pending, this`view
      ensures Valid() && pending == []
    {
      pending, view := [], outbox;
    }

    /** Any interleaving of closes, writes, deliveries and crashes. */
    method Run(steps: nat)
      requires Valid()
      modifies this
      ensures Valid() && old(closed) <= closed
      ensures forall k :: k in old(ledger) ==> k in ledger && ledger[k] == old(ledger)[k]
    {
      var n := steps;
      while n > 0
        invariant Valid() && old(closed) <= closed
        invariant forall k :: k in old(ledger) ==> k in ledger && ledger[k] == old(ledger)[k]
      {
        n := n - 1;
        var o: Outcome, now: Epoch, stopAt: nat := *, *, *;
        if {
          case true => Record(o);
          case true => Commit();
          case true => Drain([], now, stopAt);
          case true => Drain([Entry(IdOf(o), 0, Some(o))], now, stopAt);
          case true => Restart();
        }
      }
    }
  }
}
