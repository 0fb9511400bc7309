/**
 * Successive exposures over one durable order book: close rows stay in the book after their exposure is gone, so
 * what keeps one exposure's closes out of the next one's books is the entry that each row names.
 */
module Exposures {
  import opened Basics
  import opened CloseJournal
  import opened Settlement

  /** Every booking comes from a close order recorded for the entry, or for the lack of one, it is booked under. */
  predicate Own(orders: map<nat, CloseRow>, journal: seq<Booking>) {
    forall b :: b in journal ==> OwnBooking(orders, b)
  }

  predicate OwnBooking(orders: map<nat, CloseRow>, b: Booking) {
    b.key.close in orders && orders[b.key.close].parent == b.key.entry
  }

  // ---- What can go wrong

  /** A bound row that is not the trade's own: it has no entry, or the trade has none and the row does. */
  predicate Foreign(t: Trade, row: CloseRow) { t.entryId.Some? == row.parent.None? }

  /** Such a row has a fill that this pass books: final, beyond its progress, with room in the entry. */
  predicate BooksForeign(t: Trade, entries: seq<CloseRow>, visible: bool) {
    exists k :: 0 <= k < |entries| && Foreign(t, entries[k]) && HasNewFill(t, entries, visible, k)
  }

  predicate HasNewFill(t: Trade, entries: seq<CloseRow>, visible: bool, k: nat)
    requires k < |entries|
  {
    && Eligible(entries[k], Initial(t), visible)
    && Raw(entries[k], Initial(t)) > Max(0.0, entries[k].logged)
    && TakenTotal(t, entries[..k], visible) < Initial(t)
  }

  /** The broker fallback overwrites a row whose fills are booked under another entry. */
  predicate TakesOver(t: Trade, orders: map<nat, CloseRow>, listed: map<nat, BrokerOrder>, journal: seq<Booking>) {
    && NeedsFallback(t, orders, listed)
    && exists b :: b in journal && BookedElsewhere(b, t)
  }

  predicate BookedElsewhere(b: Booking, t: Trade) {
    b.key.entry != t.entryId && Some(b.key.close) == t.closingId
  }

  // ---- One pass

  /** The book after the rows' progress is written back. */
  function Stored(orders: map<nat, CloseRow>, rows: seq<CloseRow>): map<nat, CloseRow> {
    if rows == [] then orders
    else Stored(orders, rows[..|rows| - 1])[rows[|rows| - 1].id := rows[|rows| - 1]]
  }

  /** Rows of the book with other progress. */
  predicate Progress(orders: map<nat, CloseRow>, rows: seq<CloseRow>) {
    forall r :: r in rows ==>
      r.id in orders && orders[r.id] == r.(logged := orders[r.id].logged, loggedAverage := orders[r.id].loggedAverage)
  }

  /** The same rows, apart from the progress of booking them. */
  predicate SameRows(a: map<nat, CloseRow>, b: map<nat, CloseRow>) {
    && a.Keys == b.Keys
    && forall k :: k in a ==> b[k] == a[k].(logged := b[k].logged, loggedAverage := b[k].loggedAverage)
  }

  lemma {:induction false} StoringKeepsRows(orders: map<nat, CloseRow>, rows: seq<CloseRow>)
    requires Keyed(orders) && Progress(orders, rows)
    ensures SameRows(orders, Stored(orders, rows)) && Keyed(Stored(orders, rows))
  {
    if rows != [] {
      StoringKeepsRows(orders, rows[..|rows| - 1]);
    }
  }

  lemma {:induction false} PassKeepsRows(t: Trade, rows: seq<CloseRow>, visible: bool, journal: seq<Booking>)
    ensures var p := BookAll(t, rows, visible, journal);
            forall i :: 0 <= i < |rows| ==>
              rows[i] == p.rows[i].(logged := rows[i].logged, loggedAverage := rows[i].loggedAverage)
  {
    hide BookingOf;
    if rows != [] {
      PassKeepsRows(t, rows[..|rows| - 1], visible, journal);
    }
  }

  /** A turn only appends, a booking of its own order, and leaves one there if the order has a new fill. */
  lemma TurnAppends(t: Trade, row: CloseRow, visible: bool, allotted: real, journal: seq<Booking>)
    ensures var after := TakeTurn(t, row, visible, allotted, journal).journal;
            && (forall b :: b in journal ==> b in after)
            && (forall b :: b in after ==> b in journal || (NewFill(t, row, visible, allotted) && IsOf(b, t, row)))
            && (NewFill(t, row, visible, allotted) ==> HasBooking(after, t, row))
  {
    hide Gross, Fee, BookingPrice;
    var after := TakeTurn(t, row, visible, allotted, journal).journal;
    if NewFill(t, row, visible, allotted) {
      var b := BookingOf(t, row, Unbooked(row, Initial(t), allotted));
      if i :| 0 <= i < |journal| && journal[i].key == b.key {
        assert journal[i] in after && IsOf(journal[i], t, row);
      } else {
        assert b in after && IsOf(b, t, row);
      }
    }
  }

  predicate NewFill(t: Trade, row: CloseRow, visible: bool, allotted: real) {
    && Eligible(row, Initial(t), visible)
    && Raw(row, Initial(t)) > Max(0.0, row.logged)
    && allotted < Initial(t)
  }

  predicate IsOf(b: Booking, t: Trade, row: CloseRow) { Concerns(b, t.entryId, row.id) }

  predicate HasBooking(journal: seq<Booking>, t: Trade, row: CloseRow) {
    exists b :: b in journal && IsOf(b, t, row)
  }

  predicate FromNewFill(t: Trade, entries: seq<CloseRow>, visible: bool, b: Booking) {
    exists k :: 0 <= k < |entries| && HasNewFill(t, entries, visible, k) && IsOf(b, t, entries[k])
  }

  /** So does a whole pass: what it adds belongs to orders with a new fill, and each of those has a booking. */
  lemma {:induction false} PassAppends(t: Trade, entries: seq<CloseRow>, visible: bool, journal: seq<Booking>)
    ensures var after := BookAll(t, entries, visible, journal).journal;
            && (forall b :: b in journal ==> b in after)
            && (forall b :: b in after ==> b in journal || FromNewFill(t, entries, visible, b))
            && (forall k :: 0 <= k < |entries| && HasNewFill(t, entries, visible, k) ==>
                  HasBooking(after, t, entries[k]))
  {
    hide TakeTurn, IsOf, HasNewFill, NewFill;
    if entries != [] {
      var n := |entries| - 1;
      var before := BookAll(t, entries[..n], visible, journal);
      PassAppends(t, entries[..n], visible, journal);
      TurnAppends(t, entries[n], visible, before.allotted, before.journal);
      NewFillOfLast(t, entries, visible, journal);
      forall k | 0 <= k < n
        ensures HasNewFill(t, entries[..n], visible, k) <==> HasNewFill(t, entries, visible, k)
      {
        NewFillEarlier(t, entries, visible, k);
      }
      forall b | b in before.journal && b !in journal
        ensures FromNewFill(t, entries, visible, b)
      {
        var k :| 0 <= k < n && HasNewFill(t, entries[..n], visible, k) && IsOf(b, t, entries[k]);
        assert HasNewFill(t, entries, visible, k);
      }
    }
  }

  lemma NewFillEarlier(t: Trade, entries: seq<CloseRow>, visible: bool, k: nat)
    requires k < |entries| - 1
    ensures HasNewFill(t, entries[..|entries| - 1], visible, k) <==> HasNewFill(t, entries, visible, k)
  {
    assert entries[..|entries| - 1][..k] == entries[..k];
  }

  lemma NewFillOfLast(t: Trade, entries: seq<CloseRow>, visible: bool, journal: seq<Booking>)
    requires entries != []
    ensures var n := |entries| - 1;
            HasNewFill(t, entries, visible, n) <==>
            NewFill(t, entries[n], visible, BookAll(t, entries[..n], visible, journal).allotted)
  {
    var n := |entries| - 1;
    if Initial(t) >= 0.0 {
      PassNeverOverbooks(t, entries[..n], visible, journal);
    }
  }

  /**
   * One pass for one trade, in a book that keeps the rows of earlier exposures: every booking still comes from
   * its own entry's orders exactly when the pass neither books a row that is not the trade's nor lets the broker
   * fallback overwrite a row that another entry booked.
   */
  lemma PassKeepsOwnIff(t: Trade, orders: map<nat, CloseRow>, listed: map<nat, BrokerOrder>, visible: bool,
                        journal: seq<Booking>, entries: seq<CloseRow>)
    requires Keyed(orders) && Own(orders, journal)
    requires Enumerates(entries, t, WithFallback(t, orders, listed))
    ensures var p := BookAll(t, entries, visible, journal);
            Own(Stored(WithFallback(t, orders, listed), p.rows), p.journal) <==>
            !TakesOver(t, orders, listed, journal) && !BooksForeign(t, entries, visible)
  {
    hide HasNewFill, BookAll, Binds, NeedsFallback, OwnBooking, Enumerates, Own;
    var p := BookAll(t, entries, visible, journal);
    StoredPass(t, WithFallback(t, orders, listed), entries, visible, journal);
    PassAppends(t, entries, visible, journal);
    if TakesOver(t, orders, listed, journal) {
      var b :| b in journal && BookedElsewhere(b, t);
      TakenOver(t, orders, listed, b, p);
    } else if BooksForeign(t, entries, visible) {
      var k :| 0 <= k < |entries| && Foreign(t, entries[k]) && HasNewFill(t, entries, visible, k);
      var b :| b in p.journal && IsOf(b, t, entries[k]);
      ForeignIsNotOwn(t, WithFallback(t, orders, listed), entries, k, b, p);
    } else {
      CleanPassKeepsOwn(t, orders, listed, visible, journal, entries);
    }
  }

  lemma TakenOver(t: Trade, orders: map<nat, CloseRow>, listed: map<nat, BrokerOrder>, b: Booking, p: Pass)
    requires NeedsFallback(t, orders, listed) && BookedElsewhere(b, t) && b in p.journal
    requires SameRows(WithFallback(t, orders, listed), Stored(WithFallback(t, orders, listed), p.rows))
    ensures !Own(Stored(WithFallback(t, orders, listed), p.rows), p.journal)
  {
    assert !OwnBooking(Stored(WithFallback(t, orders, listed), p.rows), b);
  }

  lemma ForeignIsNotOwn(t: Trade, book: map<nat, CloseRow>, entries: seq<CloseRow>, k: nat, b: Booking, p: Pass)
    requires Enumerates(entries, t, book) && SameRows(book, Stored(book, p.rows))
    requires k < |entries| && Foreign(t, entries[k])
    requires b in p.journal && IsOf(b, t, entries[k])
    ensures !Own(Stored(book, p.rows), p.journal)
  {
    hide Binds;
    assert entries[k] in entries;
    assert !OwnBooking(Stored(book, p.rows), b);
  }

  lemma CleanPassKeepsOwn(t: Trade, orders: map<nat, CloseRow>, listed: map<nat, BrokerOrder>, visible: bool,
                          journal: seq<Booking>, entries: seq<CloseRow>)
    requires Keyed(orders) && Own(orders, journal)
    requires Enumerates(entries, t, WithFallback(t, orders, listed))
    requires !TakesOver(t, orders, listed, journal) && !BooksForeign(t, entries, visible)
    ensures var p := BookAll(t, entries, visible, journal);
            Own(Stored(WithFallback(t, orders, listed), p.rows), p.journal)
  {
    hide HasNewFill, BookAll, Binds;
    var book := WithFallback(t, orders, listed);
    var p := BookAll(t, entries, visible, journal);
    StoredPass(t, book, entries, visible, journal);
    PassAppends(t, entries, visible, journal);
    forall b | b in p.journal
      ensures OwnBooking(Stored(book, p.rows), b)
    {
      if b in journal {
        assert OwnBooking(orders, b);
        assert BookedElsewhere(b, t) ==> !NeedsFallback(t, orders, listed);
      } else {
        var k :| 0 <= k < |entries| && HasNewFill(t, entries, visible, k) && IsOf(b, t, entries[k]);
        assert entries[k] in entries;
        BoundToOwnEntry(t, entries[k]);
      }
    }
  }

  lemma BoundToOwnEntry(t: Trade, row: CloseRow)
    requires Binds(t, row)
    ensures Foreign(t, row) <==> row.parent != t.entryId
  {
  }

  lemma StoredPass(t: Trade, book: map<nat, CloseRow>, entries: seq<CloseRow>, visible: bool, journal: seq<Booking>)
    requires Keyed(book) && Enumerates(entries, t, book)
    ensures var p := BookAll(t, entries, visible, journal);
            Progress(book, p.rows) && SameRows(book, Stored(book, p.rows)) && Keyed(Stored(book, p.rows))
  {
    hide BookAll, Binds;
    var p := BookAll(t, entries, visible, journal);
    PassKeepsRows(t, entries, visible, journal);
    forall r | r in p.rows
      ensures r.id in book && book[r.id] == r.(logged := book[r.id].logged, loggedAverage := book[r.id].loggedAverage)
    {
      var i :| 0 <= i < |p.rows| && p.rows[i] == r;
      assert entries[i] in entries;
    }
    StoringKeepsRows(book, p.rows);
  }

  /** Writing the fallback alone keeps it on the same condition. */
  lemma FallbackKeepsOwnIff(t: Trade, orders: map<nat, CloseRow>, listed: map<nat, BrokerOrder>, journal: seq<Booking>)
    requires Own(orders, journal)
    ensures Own(WithFallback(t, orders, listed), journal) <==> !TakesOver(t, orders, listed, journal)
  {
    hide Binds;
    var book := WithFallback(t, orders, listed);
    if TakesOver(t, orders, listed, journal) {
      var b :| b in journal && BookedElsewhere(b, t);
      assert !OwnBooking(book, b);
    } else {
      forall b | b in journal
        ensures OwnBooking(book, b)
      {
        assert OwnBooking(orders, b);
        assert BookedElsewhere(b, t) ==> !NeedsFallback(t, orders, listed);
      }
    }
  }

  // ---- Runs

  datatype State = State(orders: map<nat, CloseRow>, journal: seq<Booking>)

  /** One thing that happens to the book and the journal; the rows of a pass are those bound to its trade. */
  datatype Step =
    | Record(row: CloseRow)                                                              // a close order is sent
    | Observe(id: nat, view: CloseView)                                                  // evidence for it
    | Journals(t: Trade, listed: map<nat, BrokerOrder>, visible: bool, entries: seq<CloseRow>)
    | Settles(t: Trade, listed: map<nat, BrokerOrder>, entries: seq<CloseRow>, sum: Totals)

  /** The broker's ids are new, evidence is about known orders, and passes work on the bound rows. */
  ghost predicate Enabled(s: State, step: Step) {
    match step
    case Record(row) => row.id !in s.orders
    case Observe(id, _) => id in s.orders
    case Journals(t, listed, _, entries) => Enumerates(entries, t, WithFallback(t, s.orders, listed))
    case Settles(t, listed, entries, sum) =>
      Enumerates(entries, t, WithFallback(t, s.orders, listed)) && sum == Accounted(t, entries)
  }

  function After(s: State, step: Step): State {
    match step
    case Record(row) => s.(orders := s.orders[row.id := row])
    case Observe(id, view) =>
      if id in s.orders
      then s.(orders := s.orders[id := s.orders[id].(status := view.status, filled := view.filled,
                                                     average := view.average)])
      else s
    case Journals(t, listed, visible, entries) =>
      var p := BookAll(t, entries, visible, s.journal);
      State(Stored(WithFallback(t, s.orders, listed), p.rows), p.journal)
    case Settles(t, listed, _, _) => s.(orders := WithFallback(t, s.orders, listed))
  }

  /** Nothing speaks against the step: decided before it, from the book, the journal and the trade. */
  predicate Clean(s: State, step: Step) {
    match step
    case Record(_) => true
    case Observe(_, _) => true
    case Journals(t, listed, visible, entries) =>
      !TakesOver(t, s.orders, listed, s.journal) && !BooksForeign(t, entries, visible)
    case Settles(t, listed, _, _) =>
      var book := WithFallback(t, s.orders, listed);
      && !TakesOver(t, s.orders, listed, s.journal)
      && !(if t.entryId.Some? then NamesParentless(t, book) else InheritsCloses(t, book))
  }

  /** What is settled is added up from the trade's own rows. */
  predicate SettlesOwn(step: Step) {
    step.Settles? ==> forall r :: r in step.entries ==> r.parent == step.t.entryId
  }

  ghost predicate OwnState(s: State) { Own(s.orders, s.journal) }

  function Run(s: State, steps: seq<Step>): State {
    if steps == [] then s else After(Run(s, steps[..|steps| - 1]), steps[|steps| - 1])
  }

  ghost predicate Legal(s: State, steps: seq<Step>) {
    forall n :: 0 <= n < |steps| ==> Enabled(Run(s, steps[..n]), steps[n])
  }

  /** In every state each booking is its entry's own, and every settlement is added up from own rows. */
  ghost predicate NeverMixes(s: State, steps: seq<Step>) {
    OwnState(s) && forall n :: 0 <= n < |steps| ==> StaysOwn(s, steps, n)
  }

  ghost predicate StaysOwn(s: State, steps: seq<Step>, n: nat)
    requires n < |steps|
  {
    OwnState(Run(s, steps[..n + 1])) && SettlesOwn(steps[n])
  }

  ghost predicate AllClean(s: State, steps: seq<Step>) {
    forall n :: 0 <= n < |steps| ==> Clean(Run(s, steps[..n]), steps[n])
  }

  /** One step from a book that keeps earlier exposures' rows keeps exposures apart exactly when it is clean. */
  lemma StepIsOwnIffClean(s: State, step: Step)
    requires Keyed(s.orders) && OwnState(s) && Enabled(s, step)
    ensures OwnState(After(s, step)) && SettlesOwn(step) <==> Clean(s, step)
  {
    hide BookAll, Enumerates, TakesOver, BooksForeign, NamesParentless, InheritsCloses, OwnBooking;
    match step
    case Record(row) => RowsKeepOwn(s, After(s, step).orders);
    case Observe(id, view) => RowsKeepOwn(s, After(s, step).orders);
    case Journals(t, listed, visible, entries) =>
      PassKeepsOwnIff(t, s.orders, listed, visible, s.journal, entries);
    case Settles(t, listed, entries, sum) =>
      FallbackKeepsOwnIff(t, s.orders, listed, s.journal);
      FallbackIsKeyed(t, s.orders, listed);
      EntriesAreOwn(t, WithFallback(t, s.orders, listed), entries);
  }

  /** A booking stays its entry's own as long as its order keeps that entry. */
  lemma RowsKeepOwn(s: State, orders: map<nat, CloseRow>)
    requires OwnState(s) && s.orders.Keys <= orders.Keys
    requires forall k :: k in s.orders ==> orders[k].parent == s.orders[k].parent
    ensures Own(orders, s.journal)
  {
    forall b | b in s.journal
      ensures OwnBooking(orders, b)
    {
      assert OwnBooking(s.orders, b);
    }
  }

  lemma FallbackIsKeyed(t: Trade, orders: map<nat, CloseRow>, listed: map<nat, BrokerOrder>)
    requires Keyed(orders)
    ensures Keyed(WithFallback(t, orders, listed))
  {
    hide NeedsFallback;
  }

  lemma StepKeepsKeys(s: State, step: Step)
    requires Keyed(s.orders) && Enabled(s, step)
    ensures Keyed(After(s, step).orders)
  {
    hide BookAll, Enumerates;
    if step.Journals? || step.Settles? {
      FallbackIsKeyed(step.t, s.orders, step.listed);
    }
    if step.Journals? {
      StoredPass(step.t, WithFallback(step.t, s.orders, step.listed), step.entries, step.visible, s.journal);
    }
  }

  /**
   * Over any run of close orders, evidence and passes for successive trades, with the rows of earlier exposures
   * still in the book: every journalled quantity is booked under its own entry, and every settlement is added up
   * from the trade's own rows, exactly when every step is clean.
   */
  lemma {:induction false} ExposuresNeverMixIffClean(s: State, steps: seq<Step>)
    requires Keyed(s.orders) && OwnState(s) && Legal(s, steps)
    ensures NeverMixes(s, steps) <==> AllClean(s, steps)
    ensures Keyed(Run(s, steps).orders)
  {
    hide Clean, Enabled, After, SettlesOwn, OwnState, NeverMixes, AllClean, Legal;
    if steps == [] {
      NothingHappens(s);
    } else {
      var n := |steps| - 1;
      Earlier(s, steps);
      ExposuresNeverMixIffClean(s, steps[..n]);
      StepKeepsKeys(Run(s, steps[..n]), steps[n]);
      if NeverMixes(s, steps[..n]) {
        EndsOwn(s, steps[..n]);
        StepIsOwnIffClean(Run(s, steps[..n]), steps[n]);
      }
    }
  }

  /** The last step adds its own condition to those of the steps before it. */
  lemma Earlier(s: State, steps: seq<Step>)
    requires steps != []
    ensures var n := |steps| - 1;
            && (Legal(s, steps) <==> Legal(s, steps[..n]) && Enabled(Run(s, steps[..n]), steps[n]))
            && (AllClean(s, steps) <==> AllClean(s, steps[..n]) && Clean(Run(s, steps[..n]), steps[n]))
            && (NeverMixes(s, steps) <==>
                NeverMixes(s, steps[..n]) && OwnState(Run(s, steps)) && SettlesOwn(steps[n]))
  {
    hide *;
    EarlierLegal(s, steps);
    EarlierClean(s, steps);
    EarlierOwn(s, steps);
  }

  lemma EarlierLegal(s: State, steps: seq<Step>)
    requires steps != []
    ensures var n := |steps| - 1;
            Legal(s, steps) <==> Legal(s, steps[..n]) && Enabled(Run(s, steps[..n]), steps[n])
  {
    hide Enabled, Run;
    var n := |steps| - 1;
    forall i | 0 <= i < n
      ensures Enabled(Run(s, steps[..n][..i]), steps[..n][i]) <==> Enabled(Run(s, steps[..i]), steps[i])
    {
      assert steps[..n][..i] == steps[..i];
    }
  }

  lemma EarlierClean(s: State, steps: seq<Step>)
    requires steps != []
    ensures var n := |steps| - 1;
            AllClean(s, steps) <==> AllClean(s, steps[..n]) && Clean(Run(s, steps[..n]), steps[n])
  {
    hide Clean, Run;
    var n := |steps| - 1;
    forall i | 0 <= i < n
      ensures Clean(Run(s, steps[..n][..i]), steps[..n][i]) <==> Clean(Run(s, steps[..i]), steps[i])
    {
      assert steps[..n][..i] == steps[..i];
    }
  }

  lemma EarlierOwn(s: State, steps: seq<Step>)
    requires steps != []
    ensures var n := |steps| - 1;
            NeverMixes(s, steps) <==> NeverMixes(s, steps[..n]) && OwnState(Run(s, steps)) && SettlesOwn(steps[n])
  {
    hide OwnState, SettlesOwn, Run;
    var n := |steps| - 1;
    assert steps[..n + 1] == steps;
    assert StaysOwn(s, steps, n) <==> OwnState(Run(s, steps)) && SettlesOwn(steps[n]);
    forall i | 0 <= i < n
      ensures StaysOwn(s, steps[..n], i) <==> StaysOwn(s, steps, i)
    {
      assert steps[..n][..i + 1] == steps[..i + 1];
    }
  }

  lemma NothingHappens(s: State)
    ensures NeverMixes(s, []) <==> OwnState(s)
    ensures AllClean(s, []) && Run(s, []) == s
  {
    hide OwnState;
  }

  /** The state a run ends in is one of those it speaks of. */
  lemma EndsOwn(s: State, steps: seq<Step>)
    requires NeverMixes(s, steps)
    ensures OwnState(Run(s, steps))
  {
    hide OwnState;
    if steps != [] {
      assert StaysOwn(s, steps, |steps| - 1);
      assert steps[..|steps|] == steps;
    }
  }

  // ---- Trades that name their own closes

  /** The trade has an entry, and a closing order it names was recorded for that entry. */
  predicate NamesOwnClose(t: Trade, orders: map<nat, CloseRow>) {
    && t.entryId.Some?
    && (t.closingId.Some? && t.closingId.value in orders ==>
          orders[t.closingId.value].parent == t.entryId && orders[t.closingId.value].symbol == t.symbol)
  }

  predicate WellNamed(s: State, step: Step) { step.Journals? || step.Settles? ==> NamesOwnClose(step.t, s.orders) }

  lemma WellNamedIsClean(s: State, step: Step)
    requires Keyed(s.orders) && OwnState(s) && Enabled(s, step) && WellNamed(s, step)
    ensures Clean(s, step)
  {
    hide HasNewFill;
    if step.Journals? || step.Settles? {
      NothingIsForeign(step.t, s.orders, step.listed, step.entries);
      assert !TakesOver(step.t, s.orders, step.listed, s.journal) by {
        forall b | b in s.journal
          ensures !(NeedsFallback(step.t, s.orders, step.listed) && BookedElsewhere(b, step.t))
        {
          assert OwnBooking(s.orders, b);
        }
      }
    }
  }

  lemma NothingIsForeign(t: Trade, orders: map<nat, CloseRow>, listed: map<nat, BrokerOrder>, entries: seq<CloseRow>)
    requires Keyed(orders) && NamesOwnClose(t, orders) && Enumerates(entries, t, WithFallback(t, orders, listed))
    ensures forall k :: 0 <= k < |entries| ==> !Foreign(t, entries[k])
    ensures !NamesParentless(t, WithFallback(t, orders, listed))
  {
    forall k | 0 <= k < |entries|
      ensures !Foreign(t, entries[k])
    {
      assert entries[k] in entries;
    }
  }

  /**
   * Successive exposures never mix: as long as every trade has its entry's id and names only closing orders
   * recorded for it, every journalled and every settled quantity is its own, over every run.
   */
  lemma {:induction false} ExposuresNeverMix(s: State, steps: seq<Step>)
    requires Keyed(s.orders) && OwnState(s) && Legal(s, steps)
    requires forall n :: 0 <= n < |steps| ==> WellNamed(Run(s, steps[..n]), steps[n])
    ensures NeverMixes(s, steps)
  {
    hide Clean, Enabled, After, SettlesOwn, OwnState, NeverMixes, AllClean, Legal, WellNamed;
    if steps == [] {
      NothingHappens(s);
    } else {
      var n := |steps| - 1;
      Earlier(s, steps);
      forall i | 0 <= i < n
        ensures WellNamed(Run(s, steps[..n][..i]), steps[..n][i])
      {
        assert steps[..n][..i] == steps[..i];
      }
      ExposuresNeverMix(s, steps[..n]);
      ExposuresNeverMixIffClean(s, steps[..n]);
      EndsOwn(s, steps[..n]);
      WellNamedIsClean(Run(s, steps[..n]), steps[n]);
      StepIsOwnIffClean(Run(s, steps[..n]), steps[n]);
    }
  }

  // ---- Each guard, violated

  /** A book with one close order of entry 1, whose fill of four is booked. */
  predicate FourBooked(s: State, row: CloseRow) {
    && row == CloseRow(7, "SPY", Some(1), true, Canceled, Some(10.0), 4.0, Some(2.0), Some(1.0), 0.0, 4.0, Some(2.0))
    && s.orders == map[7 := row]
    && |s.journal| == 1 && s.journal[0].key == First(Some(1), 7)
  }

  lemma BoundAlone(t: Trade, row: CloseRow)
    requires Binds(t, row)
    ensures Enumerates([row], t, map[row.id := row])
  {
  }

  lemma OneDirtyStep(s: State, step: Step)
    requires Keyed(s.orders) && OwnState(s) && Enabled(s, step) && !Clean(s, step)
    ensures Legal(s, [step]) && !NeverMixes(s, [step])
  {
    hide Clean, Enabled, After, OwnState;
    assert [step][..0] == [] && [step][..1] == [step];
    StepIsOwnIffClean(s, step);
    NothingHappens(s);
    assert NeverMixes(s, [step]) ==> StaysOwn(s, [step], 0);
  }

  /** A position known only from the broker: the late growth of an old close of its symbol is booked for it. */
  lemma OldCloseGrowsIntoAnother(s: State, row: CloseRow, t: Trade)
    requires FourBooked(s, row)
    requires t.symbol == "SPY" && t.entryId.None? && t.closingId.None? && t.filled == 0.0 && t.qty == 10.0
    ensures var grown := After(s, Observe(7, CloseView(Canceled, 6.0, Some(2.0))));
            var step := Journals(t, map[], true, [row.(filled := 6.0)]);
            OwnState(s) && OwnState(grown) && Legal(grown, [step]) && !NeverMixes(grown, [step])
  {
    var six := row.(filled := 6.0);
    var grown := After(s, Observe(7, CloseView(Canceled, 6.0, Some(2.0))));
    BoundAlone(t, six);
    assert [six][..0] == [] && HasNewFill(t, [six], true, 0) && Foreign(t, [six][0]);
    OneDirtyStep(grown, Journals(t, map[], true, [six]));
  }

  /** The same position, gone from a snapshot, is settled by that close. */
  lemma OldCloseSettlesAnother(s: State, row: CloseRow, t: Trade)
    requires FourBooked(s, row)
    requires t.symbol == "SPY" && t.entryId.None? && t.closingId.None?
    ensures var step := Settles(t, map[], [row], Accounted(t, [row]));
            OwnState(s) && Legal(s, [step]) && !NeverMixes(s, [step])
  {
    BoundAlone(t, row);
    assert Inherits(t, s.orders[7]);
    OneDirtyStep(s, Settles(t, map[], [row], Accounted(t, [row])));
  }

  /** A close sent for a position without an entry is booked for the entry whose trade comes to name it. */
  lemma NamedCloseIsBookedByName(row: CloseRow, t: Trade)
    requires row == CloseRow(7, "SPY", None, true, Filled, Some(10.0), 10.0, Some(2.0), Some(1.0), 0.0, 0.0, None)
    requires t.symbol == "SPY" && t.entryId == Some(1) && t.closingId == Some(7) && t.filled == 10.0 && t.qty == 10.0
    ensures var s := After(State(map[], []), Record(row));
            var step := Journals(t, map[], true, [row]);
            OwnState(s) && Legal(s, [step]) && !NeverMixes(s, [step])
  {
    var s := After(State(map[], []), Record(row));
    assert s.orders == map[7 := row];
    BoundAlone(t, row);
    assert [row][..0] == [] && HasNewFill(t, [row], true, 0) && Foreign(t, [row][0]);
    OneDirtyStep(s, Journals(t, map[], true, [row]));
  }

  /** A trade of entry 2 that named entry 1's close, if the broker lists that, would have it rewritten as its own. */
  lemma FallbackTakesOver(s: State, row: CloseRow, t: Trade, o: BrokerOrder)
    requires FourBooked(s, row)
    requires t.symbol == "SPY" && t.entryId == Some(2) && t.closingId == Some(7)
    ensures var taken := Fallback(t, 7, o);
            var step := Settles(t, map[7 := o], [taken], Accounted(t, [taken]));
            OwnState(s) && Legal(s, [step]) && !NeverMixes(s, [step])
  {
    var taken := Fallback(t, 7, o);
    assert WithFallback(t, s.orders, map[7 := o]) == map[7 := taken];
    BoundAlone(t, taken);
    assert s.journal[0] in s.journal && BookedElsewhere(s.journal[0], t);
    OneDirtyStep(s, Settles(t, map[7 := o], [taken], Accounted(t, [taken])));
  }

  // ---- The book and the journal as they are updated

  class Accounts {
    const book: Orders
    const journal: Journal

    constructor ()
      ensures Valid() && Now() == State(map[], []) && fresh(book) && fresh(journal)
    {
      book := new Orders(map[]);
      journal := new Journal();
    }

    predicate Valid()
      reads book
    {
      Keyed(book.rows)
    }

    function Now(): State
      reads book, journal
    {
      State(book.rows, journal.entries)
    }

    /** A close order is sent; the broker's id is new. */
    method RecordClose(row: CloseRow)
      requires Valid() && row.id !in book.rows
      modifies book
      ensures Valid() && Now() == After(old(Now()), Record(row))
    {
      book.rows := book.rows[row.id := row];
    }

    /** New evidence for a recorded order. */
    method ObserveOrder(id: nat, view: CloseView)
      requires Valid() && id in book.rows
      modifies book
      ensures Valid() && Now() == After(old(Now()), Observe(id, view))
    {
      var row := book.rows[id];
      book.rows := book.rows[id := row.(status := view.status, filled := view.filled, average := view.average)];
    }

    /** The journalling loop for one trade; its rows' progress is part of the book. */
    method JournalPass(t: Trade, listed: map<nat, BrokerOrder>, visible: bool) returns (entries: seq<CloseRow>)
      requires Valid()
      modifies book, journal
      ensures Valid()
      ensures var step := Journals(t, listed, visible, entries);
              Enabled(old(Now()), step) && Now() == After(old(Now()), step)
    {
      hide BookAll, Enumerates;
      entries := book.CloseEntries(t, listed);
      var updated := journal.JournalCloses(t, entries, visible);
      StoredPass(t, book.rows, entries, visible, old(journal.entries));
      Store(updated);
    }

    method Store(rows: seq<CloseRow>)
      modifies book
      ensures book.rows == Stored(old(book.rows), rows)
    {
      var k := 0;
      while k < |rows|
        invariant 0 <= k <= |rows|
        invariant book.rows == Stored(old(book.rows), rows[..k])
      {
        assert rows[..k + 1][..k] == rows[..k];
        book.rows := book.rows[rows[k].id := rows[k]];
        k := k + 1;
      }
      assert rows[..k] == rows;
    }

    /** The settling loop's totals for one trade, and the rows they are added up from. */
    method SettleUp(t: Trade, listed: map<nat, BrokerOrder>) returns (sum: Totals, entries: seq<CloseRow>)
      requires Valid()
      modifies book
      ensures Valid()
      ensures var step := Settles(t, listed, entries, sum);
              Enabled(old(Now()), step) && Now() == After(old(Now()), step)
    {
      hide Accounted, Enumerates;
      entries := book.CloseEntries(t, listed);
      sum := AddUp(t, entries);
    }

    /** Any step; what is not possible now leaves everything as it is. */
    method Proceed() returns (step: Step)
      requires Valid()
      modifies book, journal
      ensures Valid() && Enabled(old(Now()), step) && Now() == After(old(Now()), step)
    {
      var t: Trade := *;
      var listed: map<nat, BrokerOrder> := *;
      var row: CloseRow, id: nat, view: CloseView, visible := *, *, *, *;
      if {
        case row.id !in book.rows =>
          RecordClose(row);
          step := Record(row);
        case id in book.rows =>
          ObserveOrder(id, view);
          step := Observe(id, view);
        case true =>
          var entries := JournalPass(t, listed, visible);
          step := Journals(t, listed, visible, entries);
        case true =>
          var sum, entries := SettleUp(t, listed);
          step := Settles(t, listed, entries, sum);
      }
    }

    /** Any number of steps is a legal run, so the results above are about the book and journal as updated here. */
    method Proceeds(count: nat) returns (steps: seq<Step>)
      requires Valid()
      modifies book, journal
      ensures Valid() && |steps| == count
      ensures Legal(old(Now()), steps) && Now() == Run(old(Now()), steps)
    {
      hide After, Enabled;
      steps := [];
      while |steps| < count
        invariant Valid() && |steps| <= count
        invariant Legal(old(Now()), steps) && Now() == Run(old(Now()), steps)
      {
        var step := Proceed();
        var all := steps + [step];
        assert all[..|steps|] == steps;
        Earlier(old(Now()), all);
        steps := all;
      }
    }
  }
}
