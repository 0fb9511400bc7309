/**
 * Crashes between the journal and the book. The two are separate writes: a pass that stops between them leaves
 * its journal rows and loses its progress on the order rows, and the next pass takes every turn again.
 */
module CloseReplay {
  import opened Basics
  import opened CloseJournal

  // ---- One order

  /** One close order as some pass sees it. */
  datatype Attempt = Attempt(row: CloseRow, visible: bool)

  /** The same order and the same progress, with other evidence. */
  predicate Versions(row: CloseRow, attempts: seq<Attempt>) {
    forall i :: 0 <= i < |attempts| ==> IsVersion(row, attempts[i].row)
  }

  predicate IsVersion(row: CloseRow, seen: CloseRow) {
    seen.id == row.id && seen.logged == row.logged && seen.loggedAverage == row.loggedAverage
  }

  function RawOf(t: Trade, a: Attempt): real { Raw(a.row, Initial(t)) }

  /** The pass finds a quantity that the row does not count as booked. */
  predicate Journals(t: Trade, a: Attempt) {
    Eligible(a.row, Initial(t), a.visible) && RawOf(t, a) > a.row.logged
  }

  function KeyOf(t: Trade, a: Attempt): Key { BookingKey(t, a.row, Initial(t)) }

  function RowOf(t: Trade, a: Attempt): Booking
    requires Journals(t, a)
  {
    BookingOf(t, a.row, RawOf(t, a) - Max(0.0, a.row.logged))
  }

  /** The journal after attempts that all start from the same row. */
  function Attempted(t: Trade, journal: seq<Booking>, attempts: seq<Attempt>): seq<Booking> {
    if attempts == [] then journal
    else
      var a := attempts[|attempts| - 1];
      TakeTurn(t, a.row, a.visible, 0.0, Attempted(t, journal, attempts[..|attempts| - 1])).journal
  }

  /** Two fills of the order get the same key: every first booking does, increments only at the same quantity. */
  predicate SameKey(t: Trade, a: Attempt, b: Attempt) { a.row.logged <= 0.0 || RawOf(t, a) == RawOf(t, b) }

  /** Attempt `i` journals a fill that no earlier attempt of this block did. */
  predicate Adds(t: Trade, attempts: seq<Attempt>, i: nat) {
    && i < |attempts|
    && Journals(t, attempts[i])
    && forall j :: 0 <= j < i && Journals(t, attempts[j]) ==> !SameKey(t, attempts[j], attempts[i])
  }

  lemma AddsEarlier(t: Trade, attempts: seq<Attempt>, n: nat)
    requires n <= |attempts|
    ensures forall i :: 0 <= i < n ==> (Adds(t, attempts[..n], i) <==> Adds(t, attempts, i))
  {
  }

  /** A turn leaves the journal alone, or appends the booking of the fill it found under a new key. */
  lemma OneAttempt(t: Trade, a: Attempt, journal: seq<Booking>)
    requires a.row.logged >= 0.0
    ensures TakeTurn(t, a.row, a.visible, 0.0, journal).journal ==
            if Journals(t, a) && !HasKey(journal, KeyOf(t, a)) then journal + [RowOf(t, a)] else journal
    ensures TakeTurn(t, a.row, a.visible, 0.0, journal).row ==
            if Journals(t, a)
            then a.row.(logged := RawOf(t, a),
                        loggedAverage := if a.row.average.Some? then a.row.average else a.row.loggedAverage)
            else a.row
  {
    hide Gross, Fee, BookingPrice;
    if Journals(t, a) {
      assert Unbooked(a.row, Initial(t), 0.0) == RawOf(t, a) - Max(0.0, a.row.logged);
    }
  }

  lemma KeyAppends(journal: seq<Booking>, b: Booking, key: Key)
    ensures HasKey(journal + [b], key) <==> HasKey(journal, key) || b.key == key
  {
    assert (journal + [b])[|journal|] == b;
    assert forall i :: 0 <= i < |journal| ==> (journal + [b])[i] == journal[i];
  }

  /** A key beyond the booked progress is there exactly when an attempt journalled it. */
  lemma {:induction false} KeysOfAttempts(t: Trade, row: CloseRow, journal: seq<Booking>, attempts: seq<Attempt>,
                                          a: Attempt)
    requires QtyBooked(journal, t.entryId, row) && Versions(row, attempts)
    requires IsVersion(row, a.row) && Journals(t, a)
    ensures HasKey(Attempted(t, journal, attempts), KeyOf(t, a)) <==>
            exists i :: 0 <= i < |attempts| && Journals(t, attempts[i]) && SameKey(t, attempts[i], a)
  {
    hide TakeTurn, BookingOf, Eligible, Raw;
    if attempts != [] {
      var n := |attempts| - 1;
      var last, before := attempts[n], Attempted(t, journal, attempts[..n]);
      KeysOfAttempts(t, row, journal, attempts[..n], a);
      OneAttempt(t, last, before);
      if Journals(t, last) {
        KeyIs(t, last);
        KeyIs(t, a);
        KeyAppends(before, RowOf(t, last), KeyOf(t, a));
      }
      assert forall i :: 0 <= i < n ==> attempts[..n][i] == attempts[i];
    }
  }

  lemma KeyIs(t: Trade, a: Attempt)
    requires Journals(t, a)
    ensures KeyOf(t, a) ==
            if a.row.logged <= 0.0 then First(t.entryId, a.row.id) else Grown(t.entryId, a.row.id, RawOf(t, a))
    ensures RowOf(t, a).key == KeyOf(t, a) && RowOf(t, a).qty == RawOf(t, a) - Max(0.0, a.row.logged)
  {
  }

  lemma OneMore(t: Trade, journal: seq<Booking>, attempts: seq<Attempt>)
    requires attempts != []
    ensures var n := |attempts| - 1;
            Attempted(t, journal, attempts) ==
            TakeTurn(t, attempts[n].row, attempts[n].visible, 0.0, Attempted(t, journal, attempts[..n])).journal
  {
    hide TakeTurn;
  }

  /** The journal grows by one booking exactly when the last attempt adds a fill. */
  lemma LastAttempt(t: Trade, row: CloseRow, journal: seq<Booking>, attempts: seq<Attempt>)
    requires QtyBooked(journal, t.entryId, row) && Versions(row, attempts) && attempts != []
    ensures var n := |attempts| - 1;
            var before := Attempted(t, journal, attempts[..n]);
            Attempted(t, journal, attempts) ==
            if Adds(t, attempts, n) then before + [RowOf(t, attempts[n])] else before
  {
    hide Attempted, TakeTurn, Journals, RawOf, SameKey, KeyOf, RowOf, HasKey;
    var n := |attempts| - 1;
    OneMore(t, journal, attempts);
    OneAttempt(t, attempts[n], Attempted(t, journal, attempts[..n]));
    if Journals(t, attempts[n]) {
      KeysOfAttempts(t, row, journal, attempts[..n], attempts[n]);
    }
  }

  predicate NoneAdds(t: Trade, attempts: seq<Attempt>) {
    forall i :: 0 <= i < |attempts| ==> !Adds(t, attempts, i)
  }

  predicate OnlyAdds(t: Trade, attempts: seq<Attempt>, k: nat) {
    Adds(t, attempts, k) && forall i :: 0 <= i < |attempts| && Adds(t, attempts, i) ==> i == k
  }

  /** Without a fill that adds, the journal is as before; with a single one, it holds that booking more. */
  lemma {:induction false} AttemptsBook(t: Trade, row: CloseRow, journal: seq<Booking>, attempts: seq<Attempt>)
    requires QtyBooked(journal, t.entryId, row) && Versions(row, attempts)
    ensures NoneAdds(t, attempts) ==> Attempted(t, journal, attempts) == journal
    ensures forall k :: 0 <= k < |attempts| && OnlyAdds(t, attempts, k) ==>
              Attempted(t, journal, attempts) == journal + [RowOf(t, attempts[k])]
  {
    hide Attempted, Journals, RowOf, QtyBooked, SameKey;
    if attempts == [] {
      NoAttempt(t, journal);
    } else {
      var n := |attempts| - 1;
      AttemptsBook(t, row, journal, attempts[..n]);
      LastAttempt(t, row, journal, attempts);
      AddsEarlier(t, attempts, n);
      if NoneAdds(t, attempts) {
        assert NoneAdds(t, attempts[..n]);
      }
      forall k | 0 <= k < |attempts| && OnlyAdds(t, attempts, k)
        ensures Attempted(t, journal, attempts) == journal + [RowOf(t, attempts[k])]
      {
        if k == n {
          assert NoneAdds(t, attempts[..n]);
        } else {
          assert OnlyAdds(t, attempts[..n], k);
        }
      }
    }
  }

  lemma NoAttempt(t: Trade, journal: seq<Booking>)
    ensures Attempted(t, journal, []) == journal
  {
  }

  /** Every fill that adds is in the booked quantity, and any two of them are both. */
  lemma {:induction false} AttemptsExceed(t: Trade, row: CloseRow, journal: seq<Booking>, attempts: seq<Attempt>)
    requires QtyBooked(journal, t.entryId, row) && Versions(row, attempts)
    ensures var qty := BookedQty(Attempted(t, journal, attempts), t.entryId, row.id);
            && qty >= row.logged
            && (forall i :: 0 <= i < |attempts| && Adds(t, attempts, i) ==> qty >= RawOf(t, attempts[i]))
            && (forall i, j :: 0 <= i < j < |attempts| && Adds(t, attempts, i) && Adds(t, attempts, j) ==>
                  qty >= RawOf(t, attempts[i]) + RawOf(t, attempts[j]) - row.logged)
  {
    hide Attempted, SameKey, BookingOf, RawOf, RowOf;
    if attempts == [] {
      NoAttempt(t, journal);
    } else {
      var n := |attempts| - 1;
      var before := Attempted(t, journal, attempts[..n]);
      AttemptsExceed(t, row, journal, attempts[..n]);
      LastAttempt(t, row, journal, attempts);
      AddsEarlier(t, attempts, n);
      if Adds(t, attempts, n) {
        KeyIs(t, attempts[n]);
        QtyAppends(before, RowOf(t, attempts[n]), t.entryId, row.id);
      }
    }
  }

  lemma QtyAppends(journal: seq<Booking>, b: Booking, entry: Option<nat>, close: nat)
    requires Concerns(b, entry, close)
    ensures BookedQty(journal + [b], entry, close) == BookedQty(journal, entry, close) + b.qty
  {
  }

  /** A fill that an attempt journals was added by that attempt or an earlier one. */
  lemma {:induction false} FirstToAdd(t: Trade, row: CloseRow, attempts: seq<Attempt>, n: nat) returns (k: nat)
    requires Versions(row, attempts) && n < |attempts| && Journals(t, attempts[n])
    ensures k <= n && Adds(t, attempts, k) && SameKey(t, attempts[k], attempts[n])
  {
    k := n;
    if j :| 0 <= j < n && Journals(t, attempts[j]) && SameKey(t, attempts[j], attempts[n]) {
      k := FirstToAdd(t, row, attempts, j);
    }
  }

  /** What earlier attempts added of an order is what the last attempt books. */
  predicate FillsAgree(t: Trade, attempts: seq<Attempt>)
    requires attempts != []
  {
    var last := attempts[|attempts| - 1];
    forall i :: 0 <= i < |attempts| - 1 && Adds(t, attempts, i) ==>
      Journals(t, last) && RawOf(t, attempts[i]) == RawOf(t, last)
  }

  predicate AveragesAgree(t: Trade, attempts: seq<Attempt>)
    requires attempts != []
  {
    var last := attempts[|attempts| - 1];
    forall i :: 0 <= i < |attempts| - 1 && Adds(t, attempts, i) ==> attempts[i].row.average == last.row.average
  }

  /** The row as the last attempt leaves it; only that one's progress is written. */
  function Written(t: Trade, attempts: seq<Attempt>): CloseRow
    requires attempts != []
  {
    var last := attempts[|attempts| - 1];
    TakeTurn(t, last.row, last.visible, 0.0, []).row
  }

  lemma WrittenIs(t: Trade, row: CloseRow, attempts: seq<Attempt>)
    requires attempts != [] && Versions(row, attempts) && row.logged >= 0.0
    ensures var last, w := attempts[|attempts| - 1], Written(t, attempts);
            && w.id == row.id
            && w.logged == (if Journals(t, last) then RawOf(t, last) else row.logged)
            && w.loggedAverage == if Journals(t, last) && last.row.average.Some? then last.row.average
                                  else row.loggedAverage
  {
    hide TakeTurn;
    OneAttempt(t, attempts[|attempts| - 1], []);
  }

  lemma OneBookingMore(t: Trade, row: CloseRow, journal: seq<Booking>, a: Attempt)
    requires QtyBooked(journal, t.entryId, row) && IsVersion(row, a.row) && Journals(t, a)
    ensures BookedQty(journal + [RowOf(t, a)], t.entryId, row.id) == RawOf(t, a)
    ensures KeysBelow(journal + [RowOf(t, a)], t.entryId, row.id, RawOf(t, a))
  {
    hide RowOf;
    KeyIs(t, a);
    QtyAppends(journal, RowOf(t, a), t.entryId, row.id);
  }

  /** Fills that agree with the last attempt's are one and the same booking. */
  lemma AgreeingFillsAreOne(t: Trade, row: CloseRow, attempts: seq<Attempt>, k: nat)
    requires attempts != [] && Versions(row, attempts) && FillsAgree(t, attempts)
    requires k < |attempts| && Adds(t, attempts, k)
    ensures OnlyAdds(t, attempts, k)
    ensures Journals(t, attempts[|attempts| - 1]) && RawOf(t, attempts[k]) == RawOf(t, attempts[|attempts| - 1])
  {
    hide Journals, RawOf;
    forall i | 0 <= i < |attempts| && Adds(t, attempts, i)
      ensures i == k
    {
      assert SameKey(t, attempts[i], attempts[k]) && SameKey(t, attempts[k], attempts[i]);
    }
  }

  /**
   * Crashed attempts and the one that completes leave an order's journal exact in quantity exactly when every
   * fill a crashed attempt added is the one that is booked in the end.
   */
  lemma OrderReplay(t: Trade, row: CloseRow, journal: seq<Booking>, attempts: seq<Attempt>)
    requires QtyBooked(journal, t.entryId, row) && Versions(row, attempts) && attempts != []
    ensures QtyBooked(Attempted(t, journal, attempts), t.entryId, Written(t, attempts)) <==> FillsAgree(t, attempts)
  {
    hide Attempted, Written, RowOf, Journals, RawOf;
    var n := |attempts| - 1;
    AttemptsBook(t, row, journal, attempts);
    WrittenIs(t, row, attempts);
    if FillsAgree(t, attempts) {
      AgreeingFillsAreBooked(t, row, journal, attempts);
    } else {
      var i :| 0 <= i < n && Adds(t, attempts, i) &&
               !(Journals(t, attempts[n]) && RawOf(t, attempts[i]) == RawOf(t, attempts[n]));
      OtherFillIsNotBooked(t, row, journal, attempts, i);
    }
  }

  lemma AgreeingFillsAreBooked(t: Trade, row: CloseRow, journal: seq<Booking>, attempts: seq<Attempt>)
    requires QtyBooked(journal, t.entryId, row) && Versions(row, attempts) && attempts != []
    requires FillsAgree(t, attempts)
    ensures QtyBooked(Attempted(t, journal, attempts), t.entryId, Written(t, attempts))
    ensures !Journals(t, attempts[|attempts| - 1]) ==> Attempted(t, journal, attempts) == journal
    ensures forall k :: 0 <= k < |attempts| && Adds(t, attempts, k) ==>
              Attempted(t, journal, attempts) == journal + [RowOf(t, attempts[k])]
  {
    hide Attempted, Written, RowOf, RawOf, FillsAgree;
    var n := |attempts| - 1;
    AttemptsBook(t, row, journal, attempts);
    WrittenIs(t, row, attempts);
    if Journals(t, attempts[n]) {
      var k := FirstToAdd(t, row, attempts, n);
      AgreeingFillsAreOne(t, row, attempts, k);
      OneBookingMore(t, row, journal, attempts[k]);
    } else {
      forall i | 0 <= i < |attempts|
        ensures !Adds(t, attempts, i)
      {
        if Adds(t, attempts, i) {
          AgreeingFillsAreOne(t, row, attempts, i);
        }
      }
    }
  }

  lemma OtherFillIsNotBooked(t: Trade, row: CloseRow, journal: seq<Booking>, attempts: seq<Attempt>, i: nat)
    requires QtyBooked(journal, t.entryId, row) && Versions(row, attempts) && i < |attempts| - 1
    requires Adds(t, attempts, i)
    requires var last := attempts[|attempts| - 1];
             !(Journals(t, last) && RawOf(t, attempts[i]) == RawOf(t, last))
    ensures BookedQty(Attempted(t, journal, attempts), t.entryId, row.id) != Written(t, attempts).logged
  {
    hide Attempted, Written, RowOf, Eligible, RawOf;
    var n := |attempts| - 1;
    WrittenIs(t, row, attempts);
    AttemptsExceed(t, row, journal, attempts);
    if Journals(t, attempts[n]) {
      var k := FirstToAdd(t, row, attempts, n);
      if k == i {
        forall j | 0 <= j < |attempts| && Adds(t, attempts, j)
          ensures j == i
        {
          assert SameKey(t, attempts[i], attempts[j]) && SameKey(t, attempts[j], attempts[i]);
        }
        AttemptsBook(t, row, journal, attempts);
        OneBookingMore(t, row, journal, attempts[i]);
      }
    }
  }

  /** ... and exact in money as well exactly when the averages agree too. */
  lemma OrderReplayMoney(t: Trade, row: CloseRow, journal: seq<Booking>, attempts: seq<Attempt>)
    requires QtyBooked(journal, t.entryId, row) && Versions(row, attempts) && attempts != []
    requires Measurable(t) && MoneyBooked(t, journal, row)
    requires forall i :: 0 <= i < |attempts| && Journals(t, attempts[i]) ==> attempts[i].row.average.Some?
    requires FillsAgree(t, attempts)
    ensures MoneyBooked(t, Attempted(t, journal, attempts), Written(t, attempts)) <==> AveragesAgree(t, attempts)
  {
    hide Attempted, Written, RowOf, RawOf, FillsAgree, Closing, Adds, SameKey;
    var n := |attempts| - 1;
    AgreeingFillsAreBooked(t, row, journal, attempts);
    WrittenIs(t, row, attempts);
    if Journals(t, attempts[n]) {
      var k := FirstToAdd(t, row, attempts, n);
      AgreeingFillsAreOne(t, row, attempts, k);
      BookingBooksMoney(t, row, journal, attempts[k]);
      ClosingsDiffer(t, RawOf(t, attempts[n]), attempts[k].row.average.value, attempts[n].row.average.value);
    } else {
      forall i | 0 <= i < |attempts|
        ensures !Adds(t, attempts, i)
      {
        if Adds(t, attempts, i) {
          AgreeingFillsAreOne(t, row, attempts, i);
        }
      }
    }
  }

  lemma BookingBooksMoney(t: Trade, row: CloseRow, journal: seq<Booking>, a: Attempt)
    requires IsVersion(row, a.row) && Journals(t, a) && row.logged >= 0.0
    requires Measurable(t) && MoneyBooked(t, journal, row) && a.row.average.Some?
    ensures BookedMoney(journal + [RowOf(t, a)], t.entryId, row.id) ==
            Closing(t, RawOf(t, a), a.row.average.value)
  {
    hide BookingOf, Closing, MoneyIn, BookedMoney, BookingKey;
    KeyIs(t, a);
    MoneyAppends(journal, RowOf(t, a), t.entryId, row.id);
    MoneyMoves(t, a.row, RawOf(t, a) - row.logged);
  }

  lemma ClosingsDiffer(t: Trade, qty: real, a: real, b: real)
    requires Measurable(t) && qty > 0.0
    ensures Closing(t, qty, a) == Closing(t, qty, b) <==> a == b
  {
    if a != b {
      Positive(qty, Abs(a - b));
      assert Times(qty, a - b) == qty * a - qty * b;
    }
  }

  // ---- One order's part of the journal

  function Of(journal: seq<Booking>, entry: Option<nat>, close: nat): seq<Booking> {
    if journal == [] then []
    else
      var b := journal[|journal| - 1];
      Of(journal[..|journal| - 1], entry, close) + if Concerns(b, entry, close) then [b] else []
  }

  lemma {:induction false} OfKeepsSums(journal: seq<Booking>, entry: Option<nat>, close: nat)
    ensures var own := Of(journal, entry, close);
            && BookedQty(own, entry, close) == BookedQty(journal, entry, close)
            && BookedMoney(own, entry, close) == BookedMoney(journal, entry, close)
  {
    hide MoneyIn;
    if journal != [] {
      var n := |journal| - 1;
      var rest, own := Of(journal[..n], entry, close), Of(journal, entry, close);
      OfKeepsSums(journal[..n], entry, close);
      if Concerns(journal[n], entry, close) {
        assert own[..|own| - 1] == rest;
      } else {
        assert own == rest;
      }
    }
  }

  lemma {:induction false} OfKeepsMembers(journal: seq<Booking>, entry: Option<nat>, close: nat)
    ensures forall b :: b in Of(journal, entry, close) <==> b in journal && Concerns(b, entry, close)
  {
    if journal != [] {
      var n := |journal| - 1;
      OfKeepsMembers(journal[..n], entry, close);
      assert journal == journal[..n] + [journal[n]];
    }
  }

  lemma OfKeepsBounds(journal: seq<Booking>, entry: Option<nat>, close: nat, logged: real)
    ensures KeysBelow(Of(journal, entry, close), entry, close, logged) <==> KeysBelow(journal, entry, close, logged)
  {
    hide Of, KeyBelow, Concerns;
    OfKeepsMembers(journal, entry, close);
    BoundsAreOfMembers(journal, entry, close, logged);
    BoundsAreOfMembers(Of(journal, entry, close), entry, close, logged);
  }

  lemma BoundsAreOfMembers(journal: seq<Booking>, entry: Option<nat>, close: nat, logged: real)
    ensures KeysBelow(journal, entry, close, logged) <==>
            forall b :: b in journal && Concerns(b, entry, close) ==> KeyBelow(b.key, logged)
  {
    hide KeyBelow, Concerns;
  }

  lemma OfKeepsKeys(journal: seq<Booking>, key: Key)
    ensures HasKey(Of(journal, key.entry, key.close), key) <==> HasKey(journal, key)
  {
    hide Of;
    var own := Of(journal, key.entry, key.close);
    OfKeepsMembers(journal, key.entry, key.close);
    if i :| 0 <= i < |own| && own[i].key == key {
      assert own[i] in journal;
    }
    if i :| 0 <= i < |journal| && journal[i].key == key {
      assert journal[i] in own;
    }
  }

  lemma OfAppends(journal: seq<Booking>, b: Booking, entry: Option<nat>, close: nat)
    ensures Of(journal + [b], entry, close) == Of(journal, entry, close) + if Concerns(b, entry, close) then [b] else []
  {
    assert (journal + [b])[..|journal|] == journal;
  }

  /** With room for its fill, a turn writes what it would write alone, and only into its own order's part. */
  lemma TurnOfOrder(t: Trade, row: CloseRow, visible: bool, allotted: real, journal: seq<Booking>, close: nat)
    requires Fits(t, row, visible, allotted)
    ensures var turn := TakeTurn(t, row, visible, allotted, journal);
            var own := Of(journal, t.entryId, close);
            && Of(turn.journal, t.entryId, close) ==
               (if close == row.id then TakeTurn(t, row, visible, 0.0, own).journal else own)
            && turn.row == TakeTurn(t, row, visible, 0.0, []).row
  {
    hide Gross, Fee, BookingPrice;
    if Eligible(row, Initial(t), visible) {
      var qty := Unbooked(row, Initial(t), allotted);
      assert qty == Unbooked(row, Initial(t), 0.0);
      if qty > 0.0 {
        OfKeepsKeys(journal, BookingKey(t, row, Initial(t)));
        OfAppends(journal, BookingOf(t, row, qty), t.entryId, close);
      }
    }
  }

  lemma {:induction false} PassOfOthers(t: Trade, rows: seq<CloseRow>, visible: bool, journal: seq<Booking>, close: nat)
    requires TakenTotal(t, rows, visible) <= Initial(t)
    requires forall i :: 0 <= i < |rows| ==> rows[i].id != close
    ensures Of(BookAll(t, rows, visible, journal).journal, t.entryId, close) == Of(journal, t.entryId, close)
  {
    hide TakeTurn;
    if rows != [] {
      var n := |rows| - 1;
      var before := BookAll(t, rows[..n], visible, journal);
      PassOfOthers(t, rows[..n], visible, journal, close);
      PassNeverOverbooks(t, rows[..n], visible, journal);
      TurnOfOrder(t, rows[n], visible, before.allotted, before.journal, close);
    }
  }

  /** So a pass with room for every fill takes each order's turn as if it were alone. */
  lemma {:induction false} PassOfOrder(t: Trade, rows: seq<CloseRow>, visible: bool, journal: seq<Booking>, k: nat)
    requires Distinct(rows) && TakenTotal(t, rows, visible) <= Initial(t) && k < |rows|
    ensures var p := BookAll(t, rows, visible, journal);
            && Of(p.journal, t.entryId, rows[k].id) ==
               TakeTurn(t, rows[k], visible, 0.0, Of(journal, t.entryId, rows[k].id)).journal
            && p.rows[k] == TakeTurn(t, rows[k], visible, 0.0, []).row
  {
    hide TakeTurn;
    var n := |rows| - 1;
    var before := BookAll(t, rows[..n], visible, journal);
    PassNeverOverbooks(t, rows[..n], visible, journal);
    TurnOfOrder(t, rows[n], visible, before.allotted, before.journal, rows[k].id);
    if k == n {
      PassOfOthers(t, rows[..n], visible, journal, rows[n].id);
    } else {
      PassOfOrder(t, rows[..n], visible, journal, k);
    }
  }

  // ---- Whole passes

  /** The journal after passes that all start from the same rows, because the process stopped after each. */
  function Repeated(t: Trade, rows: seq<CloseRow>, journal: seq<Booking>, snapshots: seq<CloseSnapshot>): seq<Booking> {
    if snapshots == [] then journal
    else
      var s := snapshots[|snapshots| - 1];
      BookAll(t, Refreshed(rows, s.views), s.visible,
              Repeated(t, rows, journal, snapshots[..|snapshots| - 1])).journal
  }

  /** One order as those passes see it. */
  function AttemptsOf(rows: seq<CloseRow>, snapshots: seq<CloseSnapshot>, k: nat): (r: seq<Attempt>)
    requires k < |rows|
    ensures |r| == |snapshots| && Versions(rows[k], r)
  {
    seq(|snapshots|, i requires 0 <= i < |snapshots| =>
      Attempt(Refreshed(rows, snapshots[i].views)[k], snapshots[i].visible))
  }

  /** The exits that any of the snapshots reports fit the entry. */
  predicate AllFit(t: Trade, rows: seq<CloseRow>, snapshots: seq<CloseSnapshot>) {
    forall i :: 0 <= i < |snapshots| ==>
      TakenTotal(t, Refreshed(rows, snapshots[i].views), snapshots[i].visible) <= Initial(t)
  }

  predicate AllPriced(t: Trade, rows: seq<CloseRow>, snapshots: seq<CloseSnapshot>) {
    forall i :: 0 <= i < |snapshots| ==>
      AveragesKnown(t, Refreshed(rows, snapshots[i].views), snapshots[i].visible)
  }

  lemma {:induction false} RepeatedOfOrder(t: Trade, rows: seq<CloseRow>, journal: seq<Booking>,
                                           snapshots: seq<CloseSnapshot>, k: nat)
    requires Distinct(rows) && AllFit(t, rows, snapshots) && k < |rows|
    ensures Of(Repeated(t, rows, journal, snapshots), t.entryId, rows[k].id) ==
            Attempted(t, Of(journal, t.entryId, rows[k].id), AttemptsOf(rows, snapshots, k))
  {
    hide TakeTurn, Of;
    if snapshots != [] {
      var n := |snapshots| - 1;
      var s := snapshots[n];
      RepeatedOfOrder(t, rows, journal, snapshots[..n], k);
      assert AttemptsOf(rows, snapshots, k)[..n] == AttemptsOf(rows, snapshots[..n], k);
      PassOfOrder(t, Refreshed(rows, s.views), s.visible, Repeated(t, rows, journal, snapshots[..n]), k);
    }
  }

  /** Passes that crashed after writing the journal, then one that wrote the book too. */
  datatype Episode = Episode(crashed: seq<CloseSnapshot>, done: CloseSnapshot)
  {
    function All(): seq<CloseSnapshot> { crashed + [done] }
  }

  function Replay(t: Trade, p: Pass, e: Episode): (after: Pass)
    ensures |after.rows| == |p.rows|
  {
    BookAll(t, Refreshed(p.rows, e.done.views), e.done.visible, Repeated(t, p.rows, p.journal, e.crashed))
  }

  /** No fill a crashed pass journalled differs from the one its order is booked with in the end. */
  predicate FillsStay(t: Trade, rows: seq<CloseRow>, e: Episode) {
    forall k :: 0 <= k < |rows| ==> FillsAgree(t, AttemptsOf(rows, e.All(), k))
  }

  predicate AveragesStay(t: Trade, rows: seq<CloseRow>, e: Episode) {
    forall k :: 0 <= k < |rows| ==> AveragesAgree(t, AttemptsOf(rows, e.All(), k))
  }

  lemma ReplayOfOrder(t: Trade, p: Pass, e: Episode, k: nat)
    requires Distinct(p.rows) && AllFit(t, p.rows, e.All()) && k < |p.rows|
    ensures var attempts := AttemptsOf(p.rows, e.All(), k);
            && Of(Replay(t, p, e).journal, t.entryId, p.rows[k].id) ==
               Attempted(t, Of(p.journal, t.entryId, p.rows[k].id), attempts)
            && Replay(t, p, e).rows[k] == Written(t, attempts)
  {
    hide TakeTurn, Of, Attempted;
    var n := |e.crashed|;
    assert e.All()[..n] == e.crashed && e.All()[n] == e.done;
    RepeatedOfOrder(t, p.rows, p.journal, e.All(), k);
    PassOfOrder(t, Refreshed(p.rows, e.done.views), e.done.visible, Repeated(t, p.rows, p.journal, e.crashed), k);
  }

  /** What the journal says of one order is what its own part says. */
  lemma BookedInPart(t: Trade, journal: seq<Booking>, row: CloseRow)
    ensures QtyBooked(Of(journal, t.entryId, row.id), t.entryId, row) <==> QtyBooked(journal, t.entryId, row)
    ensures Measurable(t) ==>
              (MoneyBooked(t, Of(journal, t.entryId, row.id), row) <==> MoneyBooked(t, journal, row))
  {
    hide Of, Closing;
    OfKeepsSums(journal, t.entryId, row.id);
    OfKeepsBounds(journal, t.entryId, row.id, row.logged);
  }

  /** A replayed pass is exact in quantity exactly when every journalled fill stays. */
  lemma ReplayIsExactIffFillsStay(t: Trade, p: Pass, e: Episode)
    requires Distinct(p.rows) && Booked(p.journal, t.entryId, p.rows) && AllFit(t, p.rows, e.All())
    ensures var after := Replay(t, p, e);
            Booked(after.journal, t.entryId, after.rows) <==> FillsStay(t, p.rows, e)
  {
    hide Of, Attempted, Written, Replay, QtyBooked, FillsAgree, AttemptsOf;
    var after := Replay(t, p, e);
    forall k | 0 <= k < |p.rows|
      ensures QtyBooked(after.journal, t.entryId, after.rows[k]) <==> FillsAgree(t, AttemptsOf(p.rows, e.All(), k))
    {
      OrderIsExact(t, p, e, k);
    }
  }

  lemma OrderIsExact(t: Trade, p: Pass, e: Episode, k: nat)
    requires Distinct(p.rows) && AllFit(t, p.rows, e.All()) && k < |p.rows|
    requires QtyBooked(p.journal, t.entryId, p.rows[k])
    ensures var after := Replay(t, p, e);
            QtyBooked(after.journal, t.entryId, after.rows[k]) <==> FillsAgree(t, AttemptsOf(p.rows, e.All(), k))
  {
    assert p.rows[k].logged >= 0.0;
    hide Of, Attempted, Replay, QtyBooked, FillsAgree;
    var row, attempts := p.rows[k], AttemptsOf(p.rows, e.All(), k);
    var after := Replay(t, p, e);
    BookedInPart(t, p.journal, row);
    ReplayOfOrder(t, p, e, k);
    OrderReplay(t, row, Of(p.journal, t.entryId, row.id), attempts);
    WrittenIs(t, row, attempts);
    BookedInPart(t, after.journal, after.rows[k]);
  }

  /** ... and exact in value, gross result and fees as well exactly when their averages stay too. */
  lemma ReplayKeepsMoneyIffAveragesStay(t: Trade, p: Pass, e: Episode)
    requires Distinct(p.rows) && Booked(p.journal, t.entryId, p.rows) && AllFit(t, p.rows, e.All())
    requires Measurable(t) && AllMoneyBooked(t, p.journal, p.rows) && AllPriced(t, p.rows, e.All())
    requires FillsStay(t, p.rows, e)
    ensures var after := Replay(t, p, e);
            AllMoneyBooked(t, after.journal, after.rows) <==> AveragesStay(t, p.rows, e)
  {
    hide Of, Attempted, Written, Replay, QtyBooked, MoneyBooked, FillsAgree, AveragesAgree, AttemptsOf;
    var after := Replay(t, p, e);
    forall k | 0 <= k < |p.rows|
      ensures MoneyBooked(t, after.journal, after.rows[k]) <==> AveragesAgree(t, AttemptsOf(p.rows, e.All(), k))
    {
      OrdersMoneyIsExact(t, p, e, k);
    }
  }

  lemma OrdersMoneyIsExact(t: Trade, p: Pass, e: Episode, k: nat)
    requires Distinct(p.rows) && AllFit(t, p.rows, e.All()) && k < |p.rows|
    requires QtyBooked(p.journal, t.entryId, p.rows[k])
    requires Measurable(t) && MoneyBooked(t, p.journal, p.rows[k]) && AllPriced(t, p.rows, e.All())
    requires FillsAgree(t, AttemptsOf(p.rows, e.All(), k))
    ensures var after := Replay(t, p, e);
            MoneyBooked(t, after.journal, after.rows[k]) <==> AveragesAgree(t, AttemptsOf(p.rows, e.All(), k))
  {
    assert p.rows[k].logged >= 0.0;
    hide Of, Attempted, Replay, QtyBooked, MoneyBooked, FillsAgree, AveragesAgree, Eligible, RawOf;
    var row, attempts := p.rows[k], AttemptsOf(p.rows, e.All(), k);
    var after := Replay(t, p, e);
    BookedInPart(t, p.journal, row);
    ReplayOfOrder(t, p, e, k);
    OrderReplayMoney(t, row, Of(p.journal, t.entryId, row.id), attempts);
    WrittenIs(t, row, attempts);
    BookedInPart(t, after.journal, after.rows[k]);
  }

  // ---- Whole runs

  function Episodes(t: Trade, start: Pass, episodes: seq<Episode>): (p: Pass)
    ensures |p.rows| == |start.rows|
  {
    if episodes == [] then start
    else Replay(t, Episodes(t, start, episodes[..|episodes| - 1]), episodes[|episodes| - 1])
  }

  /** Every snapshot of the run prices its fills, and the exits it reports fit the entry. */
  predicate PlausibleRun(t: Trade, start: Pass, episodes: seq<Episode>) {
    episodes == [] ||
    (&& PlausibleRun(t, start, episodes[..|episodes| - 1])
     && var rows, e := Episodes(t, start, episodes[..|episodes| - 1]).rows, episodes[|episodes| - 1];
        AllFit(t, rows, e.All()) && AllPriced(t, rows, e.All()))
  }

  ghost predicate Exact(t: Trade, p: Pass)
    requires Measurable(t)
  {
    Booked(p.journal, t.entryId, p.rows) && AllMoneyBooked(t, p.journal, p.rows)
  }

  /** The journal is exact whenever a pass has completed. */
  ghost predicate ExactThroughout(t: Trade, start: Pass, episodes: seq<Episode>)
    requires Measurable(t)
  {
    && Exact(t, Episodes(t, start, episodes))
    && (episodes != [] ==> ExactThroughout(t, start, episodes[..|episodes| - 1]))
  }

  predicate EvidenceStays(t: Trade, start: Pass, episodes: seq<Episode>) {
    episodes == [] ||
    (&& EvidenceStays(t, start, episodes[..|episodes| - 1])
     && var rows, e := Episodes(t, start, episodes[..|episodes| - 1]).rows, episodes[|episodes| - 1];
        FillsStay(t, rows, e) && AveragesStay(t, rows, e))
  }

  /**
   * Over any run of passes, any number of which crash between the journal and the book: the journal is exact in
   * quantity and money after every pass that completes, exactly when no fill journalled by a crashed pass has
   * grown, shrunk or changed its average by the time its order's progress is written.
   */
  lemma {:induction false} RunIsExactIffEvidenceStays(t: Trade, start: Pass, episodes: seq<Episode>)
    requires Measurable(t) && Distinct(start.rows) && Exact(t, start) && PlausibleRun(t, start, episodes)
    ensures ExactThroughout(t, start, episodes) <==> EvidenceStays(t, start, episodes)
    ensures Distinct(Episodes(t, start, episodes).rows)
  {
    hide Booked, AllMoneyBooked, FillsStay, AveragesStay, AllFit, AllPriced, Replay, Measurable;
    if episodes != [] {
      var n := |episodes| - 1;
      var p := Episodes(t, start, episodes[..n]);
      RunIsExactIffEvidenceStays(t, start, episodes[..n]);
      ReplayKeepsIds(t, p, episodes[n]);
      if ExactThroughout(t, start, episodes[..n]) {
        ExactSoFar(t, start, episodes[..n]);
        ReplayIsExactIffFillsStay(t, p, episodes[n]);
        if FillsStay(t, p.rows, episodes[n]) {
          ReplayKeepsMoneyIffAveragesStay(t, p, episodes[n]);
        }
      }
    }
  }

  lemma ExactSoFar(t: Trade, start: Pass, episodes: seq<Episode>)
    requires Measurable(t) && ExactThroughout(t, start, episodes)
    ensures Exact(t, Episodes(t, start, episodes))
  {
  }

  lemma ReplayKeepsIds(t: Trade, p: Pass, e: Episode)
    requires Distinct(p.rows)
    ensures Distinct(Replay(t, p, e).rows)
  {
    hide TakeTurn, Repeated;
    PassKeepsIds(t, Refreshed(p.rows, e.done.views), e.done.visible, Repeated(t, p.rows, p.journal, e.crashed));
  }

  lemma {:induction false} PassKeepsIds(t: Trade, rows: seq<CloseRow>, visible: bool, journal: seq<Booking>)
    ensures forall i :: 0 <= i < |rows| ==> BookAll(t, rows, visible, journal).rows[i].id == rows[i].id
  {
    hide BookingOf;
    if rows != [] {
      PassKeepsIds(t, rows[..|rows| - 1], visible, journal);
    }
  }

  /** The smallest failures: one order of ten, reported once before a crash and again, changed, after it. */
  lemma ChangedEvidenceIsMisbooked(t: Trade, row: CloseRow, visible: bool)
    requires t.entryPrice.Some? && Initial(t) == 10.0 && (visible ==> row.attempt.Some?)
    requires row.status == Canceled && row.qty == Some(10.0) && row.filled == 6.0 && row.average == Some(6.0)
    requires row.logged == 0.0
    ensures var grown := TakeTurn(t, row.(filled := 10.0), visible, 0.0, TakeTurn(t, row, visible, 0.0, []).journal);
            grown.row.logged == 10.0 && BookedQty(grown.journal, t.entryId, row.id) == 6.0
    ensures var repriced :=
              TakeTurn(t, row.(average := Some(7.0)), visible, 0.0, TakeTurn(t, row, visible, 0.0, []).journal);
            && repriced.row.logged == 6.0 == BookedQty(repriced.journal, t.entryId, row.id)
            && repriced.row.loggedAverage == Some(7.0)
            && BookedMoney(repriced.journal, t.entryId, row.id).value == 36.0
  {
    hide TakeTurn, RowOf, KeyOf, BookedQty, BookedMoney;
    var crashed := Attempt(row, visible);
    var grown, repriced := Attempt(row.(filled := 10.0), visible), Attempt(row.(average := Some(7.0)), visible);
    var b := RowOf(t, crashed);
    FirstBooking(t, crashed);
    KeyIs(t, grown);
    KeyIs(t, repriced);
    OneAttempt(t, crashed, []);
    assert TakeTurn(t, row, visible, 0.0, []).journal == [b] && [b][0] == b;
    OneBooked(b, t.entryId, row.id);
    OneAttempt(t, grown, [b]);
    OneAttempt(t, repriced, [b]);
  }

  lemma OneBooked(b: Booking, entry: Option<nat>, close: nat)
    requires Concerns(b, entry, close)
    ensures BookedQty([b], entry, close) == b.qty && BookedMoney([b], entry, close) == MoneyIn(b)
  {
    assert [b] == [] + [b];
    QtyAppends([], b, entry, close);
    MoneyAppends([], b, entry, close);
  }

  lemma FirstBooking(t: Trade, a: Attempt)
    requires Journals(t, a) && a.row.logged == 0.0
    ensures RowOf(t, a).key == First(t.entryId, a.row.id) == KeyOf(t, a)
    ensures RowOf(t, a).qty == RawOf(t, a) && RowOf(t, a).price == a.row.average
  {
    hide Gross, Fee;
  }
}
