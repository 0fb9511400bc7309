/**
 * Reading the journal back: grouping open and close rows into parent trades and deciding which are closed.
 */
module Report {
  import opened Basics

  datatype Action = Open | Close | Other

  /** A trade id as the lifecycle writes it for closes, or any other text. */
  datatype TradeId = NoTradeId | CloseId(entry: Option<nat>, close: nat) | Text(id: nat)

  datatype Row = Row(action: Action, parent: Option<nat>, setup: Option<nat>, setupKey: Option<nat>, tradeId: TradeId,
                     orderId: Option<nat>, qty: Option<real>, cumulative: Option<real>, requested: Option<real>,
                     fraction: Option<real>, partial: bool, positionClosed: bool,
                     gross: Option<real>, realized: Option<real>, fees: Option<real>, net: Option<real>,
                     feesOnly: bool)

  /** The durable identity of the position a row belongs to. */
  datatype Key = ByParent(id: nat) | BySetup(id: nat) | BySetupKey(id: nat) | ByEntryOrder(id: nat)
               | ByTrade(tradeId: TradeId) | ByOrder(id: nat) | ByRow(index: nat)

  function ParentKey(row: Row, index: nat): Key {
    if row.parent.Some? then ByParent(row.parent.value)
    else if row.setup.Some? then BySetup(row.setup.value)
    else if row.setupKey.Some? then BySetupKey(row.setupKey.value)
    else if row.tradeId.CloseId? && row.tradeId.entry.Some? then ByEntryOrder(row.tradeId.entry.value)
    else if row.action == Open && row.orderId.Some? then ByEntryOrder(row.orderId.value)
    else if !row.tradeId.NoTradeId? then ByTrade(row.tradeId)
    else if row.orderId.Some? then ByOrder(row.orderId.value)
    else ByRow(index)
  }

  /** The entry order that a row without newer identities belongs to: a close names it, an open is it. */
  function LegacyEntry(row: Row): Option<nat> {
    match row.tradeId
    case CloseId(Some(entry), _) => Some(entry)
    case _ => if row.action == Open then row.orderId else None
  }

  /** The row has none of the three identities that name a parent. */
  predicate Legacy(row: Row) { row.parent.None? && row.setup.None? && row.setupKey.None? }

  /** Rows that name a parent share it exactly when they name the same, by the first identity they carry. */
  lemma NamedParents(a: Row, b: Row, i: nat, j: nat)
    ensures a.parent.Some? && b.parent.Some? ==> (ParentKey(a, i) == ParentKey(b, j) <==> a.parent == b.parent)
    ensures a.parent.None? && b.parent.None? && a.setup.Some? && b.setup.Some? ==>
              (ParentKey(a, i) == ParentKey(b, j) <==> a.setup == b.setup)
    ensures (&& a.parent.None? && b.parent.None? && a.setup.None? && b.setup.None?
             && a.setupKey.Some? && b.setupKey.Some?)
            ==> (ParentKey(a, i) == ParentKey(b, j) <==> a.setupKey == b.setupKey)
    ensures a.parent.Some? != b.parent.Some? ==> ParentKey(a, i) != ParentKey(b, j)
    ensures a.parent.None? && b.parent.None? && a.setup.Some? != b.setup.Some? ==> ParentKey(a, i) != ParentKey(b, j)
  {
  }

  /**
   * Older rows share a parent exactly when they belong to the same entry order - an open and the closes of any of
   * its retries do - or else carry the same trade id, or else the same order id; a row without any stands alone.
   */
  lemma LegacyParents(a: Row, b: Row, i: nat, j: nat)
    requires Legacy(a) && Legacy(b)
    ensures ParentKey(a, i) == ParentKey(b, j) <==>
            if LegacyEntry(a).Some? || LegacyEntry(b).Some? then LegacyEntry(a) == LegacyEntry(b)
            else if a.tradeId != NoTradeId || b.tradeId != NoTradeId then a.tradeId == b.tradeId
            else if a.orderId.Some? || b.orderId.Some? then a.orderId == b.orderId
            else i == j
  {
  }

  // ---- Groups

  /** The open and close rows of one parent, in journal order. */
  function RowsOf(events: seq<Row>, key: Key): seq<Row> {
    if events == [] then []
    else
      var n := |events| - 1;
      RowsOf(events[..n], key) +
      if events[n].action != Other && ParentKey(events[n], n) == key then [events[n]] else []
  }

  function ClosesIn(rows: seq<Row>): seq<Row> {
    if rows == [] then []
    else ClosesIn(rows[..|rows| - 1]) + if rows[|rows| - 1].action == Close then [rows[|rows| - 1]] else []
  }

  // ---- Completeness

  /** The first of two quantities that is a positive number. */
  function Quantity(a: Option<real>, b: Option<real>): Option<real> {
    if a.Some? && a.value > 0.0 then a else if b.Some? && b.value > 0.0 then b else None
  }

  function QtyIn(rows: seq<Row>, action: Action): (r: real)
    ensures r >= 0.0
  {
    if rows == [] then 0.0
    else
      var row := rows[|rows| - 1];
      QtyIn(rows[..|rows| - 1], action) +
      if row.action == action then Quantity(row.qty, row.cumulative).GetOr(0.0) else 0.0
  }

  /** The largest quantity a close asked for; zero when none says. */
  function LargestRequest(closes: seq<Row>): (r: real)
    ensures r >= 0.0
  {
    if closes == [] then 0.0
    else
      Max(LargestRequest(closes[..|closes| - 1]), Max(0.0, closes[|closes| - 1].requested.GetOr(0.0)))
  }

  /** `closed` reaches `wanted`, up to the larger of an absolute and a relative tolerance. */
  predicate Reaches(closed: real, wanted: real) { closed + Max(EPSILON, wanted * EPSILON) >= wanted }

  predicate Complete(rows: seq<Row>) {
    var closes := ClosesIn(rows);
    var entered, closed := QtyIn(rows, Open), QtyIn(rows, Close);
    if exists r :: r in closes && r.positionClosed then true
    else if entered > 0.0 then Reaches(closed, entered)
    else if LargestRequest(closes) > 0.0 then Reaches(closed, LargestRequest(closes))
    else if closes != [] && (forall r :: r in closes ==> r.fraction.Some?)
    then exists r :: r in closes && r.fraction.value >= 1.0 - EPSILON
    else !(exists r :: r in closes && r.partial)
  }

  /** Each row counts with the first of its two quantities that is positive, if any. */
  lemma QuantityIsTheFirstPositive(row: Row)
    ensures QtyIn([row], row.action) ==
            if row.qty.Some? && row.qty.value > 0.0 then row.qty.value
            else if row.cumulative.Some? && row.cumulative.value > 0.0 then row.cumulative.value
            else 0.0
  {
    assert [row][..0] == [];
  }

  /** A close asked for a positive quantity. */
  predicate Asks(r: Row) { r.requested.Some? && r.requested.value > 0.0 }

  lemma {:induction false} LargestIsReached(closes: seq<Row>, closed: real)
    ensures LargestRequest(closes) > 0.0 <==> exists r :: r in closes && Asks(r)
    ensures LargestRequest(closes) > 0.0 ==>
              (Reaches(closed, LargestRequest(closes)) <==>
               forall r :: r in closes && Asks(r) ==> Reaches(closed, r.requested.value))
  {
    if closes != [] {
      var n := |closes| - 1;
      LargestIsReached(closes[..n], closed);
      assert closes == closes[..n] + [closes[n]];
      assert closes[n] in closes;
      if r :| r in closes[..n] && Asks(r) {
        assert r in closes;
      }
    }
  }

  /** An explicit mark closes a parent whatever the quantities say. */
  lemma ExplicitMarkCloses(rows: seq<Row>)
    requires exists r :: r in ClosesIn(rows) && r.positionClosed
    ensures Complete(rows)
  {
  }

  /**
   * Without a mark or an open row, a parent is complete when its closes reach every request among them; if none
   * asks, when every close says how much of it filled and one filled wholly; and if not all say, when none is
   * marked partial.
   */
  lemma CloseOnlyCompleteIff(rows: seq<Row>)
    requires !(exists r :: r in ClosesIn(rows) && r.positionClosed) && QtyIn(rows, Open) == 0.0
    ensures var closes := ClosesIn(rows);
            Complete(rows) <==>
            if exists r :: r in closes && Asks(r)
            then forall r :: r in closes && Asks(r) ==> Reaches(QtyIn(rows, Close), r.requested.value)
            else if closes != [] && forall r :: r in closes ==> r.fraction.Some?
            then exists r :: r in closes && r.fraction.value + EPSILON >= 1.0
            else forall r :: r in closes ==> !r.partial
  {
    hide Reaches;
    LargestIsReached(ClosesIn(rows), QtyIn(rows, Close));
  }

  // ---- Economics

  function GrossOf(row: Row): Option<real> {
    var gross := if row.gross.Some? then row.gross else row.realized;
    if gross.Some? then gross
    else if row.net.Some? && row.fees.Some? && row.feesOnly then Some(row.net.value + row.fees.value)
    else None
  }

  /** A row's net result; never invented: without an explicit one it takes a gross result and known fees. */
  function NetOf(row: Row): Option<real> {
    var gross := if row.gross.Some? then row.gross else row.realized;
    if row.net.Some? then row.net
    else if gross.Some? && row.fees.Some? && row.feesOnly then Some(gross.value - row.fees.value)
    else None
  }

  /**
   * Recorded results are taken as they are, a realized one for a gross one that is missing. The other of the two
   * is filled in only from known fees, where nothing but fees lies between them, and then they differ by just those.
   */
  lemma ResultsAreNotInvented(row: Row)
    ensures row.gross.Some? ==> GrossOf(row) == row.gross
    ensures row.gross.None? && row.realized.Some? ==> GrossOf(row) == row.realized
    ensures row.net.Some? ==> NetOf(row) == row.net
    ensures var recorded := row.gross.Some? || row.realized.Some?;
            && (recorded != row.net.Some? && row.fees.Some? && row.feesOnly ==>
                  && GrossOf(row).Some? && NetOf(row).Some?
                  && GrossOf(row).value == NetOf(row).value + row.fees.value)
            && (row.fees.None? || !row.feesOnly || (!recorded && row.net.None?) ==>
                  (GrossOf(row).Some? <==> recorded) && (NetOf(row).Some? <==> row.net.Some?))
  {
  }

  /** The sum of known values, or unknown as soon as one is. */
  function Total(rows: seq<Row>, value: Row -> Option<real>): Option<real> {
    if rows == [] then Some(0.0)
    else
      var rest, last := Total(rows[..|rows| - 1], value), value(rows[|rows| - 1]);
      if rest.Some? && last.Some? then Some(rest.value + last.value) else None
  }

  datatype Parent = Parent(key: Key, fills: nat, gross: Option<real>, net: Option<real>)

  function ParentOf(key: Key, rows: seq<Row>): Parent {
    var closes := ClosesIn(rows);
    Parent(key, |closes|, Total(closes, GrossOf), Total(closes, NetOf))
  }

  // ---- The reader

  predicate HasClose(events: seq<Row>, k: Key) { ClosesIn(RowsOf(events, k)) != [] }

  /** `parents` are the complete parents among `keys`, each once. */
  ghost predicate ReadsKeys(parents: seq<Parent>, events: seq<Row>, keys: seq<Key>) {
    && (forall p :: p in parents ==>
          p.key in keys && Complete(RowsOf(events, p.key)) && p == ParentOf(p.key, RowsOf(events, p.key)))
    && (forall k :: k in keys && Complete(RowsOf(events, k)) ==> ParentOf(k, RowsOf(events, k)) in parents)
    && (forall i, j :: 0 <= i < j < |parents| ==> parents[i].key != parents[j].key)
  }

  /** `parents` are exactly the complete parents of the journal that have a close row, each once. */
  ghost predicate Reads(parents: seq<Parent>, events: seq<Row>) {
    && (forall p :: p in parents ==>
          HasClose(events, p.key) && Complete(RowsOf(events, p.key)) && p == ParentOf(p.key, RowsOf(events, p.key)))
    && (forall k :: HasClose(events, k) && Complete(RowsOf(events, k)) ==> ParentOf(k, RowsOf(events, k)) in parents)
    && (forall i, j :: 0 <= i < j < |parents| ==> parents[i].key != parents[j].key)
  }

  predicate DistinctKeys(keys: seq<Key>) { forall i, j :: 0 <= i < j < |keys| ==> keys[i] != keys[j] }

  function GroupOf(groups: map<Key, seq<Row>>, k: Key): seq<Row> { if k in groups then groups[k] else [] }

  /** The groups so far are right about one key. */
  predicate Right(groups: map<Key, seq<Row>>, closing: seq<Key>, events: seq<Row>, n: nat, k: Key)
    requires n <= |events|
  {
    && GroupOf(groups, k) == RowsOf(events[..n], k)
    && (k in closing <==> ClosesIn(RowsOf(events[..n], k)) != [])
  }

  method Group(events: seq<Row>) returns (groups: map<Key, seq<Row>>, closing: seq<Key>)
    ensures forall k :: GroupOf(groups, k) == RowsOf(events, k)
    ensures DistinctKeys(closing)
    ensures forall k :: k in closing <==> ClosesIn(RowsOf(events, k)) != []
  {
    hide Right, RowsOf, ClosesIn, GroupOf;
    groups, closing := map[], [];
    RightAtFirst(events);
    var n := 0;
    while n < |events|
      invariant 0 <= n <= |events|
      invariant DistinctKeys(closing)
      invariant forall k :: Right(groups, closing, events, n, k)
    {
      var row := events[n];
      var key := ParentKey(row, n);
      ghost var g, c := groups, closing;
      if row.action != Other {
        groups := groups[key := (if key in groups then groups[key] else []) + [row]];
      }
      if row.action == Close && key !in closing {
        closing := closing + [key];
      }
      n := n + 1;
      forall k
        ensures Right(groups, closing, events, n, k)
      {
        RightStep(g, c, groups, closing, events, n - 1, k);
      }
    }
    RightAtLast(groups, closing, events);
  }

  lemma RightAtFirst(events: seq<Row>)
    ensures forall k :: Right(map[], [], events, 0, k)
  {
  }

  lemma RightAtLast(groups: map<Key, seq<Row>>, closing: seq<Key>, events: seq<Row>)
    requires forall k :: Right(groups, closing, events, |events|, k)
    ensures forall k :: GroupOf(groups, k) == RowsOf(events, k)
    ensures forall k :: k in closing <==> ClosesIn(RowsOf(events, k)) != []
  {
    hide RowsOf, ClosesIn, GroupOf;
    assert events[..|events|] == events;
    forall k
      ensures GroupOf(groups, k) == RowsOf(events, k) && (k in closing <==> ClosesIn(RowsOf(events, k)) != [])
    {
      assert Right(groups, closing, events, |events|, k);
    }
  }

  lemma RightStep(groups: map<Key, seq<Row>>, closing: seq<Key>, after: map<Key, seq<Row>>, closed: seq<Key>,
                  events: seq<Row>, n: nat, k: Key)
    requires n < |events| && Right(groups, closing, events, n, k)
    requires var row := events[n];
             var key := ParentKey(row, n);
             && after == (if row.action != Other
                          then groups[key := (if key in groups then groups[key] else []) + [row]] else groups)
             && closed == (if row.action == Close && key !in closing then closing + [key] else closing)
    ensures Right(after, closed, events, n + 1, k)
  {
    hide RowsOf, ClosesIn, ParentKey;
    OneMoreRow(events, n, k);
  }

  lemma OneMoreRow(events: seq<Row>, n: nat, key: Key)
    requires n < |events|
    ensures var row := events[n];
            && RowsOf(events[..n + 1], key) ==
               RowsOf(events[..n], key) + (if row.action != Other && ParentKey(row, n) == key then [row] else [])
            && ClosesIn(RowsOf(events[..n + 1], key)) ==
               ClosesIn(RowsOf(events[..n], key)) +
               (if row.action == Close && ParentKey(row, n) == key then [row] else [])
  {
    assert events[..n + 1][..n] == events[..n];
    var before, row := RowsOf(events[..n], key), events[n];
    assert before + [] == before;
    CloseAppends(before, row);
  }

  lemma CloseAppends(rows: seq<Row>, row: Row)
    ensures ClosesIn(rows + [row]) == ClosesIn(rows) + if row.action == Close then [row] else []
  {
  }

  method ClosedParents(events: seq<Row>) returns (parents: seq<Parent>)
    ensures Reads(parents, events)
  {
    var groups, closing := Group(events);
    parents := [];
    var n := 0;
    while n < |closing|
      invariant 0 <= n <= |closing|
      invariant ReadsKeys(parents, events, closing[..n])
    {
      var key := closing[n];
      var rows := GroupOf(groups, key);
      ReadOneMore(parents, events, closing, n);
      if Complete(rows) {
        parents := parents + [ParentOf(key, rows)];
      }
      n := n + 1;
    }
    assert closing[..n] == closing;
    AllKeysRead(parents, events, closing);
  }

  lemma AllKeysRead(parents: seq<Parent>, events: seq<Row>, closing: seq<Key>)
    requires ReadsKeys(parents, events, closing)
    requires forall k :: k in closing <==> ClosesIn(RowsOf(events, k)) != []
    ensures Reads(parents, events)
  {
    hide Complete, RowsOf, ClosesIn, ParentOf;
  }

  lemma ReadOneMore(parents: seq<Parent>, events: seq<Row>, keys: seq<Key>, n: nat)
    requires n < |keys| && DistinctKeys(keys) && ReadsKeys(parents, events, keys[..n])
    ensures var rows := RowsOf(events, keys[n]);
            ReadsKeys(if Complete(rows) then parents + [ParentOf(keys[n], rows)] else parents, events, keys[..n + 1])
  {
    hide RowsOf, Complete;
    assert keys[..n + 1] == keys[..n] + [keys[n]];
    var rows := RowsOf(events, keys[n]);
    forall i | 0 <= i < |parents|
      ensures parents[i].key != keys[n]
    {
      assert parents[i] in parents && parents[i].key in keys[..n];
    }
  }

  // ---- Journals written by the lifecycle

  /** A row as the lifecycle writes it: a setup id per exposure, a positive quantity, no explicit closed mark. */
  predicate Written(row: Row) {
    && row.parent.None? && row.setup.Some?
    && row.qty.Some? && row.qty.value > 0.0
    && !row.positionClosed
  }

  /** The rows one exposure wrote. */
  function Mine(events: seq<Row>, setup: nat): seq<Row> {
    if events == [] then []
    else
      var row := events[|events| - 1];
      Mine(events[..|events| - 1], setup) + if row.setup == Some(setup) && row.action != Other then [row] else []
  }

  lemma {:induction false} GroupsAreExposures(events: seq<Row>, setup: nat)
    requires forall r :: r in events ==> Written(r)
    ensures RowsOf(events, BySetup(setup)) == Mine(events, setup)
  {
    if events != [] {
      var n := |events| - 1;
      GroupsAreExposures(events[..n], setup);
      assert Written(events[n]);
    }
  }

  lemma {:induction false} NoOtherGroups(events: seq<Row>, key: Key)
    requires (forall r :: r in events ==> Written(r)) && !key.BySetup?
    ensures RowsOf(events, key) == []
  {
    if events != [] {
      NoOtherGroups(events[..|events| - 1], key);
      assert Written(events[|events| - 1]);
    }
  }

  /** Quantities as the lifecycle books them: the plain sum over an exposure's rows. */
  function Booked(rows: seq<Row>, action: Action): real {
    if rows == [] then 0.0
    else Booked(rows[..|rows| - 1], action) +
         if rows[|rows| - 1].action == action then rows[|rows| - 1].qty.GetOr(0.0) else 0.0
  }

  lemma {:induction false} QuantitiesAreBooked(rows: seq<Row>, action: Action)
    requires forall r :: r in rows ==> Written(r)
    ensures QtyIn(rows, action) == Booked(rows, action)
  {
    if rows != [] {
      QuantitiesAreBooked(rows[..|rows| - 1], action);
      assert Written(rows[|rows| - 1]);
    }
  }

  lemma {:induction false} MineAreWritten(events: seq<Row>, setup: nat)
    requires forall r :: r in events ==> Written(r)
    ensures forall r :: r in Mine(events, setup) ==> Written(r)
  {
    if events != [] {
      MineAreWritten(events[..|events| - 1], setup);
      assert Written(events[|events| - 1]);
    }
  }

  lemma {:induction false} ClosesAreRows(rows: seq<Row>)
    ensures forall r :: r in ClosesIn(rows) ==> r in rows && r.action == Close
  {
    if rows != [] {
      ClosesAreRows(rows[..|rows| - 1]);
    }
  }

  /** The lifecycle takes an exposure off the book when its closes reach its entry up to one absolute tolerance. */
  predicate LifecycleCovers(closed: real, entered: real) { closed >= entered - EPSILON }

  /** A written exposure that was opened is reported closed exactly when its close rows reach its open rows. */
  lemma CompleteIffReached(events: seq<Row>, setup: nat)
    requires forall r :: r in events ==> Written(r)
    requires Booked(Mine(events, setup), Open) > 0.0
    ensures var rows := Mine(events, setup);
            && RowsOf(events, BySetup(setup)) == rows
            && (Complete(rows) <==> Reaches(Booked(rows, Close), Booked(rows, Open)))
  {
    var rows := Mine(events, setup);
    GroupsAreExposures(events, setup);
    MineAreWritten(events, setup);
    QuantitiesAreBooked(rows, Open);
    QuantitiesAreBooked(rows, Close);
    ClosesAreRows(rows);
  }

  /**
   * The report agrees with the lifecycle on what is closed unless the shortfall is above the lifecycle's
   * absolute tolerance and within the report's relative one, which takes an entry of more than one unit.
   */
  lemma ReportAgreesIff(closed: real, entered: real)
    requires entered > 0.0
    ensures LifecycleCovers(closed, entered) ==> Reaches(closed, entered)
    ensures (Reaches(closed, entered) <==> LifecycleCovers(closed, entered)) <==>
            !(EPSILON < entered - closed <= entered * EPSILON)
    ensures entered <= 1.0 ==> (Reaches(closed, entered) <==> LifecycleCovers(closed, entered))
  {
  }

  /** In whole units the two agree on entries below a thousand million. */
  lemma WholeUnitsAgree(closed: int, entered: int)
    requires 0 < entered < 1_000_000_000 && closed <= entered
    ensures Reaches(closed as real, entered as real) <==> closed == entered
    ensures LifecycleCovers(closed as real, entered as real) <==> closed == entered
  {
  }

  /** An entry of two units, short by one and a half tolerances, is still open on the book and closed in the report. */
  lemma TolerancesDiffer()
    ensures Reaches(2.0 - 1.5 * EPSILON, 2.0) && !LifecycleCovers(2.0 - 1.5 * EPSILON, 2.0)
  {
  }

  /** The net result of a parent is unknown exactly when one of its closes has an unknown one. */
  lemma {:induction false} UnknownSpreads(rows: seq<Row>, value: Row -> Option<real>)
    ensures Total(rows, value).None? <==> exists r :: r in rows && value(r).None?
  {
    if rows != [] {
      var n := |rows| - 1;
      UnknownSpreads(rows[..n], value);
      if Total(rows[..n], value).None? {
        var r :| r in rows[..n] && value(r).None?;
        assert r in rows;
      }
    }
  }

  // ---- Row order

  lemma {:induction false} MineKeepsCounts(events: seq<Row>, setup: nat, r: Row)
    ensures multiset(Mine(events, setup))[r] ==
            if r.setup == Some(setup) && r.action != Other then multiset(events)[r] else 0
  {
    if events != [] {
      var n := |events| - 1;
      var before, last := events[..n], events[n];
      MineKeepsCounts(before, setup, r);
      assert multiset(events) == multiset(before) + multiset{last} by {
        assert events == before + [last];
      }
      assert multiset(events)[r] == multiset(before)[r] + if last == r then 1 else 0;
    }
  }

  lemma {:induction false} ClosesKeepCounts(rows: seq<Row>, r: Row)
    ensures multiset(ClosesIn(rows))[r] == if r.action == Close then multiset(rows)[r] else 0
  {
    if rows != [] {
      var n := |rows| - 1;
      ClosesKeepCounts(rows[..n], r);
      assert rows == rows[..n] + [rows[n]];
    }
  }

  function Plus(a: Option<real>, b: Option<real>): Option<real> {
    if a.Some? && b.Some? then Some(a.value + b.value) else None
  }

  function Without(rows: seq<Row>, k: nat): (r: seq<Row>)
    requires k < |rows|
    ensures |r| == |rows| - 1
    ensures forall i :: 0 <= i < k ==> r[i] == rows[i]
    ensures forall i :: k <= i < |r| ==> r[i] == rows[i + 1]
  {
    rows[..k] + rows[k + 1..]
  }

  lemma WithoutCounts(rows: seq<Row>, k: nat)
    requires k < |rows|
    ensures multiset(Without(rows, k)) == multiset(rows) - multiset{rows[k]}
  {
    assert rows == rows[..k] + [rows[k]] + rows[k + 1..];
  }

  lemma WithoutAndLast(rows: seq<Row>, k: nat)
    requires k < |rows|
    ensures k == |rows| - 1 ==> Without(rows, k) == rows[..k]
    ensures k < |rows| - 1 ==>
              var r := Without(rows, k);
              r[|r| - 1] == rows[|rows| - 1] && r[..|r| - 1] == Without(rows[..|rows| - 1], k)
  {
  }

  lemma {:induction false} TotalWithout(rows: seq<Row>, value: Row -> Option<real>, k: nat)
    requires k < |rows|
    ensures Total(rows, value) == Plus(Total(Without(rows, k), value), value(rows[k]))
  {
    hide Without;
    WithoutAndLast(rows, k);
    if k < |rows| - 1 {
      TotalWithout(rows[..|rows| - 1], value, k);
    }
  }

  lemma {:induction false} TotalForgetsOrder(a: seq<Row>, b: seq<Row>, value: Row -> Option<real>)
    requires multiset(a) == multiset(b)
    ensures Total(a, value) == Total(b, value)
  {
    hide Without;
    assert |multiset(a)| == |multiset(b)|;
    if a != [] {
      var n := |a| - 1;
      assert a == a[..n] + [a[n]];
      assert a[n] in multiset(b);
      var k :| 0 <= k < |b| && b[k] == a[n];
      assert multiset(a[..n]) == multiset(a) - multiset{a[n]};
      WithoutCounts(b, k);
      TotalForgetsOrder(a[..n], Without(b, k), value);
      TotalWithout(b, value, k);
    }
  }

  lemma {:induction false} BookedIsATotal(rows: seq<Row>, action: Action)
    ensures Total(rows, (r: Row) => Some(if r.action == action then r.qty.GetOr(0.0) else 0.0)) ==
            Some(Booked(rows, action))
  {
    if rows != [] {
      BookedIsATotal(rows[..|rows| - 1], action);
    }
  }

  lemma BookedForgetsOrder(a: seq<Row>, b: seq<Row>, action: Action)
    requires multiset(a) == multiset(b)
    ensures Booked(a, action) == Booked(b, action)
  {
    BookedIsATotal(a, action);
    BookedIsATotal(b, action);
    TotalForgetsOrder(a, b, (r: Row) => Some(if r.action == action then r.qty.GetOr(0.0) else 0.0));
  }

  /** An exposure reads the same - closed or not, gross, net, number of fills - in whatever order its rows come. */
  lemma RowOrderDoesNotMatter(a: seq<Row>, b: seq<Row>, setup: nat)
    requires multiset(a) == multiset(b) && (forall r :: r in a ==> Written(r))
    requires Booked(Mine(a, setup), Open) > 0.0
    ensures var key := BySetup(setup);
            && (Complete(RowsOf(a, key)) <==> Complete(RowsOf(b, key)))
            && ParentOf(key, RowsOf(a, key)) == ParentOf(key, RowsOf(b, key))
  {
    hide Complete, ClosesIn, RowsOf, Mine, Booked, Total, Reaches;
    assert forall r :: r in b ==> r in multiset(a);
    var x, y := Mine(a, setup), Mine(b, setup);
    assert multiset(x) == multiset(y) by {
      forall r
        ensures multiset(x)[r] == multiset(y)[r]
      {
        MineKeepsCounts(a, setup, r);
        MineKeepsCounts(b, setup, r);
      }
    }
    var p, q := ClosesIn(x), ClosesIn(y);
    assert multiset(p) == multiset(q) by {
      forall r
        ensures multiset(p)[r] == multiset(q)[r]
      {
        ClosesKeepCounts(x, r);
        ClosesKeepCounts(y, r);
      }
    }
    assert |multiset(p)| == |multiset(q)|;
    BookedForgetsOrder(x, y, Open);
    BookedForgetsOrder(x, y, Close);
    CompleteIffReached(a, setup);
    CompleteIffReached(b, setup);
    TotalForgetsOrder(p, q, GrossOf);
    TotalForgetsOrder(p, q, NetOf);
  }

  /**
   * What the reader returns for a journal the lifecycle wrote: for every opened exposure with a close row, a
   * parent exactly when the closes reach the entry, with the sums of its close rows.
   */
  lemma ParentsAreTheClosedExposures(parents: seq<Parent>, events: seq<Row>, setup: nat)
    requires Reads(parents, events) && (forall r :: r in events ==> Written(r))
    requires Booked(Mine(events, setup), Open) > 0.0 && ClosesIn(Mine(events, setup)) != []
    ensures var rows := Mine(events, setup);
            var closes := ClosesIn(rows);
            var parent := Parent(BySetup(setup), |closes|, Total(closes, GrossOf), Total(closes, NetOf));
            && (parent in parents <==> Reaches(Booked(rows, Close), Booked(rows, Open)))
            && (forall p :: p in parents && p.key == BySetup(setup) ==> p == parent)
    ensures forall p :: p in parents ==> p.key.BySetup?
  {
    hide Complete, Reaches;
    CompleteIffReached(events, setup);
    var rows := Mine(events, setup);
    assert ParentOf(BySetup(setup), rows) ==
           Parent(BySetup(setup), |ClosesIn(rows)|, Total(ClosesIn(rows), GrossOf), Total(ClosesIn(rows), NetOf));
    assert HasClose(events, BySetup(setup));
    forall p | p in parents
      ensures p.key.BySetup?
    {
      if !p.key.BySetup? {
        NoOtherGroups(events, p.key);
      }
    }
  }
}
