/**
 * The entry-order loop of one reconciliation: every durable row is matched to the broker's listing, an
 * ambiguously submitted entry is adopted under the id of the order it created, and fills are activated.
 *
 * A row is keyed by the broker's id, or by the program's own client id while its submission is unresolved.
 */
module EntryBook {
  import opened Basics
  import opened Evidence
  import opened EntryFills

  datatype OrderRow = OrderRow(
    orderId: string,
    clientId: string,
    unresolved: bool,
    bracket: bool,
    legs: seq<string>,
    legsPending: bool,
    entry: Entry)

  /** One listed order; an absent client id is the empty string. */
  datatype Listed = Listed(id: string, clientId: string, view: View, legs: seq<string>)

  // ---- Lookups

  function ById(listing: seq<Listed>, id: string): (r: Option<Listed>)
    ensures r.Some? ==> r.value in listing && r.value.id == id != ""
    ensures r.None? && id != "" ==> forall o :: o in listing ==> o.id != id
  {
    if listing == [] || id == "" then None
    else
      var o := listing[|listing| - 1];
      if o.id == id then Some(o) else ById(listing[..|listing| - 1], id)
  }

  function ByClient(listing: seq<Listed>, clientId: string): (r: Option<Listed>)
    ensures r.Some? ==> r.value in listing && r.value.clientId == clientId != ""
    ensures r.None? && clientId != "" ==> forall o :: o in listing ==> o.clientId != clientId
  {
    if listing == [] || clientId == "" then None
    else
      var o := listing[|listing| - 1];
      if o.clientId == clientId then Some(o) else ByClient(listing[..|listing| - 1], clientId)
  }

  /** The listed order a row stands for: by its broker id, else by its client id. */
  function Find(listing: seq<Listed>, key: string, row: OrderRow): Option<Listed> {
    var byId := ById(listing, if row.orderId != "" then row.orderId else key);
    if byId.Some? then byId else ByClient(listing, row.clientId)
  }

  /** What the broker guarantees about its own listing. */
  ghost predicate ValidListing(listing: seq<Listed>) {
    && (forall i :: 0 <= i < |listing| ==> listing[i].id != "")
    && (forall i, j :: 0 <= i < |listing| && 0 <= j < |listing| && i != j ==>
          && listing[i].id != listing[j].id
          && (listing[i].clientId != "" ==> listing[i].clientId != listing[j].clientId)
          && listing[i].id != listing[j].clientId)
  }

  // ---- Adoption

  /** What becomes of one row's key. */
  datatype Fate = Stay(row: OrderRow) | Move(to: string, row: OrderRow) | Drop

  /** The adopted row: bound to the broker's id, with the legs of the listing or of the exact lookup. */
  function Adopted(row: OrderRow, order: Listed, exact: map<string, seq<string>>): OrderRow {
    var legs := if order.legs != [] then order.legs
                else if row.clientId != "" && row.clientId in exact then exact[row.clientId]
                else [];
    var bound := row.(orderId := order.id, unresolved := false);
    if legs != [] then bound.(legs := legs, legsPending := false)
    else if row.bracket then bound.(legsPending := true)
    else bound
  }

  function FateOf(rows: map<string, OrderRow>, listing: seq<Listed>, exact: map<string, seq<string>>, key: string): Fate
    requires key in rows
  {
    var row := rows[key];
    var order := Find(listing, key, row);
    if order.None? || !row.unresolved then Stay(row)
    else if key == order.value.id then Stay(Adopted(row, order.value, exact))
    else if order.value.id in rows then Drop
    else Move(order.value.id, Adopted(row, order.value, exact))
  }

  /** The evidence step of a row that is not dropped. */
  function StepOf(rows: map<string, OrderRow>, listing: seq<Listed>, key: string): Activation
    requires key in rows
  {
    var order := Find(listing, key, rows[key]);
    Reconciled(rows[key].entry, if order.Some? then Some(order.value.view) else None)
  }

  // ---- The book after a reconciliation, key by key

  /** What one reconciliation does to every row; `origins` names the row that moves to a new key. */
  datatype Plan = Plan(fates: map<string, Fate>, steps: map<string, Activation>, origins: map<string, string>)

  function PlanOf(rows: map<string, OrderRow>, listing: seq<Listed>, exact: map<string, seq<string>>): Plan {
    var fates := map k | k in rows :: FateOf(rows, listing, exact, k);
    Plan(fates,
         map k | k in rows :: StepOf(rows, listing, k),
         map x | x in (set k | k in rows && fates[k].Move? :: fates[k].to) && ById(listing, x).Some? ::
           ById(listing, x).value.clientId)
  }

  /** Moves are one-to-one, each to a key that was free. */
  ghost predicate ValidPlan(rows: map<string, OrderRow>, plan: Plan) {
    && plan.fates.Keys == rows.Keys && plan.steps.Keys == rows.Keys
    && (forall k :: k in rows && plan.fates[k].Move? ==>
          && plan.fates[k].to !in rows
          && plan.fates[k].to in plan.origins && plan.origins[plan.fates[k].to] == k)
  }

  /** Every key names the order id of its row; an unresolved row is keyed by its client id and has no fill. */
  ghost predicate WellKeyed(rows: map<string, OrderRow>) {
    forall key :: key in rows ==>
      && key != "" && rows[key].orderId == key
      && (rows[key].unresolved ==>
            rows[key].clientId == key && rows[key].entry.evidence.filled == 0.0 && rows[key].entry.logged == 0.0)
  }

  /** The row from which key `x` is filled: itself, or the unresolved row that moves there. */
  function Origin(rows: map<string, OrderRow>, plan: Plan, x: string): string {
    if x in rows || x !in plan.origins then x else plan.origins[x]
  }

  /** Key `x` holds a row afterwards. */
  predicate Holds(rows: map<string, OrderRow>, plan: Plan, x: string) {
    var from := Origin(rows, plan, x);
    from in plan.fates && plan.fates[from] != Drop && x == Home(plan, from)
  }

  /** The key where a row that is not dropped ends up. */
  function Home(plan: Plan, key: string): string
    requires key in plan.fates
  {
    if plan.fates[key].Move? then plan.fates[key].to else key
  }

  function RowAfter(rows: map<string, OrderRow>, plan: Plan, x: string): OrderRow
    requires ValidPlan(rows, plan) && Holds(rows, plan, x)
  {
    var from := Origin(rows, plan, x);
    var step := plan.steps[from];
    if step.Activated? then plan.fates[from].row.(entry := step.entry) else plan.fates[from].row
  }

  function FillsAfter(rows: map<string, OrderRow>, plan: Plan, x: string): seq<Fill>
    requires ValidPlan(rows, plan) && Holds(rows, plan, x)
  {
    var step := plan.steps[Origin(rows, plan, x)];
    if step.Activated? then step.fills else []
  }

  /** Some row that is kept cannot be activated. */
  predicate RefusedAt(plan: Plan, key: string)
    requires key in plan.fates && key in plan.steps
  {
    !plan.fates[key].Drop? && plan.steps[key].Refused?
  }

  /** `after` is the book that carrying out the plan leaves. */
  ghost predicate IsReconciled(rows: map<string, OrderRow>, plan: Plan, after: map<string, OrderRow>)
    requires ValidPlan(rows, plan)
  {
    && (forall x :: x in after <==> Holds(rows, plan, x))
    && (forall x :: x in after ==> after[x] == RowAfter(rows, plan, x))
  }

  function JournalOf(journal: map<string, seq<Fill>>, x: string): seq<Fill> {
    if x in journal then journal[x] else []
  }

  lemma SameListed(listing: seq<Listed>, a: Listed, b: Listed)
    requires ValidListing(listing) && a in listing && b in listing
    requires a.id == b.id || (a.clientId == b.clientId && a.clientId != "") || a.id == b.clientId
    ensures a == b
  {
  }

  /** A row that moves is the one its listed order's client id names, and its target key was free. */
  lemma PlanIsValid(rows: map<string, OrderRow>, listing: seq<Listed>, exact: map<string, seq<string>>)
    requires WellKeyed(rows) && ValidListing(listing)
    ensures ValidPlan(rows, PlanOf(rows, listing, exact))
  {
    var plan := PlanOf(rows, listing, exact);
    forall k | k in rows && plan.fates[k].Move?
      ensures var to := plan.fates[k].to; to !in rows && to in plan.origins && plan.origins[to] == k
    {
      var order := Find(listing, k, rows[k]).value;
      assert order.clientId == k;
      SameListed(listing, ById(listing, order.id).value, order);
    }
  }

  // ---- The loop

  /** Key `x` holds a row once the keys in `done` were processed. */
  predicate HoldsNow(rows: map<string, OrderRow>, plan: Plan, done: set<string>, x: string) {
    if Origin(rows, plan, x) in done then Holds(rows, plan, x) else x in rows
  }

  function NewFills(rows: map<string, OrderRow>, plan: Plan, done: set<string>, x: string): seq<Fill>
    requires ValidPlan(rows, plan)
  {
    if Origin(rows, plan, x) in done && Holds(rows, plan, x) then FillsAfter(rows, plan, x) else []
  }

  /** Progress at one key: processed rows are as the reconciled book has them, the others untouched. */
  predicate PartialAt(rows: map<string, OrderRow>, plan: Plan, done: set<string>, orders: map<string, OrderRow>,
                      before: map<string, seq<Fill>>, journal: map<string, seq<Fill>>, x: string)
    requires ValidPlan(rows, plan)
  {
    && (x in orders <==> HoldsNow(rows, plan, done, x))
    && (x in orders ==>
          orders[x] == if Origin(rows, plan, x) in done then RowAfter(rows, plan, x) else rows[x])
    && JournalOf(journal, x) == JournalOf(before, x) + NewFills(rows, plan, done, x)
  }

  ghost predicate Partial(rows: map<string, OrderRow>, plan: Plan, done: set<string>, orders: map<string, OrderRow>,
                          before: map<string, seq<Fill>>, journal: map<string, seq<Fill>>)
    requires ValidPlan(rows, plan)
  {
    forall x :: PartialAt(rows, plan, done, orders, before, journal, x)
  }

  /** While a row is processed, the key it would move to is taken exactly when it was taken at the start. */
  lemma TargetIsTakenIffItWas(rows: map<string, OrderRow>, listing: seq<Listed>, exact: map<string, seq<string>>,
                              done: set<string>, key: string, id: string)
    requires WellKeyed(rows) && ValidListing(listing) && key in rows && key !in done && rows[key].unresolved
    requires Find(listing, key, rows[key]).Some? && Find(listing, key, rows[key]).value.id == id != key
    ensures HoldsNow(rows, PlanOf(rows, listing, exact), done, id) <==> id in rows
  {
  }

  /** Placing one processed row, and removing its old key when it moved, advances the loop. */
  lemma RowIsPlaced(rows: map<string, OrderRow>, plan: Plan, done: set<string>, key: string,
                    orders: map<string, OrderRow>, next: map<string, OrderRow>,
                    before: map<string, seq<Fill>>, journal: map<string, seq<Fill>>, journal': map<string, seq<Fill>>)
    requires ValidPlan(rows, plan) && key in rows && key !in done
    requires Partial(rows, plan, done, orders, before, journal)
    requires !plan.fates[key].Drop? && plan.steps[key].Activated?
    requires var home := Home(plan, key);
             && next == (if home != key then orders - {key} else orders)
                        [home := plan.fates[key].row.(entry := plan.steps[key].entry)]
             && journal' == journal[home := JournalOf(journal, home) + plan.steps[key].fills]
    ensures Partial(rows, plan, done + {key}, next, before, journal')
  {
    forall x ensures PartialAt(rows, plan, done + {key}, next, before, journal', x) {
      assert PartialAt(rows, plan, done, orders, before, journal, x);
    }
  }

  /** A dropped row leaves nothing behind. */
  lemma RowIsDropped(rows: map<string, OrderRow>, plan: Plan, done: set<string>, key: string,
                     orders: map<string, OrderRow>,
                     before: map<string, seq<Fill>>, journal: map<string, seq<Fill>>)
    requires ValidPlan(rows, plan) && key in rows && key !in done
    requires Partial(rows, plan, done, orders, before, journal)
    requires plan.fates[key].Drop?
    ensures Partial(rows, plan, done + {key}, orders - {key}, before, journal)
  {
    forall x ensures PartialAt(rows, plan, done + {key}, orders - {key}, before, journal, x) {
      assert PartialAt(rows, plan, done, orders, before, journal, x);
    }
  }

  ghost predicate Grows(before: map<string, seq<Fill>>, journal: map<string, seq<Fill>>) {
    forall x :: JournalOf(before, x) <= JournalOf(journal, x)
  }

  lemma PartialGrows(rows: map<string, OrderRow>, plan: Plan, done: set<string>, orders: map<string, OrderRow>,
                     before: map<string, seq<Fill>>, journal: map<string, seq<Fill>>)
    requires ValidPlan(rows, plan) && Partial(rows, plan, done, orders, before, journal)
    ensures Grows(before, journal)
    ensures forall x :: JournalOf(journal, x) == JournalOf(before, x) + NewFills(rows, plan, done, x)
  {
    forall x ensures JournalOf(journal, x) == JournalOf(before, x) + NewFills(rows, plan, done, x) {
      assert PartialAt(rows, plan, done, orders, before, journal, x);
    }
  }

  /** The final merge writes exactly the processed rows: a retired key never comes back from the old book. */
  lemma LastMerge(rows: map<string, OrderRow>, plan: Plan, orders: map<string, OrderRow>, retired: set<string>,
                  before: map<string, seq<Fill>>, journal: map<string, seq<Fill>>)
    requires ValidPlan(rows, plan) && Partial(rows, plan, rows.Keys, orders, before, journal)
    requires forall k :: k in retired <==> k in rows && !plan.fates[k].Stay?
    ensures IsReconciled(rows, plan, orders)
    ensures (rows - retired) + orders == orders
  {
    forall x
      ensures x in orders <==> Holds(rows, plan, x)
      ensures x in orders ==> orders[x] == RowAfter(rows, plan, x)
    {
      assert PartialAt(rows, plan, rows.Keys, orders, before, journal, x);
    }
    forall k | k in rows && k !in retired ensures k in orders {
      assert PartialAt(rows, plan, rows.Keys, orders, before, journal, k);
    }
  }

  class Book {
    var rows: map<string, OrderRow>
    var journal: map<string, seq<Fill>>

    constructor ()
      ensures rows == map[] && journal == map[]
    {
      rows := map[];
      journal := map[];
    }

    /**
     * One reconciliation of every entry row. `exact` answers exact client id lookups. A refused activation
     * aborts it; a crash loses the write of the book. In both cases rows already journalled stay journalled.
     */
    method Reconcile(listing: seq<Listed>, exact: map<string, seq<string>>, crash: bool) returns (written: bool)
      requires WellKeyed(rows) && ValidListing(listing)
      modifies this
      ensures ValidPlan(old(rows), PlanOf(old(rows), listing, exact))
      ensures written ==> IsReconciled(old(rows), PlanOf(old(rows), listing, exact), rows)
      ensures var plan := PlanOf(old(rows), listing, exact);
              written <==> !crash && forall k :: k in old(rows) ==> plan.fates[k].Drop? || plan.steps[k].Activated?
      ensures !written ==> rows == old(rows)
      ensures written ==> forall x ::
                JournalOf(journal, x) ==
                JournalOf(old(journal), x) + NewFills(old(rows), PlanOf(old(rows), listing, exact), old(rows).Keys, x)
      ensures Grows(old(journal), journal)
    {
      PlanIsValid(rows, listing, exact);
      ghost var plan := PlanOf(rows, listing, exact);
      var orders := rows;
      var retired: set<string> := {};
      var todo := rows.Keys;
      var proceed := true;
      while todo != {}
        invariant rows == old(rows) && todo <= rows.Keys
        invariant Partial(rows, plan, rows.Keys - todo, orders, old(journal), journal)
        invariant forall k :: k in retired <==> k in rows && k !in todo && !plan.fates[k].Stay?
        invariant forall k :: k in rows && k !in todo ==> !RefusedAt(plan, k)
        decreases todo
      {
        var key :| key in todo;
        ghost var done := rows.Keys - todo;
        todo := todo - {key};
        assert rows.Keys - todo == done + {key};
        PartialGrows(rows, plan, done, orders, old(journal), journal);
        orders, retired, proceed := ReconcileRow(listing, exact, key, orders, retired, plan, done, old(journal));
        if !proceed {
          return false;
        }
      }
      assert rows.Keys - todo == rows.Keys;
      PartialGrows(rows, plan, rows.Keys, orders, old(journal), journal);
      if crash {
        return false;
      }
      LastMerge(rows, plan, orders, retired, old(journal), journal);
      rows := (rows - retired) + orders;
      written := true;
    }

    /** One turn of the loop: adopt, drop or keep the row, then merge its evidence and activate its fill. */
    method ReconcileRow(listing: seq<Listed>, exact: map<string, seq<string>>, key: string,
                        orders: map<string, OrderRow>, retired: set<string>,
                        ghost plan: Plan, ghost done: set<string>, ghost before: map<string, seq<Fill>>)
      returns (next: map<string, OrderRow>, gone: set<string>, proceed: bool)
      requires WellKeyed(rows) && ValidListing(listing) && key in rows && key !in done
      requires plan == PlanOf(rows, listing, exact) && ValidPlan(rows, plan)
      requires Partial(rows, plan, done, orders, before, journal)
      modifies this`journal
      ensures proceed <==> !RefusedAt(plan, key)
      ensures proceed ==> Partial(rows, plan, done + {key}, next, before, journal)
      ensures proceed ==> gone == if plan.fates[key].Stay? then retired else retired + {key}
      ensures !proceed ==> journal == old(journal)
    {
      var fate := DecideFate(listing, exact, key, orders, plan, done, before);
      if fate.Drop? {
        RowIsDropped(rows, plan, done, key, orders, before, journal);
        return orders - {key}, retired + {key}, true;
      }
      var order := Find(listing, key, rows[key]);
      var step := ReconcileEntry(rows[key].entry, if order.Some? then Some(order.value.view) else None);
      if step.Refused? {
        return orders, retired, false;
      }
      next, gone := PlaceRow(key, fate, step, orders, retired, plan, done, before);
      proceed := true;
    }

    /** Writes a processed row under its key and journals its fills under the same key. */
    method PlaceRow(key: string, fate: Fate, step: Activation, orders: map<string, OrderRow>, retired: set<string>,
                    ghost plan: Plan, ghost done: set<string>, ghost before: map<string, seq<Fill>>)
      returns (next: map<string, OrderRow>, gone: set<string>)
      requires ValidPlan(rows, plan) && key in rows && key !in done
      requires Partial(rows, plan, done, orders, before, journal)
      requires fate == plan.fates[key] && !fate.Drop? && step == plan.steps[key] && step.Activated?
      modifies this`journal
      ensures Partial(rows, plan, done + {key}, next, before, journal)
      ensures gone == if fate.Stay? then retired else retired + {key}
    {
      next, gone := orders, retired;
      var home := key;
      if fate.Move? {
        next := next - {key};
        gone := gone + {key};
        home := fate.to;
      }
      next := next[home := fate.row.(entry := step.entry)];
      journal := journal[home := JournalOf(journal, home) + step.fills];
      RowIsPlaced(rows, plan, done, key, orders, next, before, old(journal), journal);
    }

    /** Whether the row keeps its key, moves to the broker's id, or is a stale copy of a row already there. */
    method DecideFate(listing: seq<Listed>, exact: map<string, seq<string>>, key: string,
                      orders: map<string, OrderRow>,
                      ghost plan: Plan, ghost done: set<string>, ghost before: map<string, seq<Fill>>)
      returns (fate: Fate)
      requires WellKeyed(rows) && ValidListing(listing) && key in rows && key !in done
      requires plan == PlanOf(rows, listing, exact) && ValidPlan(rows, plan)
      requires Partial(rows, plan, done, orders, before, journal)
      ensures fate == plan.fates[key]
    {
      var row := rows[key];
      var order := Find(listing, key, row);
      if order.None? || !row.unresolved {
        return Stay(row);
      }
      var id := order.value.id;
      if key == id {
        return Stay(Adopted(row, order.value, exact));
      }
      TargetIsTakenIffItWas(rows, listing, exact, done, key, id);
      assert PartialAt(rows, plan, done, orders, before, journal, id);
      if id in orders {
        return Drop;
      }
      return Move(id, Adopted(row, order.value, exact));
    }
  }

  // ---- Adoption over whole runs

  /** The reconciled book as a value. */
  function After(rows: map<string, OrderRow>, plan: Plan): map<string, OrderRow>
    requires ValidPlan(rows, plan)
  {
    map x | x in rows.Keys + plan.origins.Keys && Holds(rows, plan, x) :: RowAfter(rows, plan, x)
  }

  lemma ReconciledIsAfter(rows: map<string, OrderRow>, plan: Plan, after: map<string, OrderRow>)
    requires ValidPlan(rows, plan) && IsReconciled(rows, plan, after)
    ensures after == After(rows, plan)
  {
  }

  /** The broker's lasting pairing of client ids with order ids. */
  ghost predicate ValidRegistry(registry: map<string, string>) {
    && (forall c, d :: c in registry && d in registry && registry[c] == registry[d] ==> c == d)
    && (forall c :: c in registry ==> registry[c] !in registry)
  }

  ghost predicate Consistent(listing: seq<Listed>, registry: map<string, string>) {
    && ValidListing(listing)
    && forall o :: o in listing ==>
         && o.id !in registry
         && (o.clientId != "" ==> o.clientId in registry && registry[o.clientId] == o.id)
         && (forall c :: c in registry && registry[c] == o.id ==> o.clientId == c)
  }

  /** A resolved row sits under the broker id of its client id; an unresolved key is no broker id. */
  ghost predicate Tied(rows: map<string, OrderRow>, registry: map<string, string>) {
    forall k :: k in rows ==>
      if rows[k].unresolved then k !in registry.Values
      else rows[k].clientId in registry ==> k == registry[rows[k].clientId]
  }

  /** The row stands for this order, by either id. */
  predicate Names(row: OrderRow, order: Listed) {
    row.orderId == order.id || (order.clientId != "" && row.clientId == order.clientId)
  }

  lemma ReconcileKeepsBook(rows: map<string, OrderRow>, listing: seq<Listed>, exact: map<string, seq<string>>,
                           registry: map<string, string>)
    requires WellKeyed(rows) && ValidRegistry(registry) && Tied(rows, registry) && Consistent(listing, registry)
    requires var plan := PlanOf(rows, listing, exact);
             ValidPlan(rows, plan) && forall k :: k in rows ==> !RefusedAt(plan, k)
    ensures var after := After(rows, PlanOf(rows, listing, exact));
            WellKeyed(after) && Tied(after, registry)
  {
    var plan := PlanOf(rows, listing, exact);
    var after := After(rows, plan);
    forall x | x in after
      ensures KeepsKey(x, after[x]) && (if after[x].unresolved then x !in registry.Values
                                        else after[x].clientId in registry ==> x == registry[after[x].clientId])
    {
      var from := Origin(rows, plan, x);
      RowKeepsKey(rows, listing, exact, registry, from);
    }
    assert forall x :: x in after ==> KeepsKey(x, after[x]);
  }

  predicate KeepsKey(key: string, row: OrderRow) {
    && key != "" && row.orderId == key
    && (row.unresolved ==>
          row.clientId == key && row.entry.evidence.filled == 0.0 && row.entry.logged == 0.0)
  }

  lemma RowKeepsKey(rows: map<string, OrderRow>, listing: seq<Listed>, exact: map<string, seq<string>>,
                    registry: map<string, string>, from: string)
    requires WellKeyed(rows) && ValidRegistry(registry) && Tied(rows, registry) && Consistent(listing, registry)
    requires from in rows && !FateOf(rows, listing, exact, from).Drop? && StepOf(rows, listing, from).Activated?
    ensures var fate := FateOf(rows, listing, exact, from);
            var x := if fate.Move? then fate.to else from;
            var row := fate.row.(entry := StepOf(rows, listing, from).entry);
            && KeepsKey(x, row)
            && (if row.unresolved then x !in registry.Values
                else row.clientId in registry ==> x == registry[row.clientId])
  {
    assert KeepsKey(from, rows[from]);
  }

  /** A book with a plan that no activation refuses, reconciled against what the broker's registry allows. */
  ghost predicate Reconcilable(rows: map<string, OrderRow>, listing: seq<Listed>, exact: map<string, seq<string>>,
                               registry: map<string, string>) {
    && WellKeyed(rows) && ValidRegistry(registry) && Tied(rows, registry) && Consistent(listing, registry)
    && var plan := PlanOf(rows, listing, exact);
       ValidPlan(rows, plan) && forall k :: k in rows ==> !RefusedAt(plan, k)
  }

  /**
   * After one reconciliation in which the broker lists an order, at most one row names it, and that row is
   * resolved and keyed by the broker's id; an unresolved row that named it is gone.
   */
  lemma SightedOrderHasOneRow(rows: map<string, OrderRow>, listing: seq<Listed>, exact: map<string, seq<string>>,
                              registry: map<string, string>, order: Listed)
    requires Reconcilable(rows, listing, exact, registry) && order in listing
    ensures forall x :: x in After(rows, PlanOf(rows, listing, exact)) &&
                        Names(After(rows, PlanOf(rows, listing, exact))[x], order) ==>
                        x == order.id && !After(rows, PlanOf(rows, listing, exact))[x].unresolved
  {
    var plan := PlanOf(rows, listing, exact);
    var after := After(rows, plan);
    forall x | x in after && Names(after[x], order) ensures x == order.id && !after[x].unresolved {
      NamedRowsAreResolved(rows, listing, exact, registry, order, Origin(rows, plan, x));
    }
  }

  /** A row that named a listed order is never lost: its book still has one, under the broker's id. */
  lemma SightedOrderKeepsARow(rows: map<string, OrderRow>, listing: seq<Listed>, exact: map<string, seq<string>>,
                              registry: map<string, string>, order: Listed, k: string)
    requires Reconcilable(rows, listing, exact, registry) && order in listing
    requires k in rows && Names(rows[k], order)
    ensures order.id in After(rows, PlanOf(rows, listing, exact))
  {
    NamingRowSurvives(rows, listing, exact, registry, order, k);
  }

  /** A kept row that names a listed order, before or after adoption, ends resolved under the order's id. */
  lemma NamedRowsAreResolved(rows: map<string, OrderRow>, listing: seq<Listed>, exact: map<string, seq<string>>,
                             registry: map<string, string>, order: Listed, from: string)
    requires WellKeyed(rows) && ValidRegistry(registry) && Tied(rows, registry) && Consistent(listing, registry)
    requires order in listing && from in rows && !FateOf(rows, listing, exact, from).Drop?
    ensures var fate := FateOf(rows, listing, exact, from);
            var x := if fate.Move? then fate.to else from;
            Names(fate.row, order) ==> x == order.id && !fate.row.unresolved
  {
    var found := Find(listing, from, rows[from]);
    if rows[from].unresolved && found.Some? {
      assert found.value.clientId == from || found.value.id == from;
      if found.value.id == order.id || found.value.clientId == order.clientId != "" {
        SameListed(listing, found.value, order);
      }
    }
  }

  /** Whatever row named the order, a row under the broker's id remains. */
  lemma NamingRowSurvives(rows: map<string, OrderRow>, listing: seq<Listed>, exact: map<string, seq<string>>,
                          registry: map<string, string>, order: Listed, k: string)
    requires WellKeyed(rows) && ValidRegistry(registry) && Tied(rows, registry) && Consistent(listing, registry)
    requires order in listing && k in rows && Names(rows[k], order)
    requires ValidPlan(rows, PlanOf(rows, listing, exact))
    ensures Holds(rows, PlanOf(rows, listing, exact), order.id)
    ensures order.id in rows || order.id in PlanOf(rows, listing, exact).origins
  {
  }

  /** What happens to the durable book between two looks at it. */
  datatype BookStep =
    | Sight(listing: seq<Listed>, exact: map<string, seq<string>>)  // a reconciliation
    | Overlay(rows: map<string, OrderRow>)                          // a new submission, or an older copy written back

  /** Carries out one step; a reconciliation that some activation refuses writes nothing. */
  ghost function Advance(rows: map<string, OrderRow>, step: BookStep): map<string, OrderRow> {
    match step
    case Overlay(more) => rows + more
    case Sight(listing, exact) =>
      var plan := PlanOf(rows, listing, exact);
      if ValidPlan(rows, plan) && forall k :: k in rows ==> !RefusedAt(plan, k) then After(rows, plan) else rows
  }

  ghost function AdvanceAll(steps: seq<BookStep>): map<string, OrderRow> {
    if steps == [] then map[] else Advance(AdvanceAll(steps[..|steps| - 1]), steps[|steps| - 1])
  }

  ghost predicate Allowed(step: BookStep, registry: map<string, string>) {
    match step
    case Overlay(more) => WellKeyed(more) && Tied(more, registry)
    case Sight(listing, _) => Consistent(listing, registry)
  }

  lemma {:induction false} RunKeepsBook(steps: seq<BookStep>, registry: map<string, string>)
    requires ValidRegistry(registry) && AllAllowed(steps, registry)
    ensures WellKeyed(AdvanceAll(steps)) && Tied(AdvanceAll(steps), registry)
  {
    if steps != [] {
      var before := AdvanceAll(steps[..|steps| - 1]);
      RunKeepsBook(steps[..|steps| - 1], registry);
      match steps[|steps| - 1] {
        case Overlay(_) =>
        case Sight(listing, exact) =>
          PlanIsValid(before, listing, exact);
          if forall k :: k in before ==> !RefusedAt(PlanOf(before, listing, exact), k) {
            ReconcileKeepsBook(before, listing, exact, registry);
          }
      }
    }
  }

  ghost predicate AllAllowed(steps: seq<BookStep>, registry: map<string, string>) {
    forall i :: 0 <= i < |steps| ==> Allowed(steps[i], registry)
  }

  /** Some allowed run of the program and the broker leaves this book. */
  ghost predicate Reachable(book: map<string, OrderRow>, registry: map<string, string>) {
    exists steps :: AllAllowed(steps, registry) && AdvanceAll(steps) == book
  }

  lemma ReachableBooksAreKept(book: map<string, OrderRow>, registry: map<string, string>)
    requires ValidRegistry(registry) && Reachable(book, registry)
    ensures WellKeyed(book) && Tied(book, registry)
  {
    var steps :| AllAllowed(steps, registry) && AdvanceAll(steps) == book;
    RunKeepsBook(steps, registry);
  }

  /**
   * Adoption is exactly once over every interleaving of lost responses, unresolved rows, late sightings and
   * older copies written back: right after a reconciliation that writes, a listed order that any row named
   * has exactly one row, under the broker's id.
   */
  lemma AdoptionIsExactlyOnce(book: map<string, OrderRow>, registry: map<string, string>,
                              listing: seq<Listed>, exact: map<string, seq<string>>, order: Listed)
    requires ValidRegistry(registry) && Reachable(book, registry)
    requires Consistent(listing, registry) && order in listing
    requires forall k :: k in book ==> !RefusedAt(PlanOf(book, listing, exact), k)
    ensures AdoptedOnce(book, Advance(book, Sight(listing, exact)), order)
  {
    ReachableBooksAreKept(book, registry);
    PlanIsValid(book, listing, exact);
    SightingAdoptsOnce(book, listing, exact, registry, order);
  }

  predicate SomeRowNames(rows: map<string, OrderRow>, order: Listed) {
    exists k :: k in rows && Names(rows[k], order)
  }

  /** Exactly one row in `after` names the order, resolved and under its id, if any did before; none otherwise. */
  ghost predicate AdoptedOnce(before: map<string, OrderRow>, after: map<string, OrderRow>, order: Listed) {
    && (forall x :: x in after && Names(after[x], order) ==> x == order.id && !after[x].unresolved)
    && (SomeRowNames(after, order) <==> SomeRowNames(before, order))
  }

  lemma SightingAdoptsOnce(rows: map<string, OrderRow>, listing: seq<Listed>, exact: map<string, seq<string>>,
                           registry: map<string, string>, order: Listed)
    requires Reconcilable(rows, listing, exact, registry) && order in listing
    ensures AdoptedOnce(rows, Advance(rows, Sight(listing, exact)), order)
  {
    hide After, PlanOf, Names, WellKeyed, Tied, ValidListing, ValidPlan, RefusedAt;
    var after := After(rows, PlanOf(rows, listing, exact));
    SightedOrderHasOneRow(rows, listing, exact, registry, order);
    if SomeRowNames(rows, order) {
      var k :| k in rows && Names(rows[k], order);
      SightedOrderKeepsARow(rows, listing, exact, registry, order, k);
      ReconcileKeepsBook(rows, listing, exact, registry);
      RowUnderItsId(after, order);
    }
    if SomeRowNames(after, order) {
      var x :| x in after && Names(after[x], order);
      NamingRowWasThere(rows, listing, exact, order, x);
    }
  }

  lemma RowUnderItsId(book: map<string, OrderRow>, order: Listed)
    requires WellKeyed(book) && order.id in book
    ensures Names(book[order.id], order)
  {
  }

  lemma NamingRowWasThere(rows: map<string, OrderRow>, listing: seq<Listed>, exact: map<string, seq<string>>,
                          order: Listed, x: string)
    requires WellKeyed(rows) && ValidListing(listing) && order in listing
    requires var plan := PlanOf(rows, listing, exact);
             ValidPlan(rows, plan) && x in After(rows, plan) && Names(After(rows, plan)[x], order)
    ensures SomeRowNames(rows, order)
  {
    hide Adopted, StepOf;
    NamedBefore(rows, listing, exact, order, Origin(rows, PlanOf(rows, listing, exact), x));
  }

  /** A kept row names a listed order only if it did before: adoption gives an id only to a row with its client id. */
  lemma NamedBefore(rows: map<string, OrderRow>, listing: seq<Listed>, exact: map<string, seq<string>>,
                    order: Listed, from: string)
    requires WellKeyed(rows) && ValidListing(listing) && order in listing
    requires from in rows && !FateOf(rows, listing, exact, from).Drop?
    requires Names(FateOf(rows, listing, exact, from).row, order)
    ensures Names(rows[from], order)
  {
    var found := Find(listing, from, rows[from]);
    if rows[from].unresolved && found.Some? && found.value.id == order.id {
      SameListed(listing, found.value, order);
    }
  }

  /**
   * The evidence of a listed order reaches one row only, the one under the broker's id, which moves on by exactly
   * one pass over the order's own view, and what is journalled for it is what that pass adds.
   */
  lemma FillsComeFromOneRow(rows: map<string, OrderRow>, listing: seq<Listed>, exact: map<string, seq<string>>,
                            registry: map<string, string>, order: Listed, x: string)
    requires Reconcilable(rows, listing, exact, registry) && order in listing
    requires var plan := PlanOf(rows, listing, exact);
             Holds(rows, plan, x) && Names(RowAfter(rows, plan, x), order)
    ensures x == order.id
    ensures var plan := PlanOf(rows, listing, exact);
            var from := Origin(rows, plan, x);
            var seen := Account(rows[from].entry, [], 0.0);
            && Pass(seen, Some(order.view)).entry == RowAfter(rows, plan, x).entry
            && Pass(seen, Some(order.view)).fills == NewFills(rows, plan, rows.Keys, x)
  {
    hide Adopted, Reconciled, ValidListing, ValidRegistry, Tied, Find;
    var plan := PlanOf(rows, listing, exact);
    var from := Origin(rows, plan, x);
    assert !RefusedAt(plan, from);
    NamedRowsAreResolved(rows, listing, exact, registry, order, from);
    RowIsListed(rows, listing, exact, order, from);
    ListedUnderItsId(rows, listing, exact, registry, order, from);
  }

  /** A row that ends under a listed order's id was found in the listing. */
  lemma RowIsListed(rows: map<string, OrderRow>, listing: seq<Listed>, exact: map<string, seq<string>>, order: Listed,
                    from: string)
    requires WellKeyed(rows) && ValidListing(listing) && order in listing && from in rows
    requires match FateOf(rows, listing, exact, from)
             case Stay(_) => from == order.id
             case Move(to, _) => to == order.id
             case Drop => false
    ensures Find(listing, from, rows[from]).Some?
  {
  }

  /** A row that no listed order stands for counts one more miss. */
  lemma UnlistedRowCountsAMiss(rows: map<string, OrderRow>, listing: seq<Listed>, exact: map<string, seq<string>>,
                               k: string)
    requires WellKeyed(rows) && ValidListing(listing) && k in rows
    requires forall o :: o in listing ==> !Names(rows[k], o)
    ensures var plan := PlanOf(rows, listing, exact);
            && plan.fates[k] == Stay(rows[k])
            && plan.steps[k] ==
               Activated(rows[k].entry.(evidence := Observe(rows[k].entry.evidence, None)), [])
  {
  }

  /**
   * An adopted bracket carries the legs the broker knows: those nested in the listing, else those of the exact
   * lookup; while neither has any it keeps its own and stays marked for another lookup.
   */
  lemma AdoptedRowCarriesTheLegs(rows: map<string, OrderRow>, listing: seq<Listed>, exact: map<string, seq<string>>,
                                 registry: map<string, string>, order: Listed, k: string)
    requires Reconcilable(rows, listing, exact, registry) && order in listing && order.id !in rows
    requires k in rows && rows[k].unresolved && Names(rows[k], order)
    ensures var after := After(rows, PlanOf(rows, listing, exact));
            var nested, looked := order.legs, if rows[k].clientId in exact then exact[rows[k].clientId] else [];
            && order.id in after
            && after[order.id].orderId == order.id && after[order.id].clientId == order.clientId
            && (nested != [] ==> after[order.id].legs == nested && !after[order.id].legsPending)
            && (nested == [] && looked != [] ==> after[order.id].legs == looked && !after[order.id].legsPending)
            && (nested == looked == [] ==>
                  && after[order.id].legs == rows[k].legs
                  && after[order.id].legsPending == (rows[k].bracket || rows[k].legsPending))
  {
    hide Reconciled, Tied, ValidRegistry;
    var plan := PlanOf(rows, listing, exact);
    UnresolvedRowMoves(rows, listing, exact, order, k);
    assert !RefusedAt(plan, k);
    assert Origin(rows, plan, order.id) == k;
  }

  lemma UnresolvedRowMoves(rows: map<string, OrderRow>, listing: seq<Listed>, exact: map<string, seq<string>>,
                           order: Listed, k: string)
    requires WellKeyed(rows) && ValidListing(listing) && order in listing && order.id !in rows
    requires k in rows && rows[k].unresolved && Names(rows[k], order)
    ensures rows[k].clientId == k == order.clientId
    ensures FateOf(rows, listing, exact, k) == Move(order.id, Adopted(rows[k], order, exact))
  {
    assert rows[k].clientId == k && rows[k].orderId == k;
    var found := Find(listing, k, rows[k]);
    SameListed(listing, found.value, order);
  }

  lemma ListedUnderItsId(rows: map<string, OrderRow>, listing: seq<Listed>, exact: map<string, seq<string>>,
                         registry: map<string, string>, order: Listed, from: string)
    requires Reconcilable(rows, listing, exact, registry) && order in listing && from in rows
    requires !FateOf(rows, listing, exact, from).Drop? && Find(listing, from, rows[from]).Some?
    requires Names(FateOf(rows, listing, exact, from).row, order)
    ensures Find(listing, from, rows[from]).value == order
  {
    var found := Find(listing, from, rows[from]).value;
    NamedRowsAreResolved(rows, listing, exact, registry, order, from);
    if rows[from].unresolved {
      SameListed(listing, found, order);
    } else {
      assert from == order.id;
      SameListed(listing, found, order);
    }
  }
}
