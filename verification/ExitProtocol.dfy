/**
 * The exit protocol of one exposure: bracket legs, monitor closes, stop replacement and re-arming.
 *
 * `Broker` is the broker's own truth. It moves by itself between any two requests of the program
 * (`Settle`), and it keeps a ghost log of every exit the program asked it to work. `Engine` is the
 * program's durable record of the exposure. Exits are numbered in submission order.
 */
module ExitProtocol {
  import opened Basics
  import Evidence

  // ---- The broker's truth

  /** The two legs of a bracket are one-cancels-other and share one quantity. */
  datatype Group = Bracket | Single

  datatype Exit = Exit(qty: real, filled: real, status: Status, group: Group)
  {
    predicate Live() { !status.IsFinal() }

    predicate Valid() { 0.0 <= filled <= qty }

    /** What this order has taken or may still take. */
    function Claim(): real { if Live() then qty else filled }
  }

  datatype Market = Market(entryFill: real, entryLive: bool, bracketQty: real, exits: seq<Exit>)

  function TotalFilled(exits: seq<Exit>): real {
    if exits == [] then 0.0 else TotalFilled(exits[..|exits| - 1]) + exits[|exits| - 1].filled
  }

  function BracketFilled(exits: seq<Exit>): real {
    if exits == [] then 0.0
    else
      var x := exits[|exits| - 1];
      BracketFilled(exits[..|exits| - 1]) + if x.group.Bracket? then x.filled else 0.0
  }

  function SingleClaims(exits: seq<Exit>): real {
    if exits == [] then 0.0
    else
      var x := exits[|exits| - 1];
      SingleClaims(exits[..|exits| - 1]) + if x.group.Single? then x.Claim() else 0.0
  }

  ghost predicate BracketLive(exits: seq<Exit>) {
    exists i :: 0 <= i < |exits| && exits[i].group.Bracket? && exits[i].Live()
  }

  ghost predicate OnlyLastLive(exits: seq<Exit>) {
    exits != [] && AllFinal(exits[..|exits| - 1])
  }

  ghost predicate AllFinal(exits: seq<Exit>) {
    forall i :: 0 <= i < |exits| ==> !exits[i].Live()
  }

  /** The shares still held. */
  function Position(m: Market): real { m.entryFill - TotalFilled(m.exits) }

  /** Filled plus working exits, a bracket pair counted once. */
  ghost function Committed(m: Market): real {
    SingleClaims(m.exits) + if BracketLive(m.exits) then m.bracketQty else BracketFilled(m.exits)
  }

  ghost predicate ValidMarket(m: Market) {
    && (forall i :: 0 <= i < |m.exits| ==> m.exits[i].Valid())
    && BracketFilled(m.exits) <= m.bracketQty
  }

  /** No sequence of fills of what is now working can sell more than was bought. */
  ghost predicate NoReversal(m: Market) {
    ValidMarket(m) && Committed(m) <= m.entryFill
  }

  /** What an order may become on its own: fills grow up to the quantity, a final order is frozen. */
  predicate ExitMoves(x: Exit, y: Exit) {
    && y.qty == x.qty && y.group == x.group
    && x.filled <= y.filled <= y.qty
    && (!x.Live() ==> y == x)
  }

  /** Any amount of broker activity that is not a request of the program. */
  predicate Evolves(m: Market, n: Market) {
    && n.entryFill >= m.entryFill
    && (!m.entryLive ==> n.entryFill == m.entryFill && !n.entryLive)
    && n.bracketQty == m.bracketQty
    && |n.exits| == |m.exits|
    && (forall i :: 0 <= i < |m.exits| ==> ExitMoves(m.exits[i], n.exits[i]))
    && BracketFilled(n.exits) <= n.bracketQty
  }

  // ---- Sums over exits

  lemma {:induction false} SumsSplit(exits: seq<Exit>)
    requires forall i :: 0 <= i < |exits| ==> exits[i].Valid()
    ensures 0.0 <= BracketFilled(exits)
    ensures TotalFilled(exits) <= SingleClaims(exits) + BracketFilled(exits)
    ensures AllFinal(exits) ==> TotalFilled(exits) == SingleClaims(exits) + BracketFilled(exits)
  {
    if exits != [] {
      SumsSplit(exits[..|exits| - 1]);
    }
  }

  lemma {:induction false} SumsMove(before: seq<Exit>, after: seq<Exit>)
    requires |before| == |after|
    requires forall i :: 0 <= i < |before| ==> before[i].Valid() && ExitMoves(before[i], after[i])
    ensures TotalFilled(before) <= TotalFilled(after)
    ensures SingleClaims(after) <= SingleClaims(before)
    ensures BracketFilled(before) <= BracketFilled(after)
    ensures !BracketLive(before) ==> BracketFilled(before) == BracketFilled(after)
  {
    if before != [] {
      var n := |before| - 1;
      SumsMove(before[..n], after[..n]);
      if BracketLive(before[..n]) {
        var i :| 0 <= i < n && before[..n][i].group.Bracket? && before[..n][i].Live();
        assert before[i].group.Bracket? && before[i].Live();
      }
    }
  }

  lemma {:induction false} FinalExitsStay(before: seq<Exit>, after: seq<Exit>)
    requires |before| == |after|
    requires forall i :: 0 <= i < |before| ==> ExitMoves(before[i], after[i])
    requires AllFinal(before)
    ensures after == before
  {
  }

  // ---- What broker activity and submissions do to the invariant

  /** Broker activity alone never creates a reversal. */
  lemma EvolutionKeepsNoReversal(m: Market, n: Market)
    requires NoReversal(m) && Evolves(m, n)
    ensures NoReversal(n)
    ensures Position(n) - n.entryFill <= Position(m) - m.entryFill
  {
    SumsMove(m.exits, n.exits);
    SumsSplit(m.exits);
    if BracketLive(n.exits) {
      var i :| 0 <= i < |n.exits| && n.exits[i].group.Bracket? && n.exits[i].Live();
      assert ExitMoves(m.exits[i], n.exits[i]);
      assert BracketLive(m.exits);
    } else if !BracketLive(m.exits) {
      assert BracketFilled(m.exits) == BracketFilled(n.exits);
    }
  }

  lemma EvolutionComposes(a: Market, b: Market, c: Market)
    requires Evolves(a, b) && Evolves(b, c)
    ensures Evolves(a, c)
  {
  }

  /** The exposure never goes short: the invariant is what makes the position nonnegative. */
  lemma NoReversalKeepsPosition(m: Market)
    requires NoReversal(m)
    ensures Position(m) >= 0.0
  {
    SumsSplit(m.exits);
  }

  function WithExit(m: Market, x: Exit): Market { m.(exits := m.exits + [x]) }

  lemma AppendSums(exits: seq<Exit>, x: Exit)
    ensures TotalFilled(exits + [x]) == TotalFilled(exits) + x.filled
    ensures BracketFilled(exits + [x]) == BracketFilled(exits) + (if x.group.Bracket? then x.filled else 0.0)
    ensures SingleClaims(exits + [x]) == SingleClaims(exits) + (if x.group.Single? then x.Claim() else 0.0)
  {
  }

  /** One more standalone order is safe exactly when what is already committed leaves room for it. */
  lemma SubmissionIsSafeIffUncommitted(m: Market, qty: real)
    requires ValidMarket(m) && qty >= 0.0
    ensures NoReversal(WithExit(m, Exit(qty, 0.0, Working("new"), Single))) <==> Committed(m) + qty <= m.entryFill
  {
  }

  /** With nothing working, one more order is safe exactly when it fits the position. */
  lemma SubmissionIsSafeIffItFits(m: Market, qty: real)
    requires ValidMarket(m) && AllFinal(m.exits) && qty >= 0.0
    ensures NoReversal(WithExit(m, Exit(qty, 0.0, Working("new"), Single))) <==> qty <= Position(m)
  {
    SubmissionIsSafeIffUncommitted(m, qty);
    SumsSplit(m.exits);
  }

  /** Why the legs must be proven gone first: a whole-position close is unsafe while any exit has something left. */
  lemma CloseOverWorkingExitReverses(m: Market, i: nat)
    requires NoReversal(m) && Position(m) >= 0.0
    requires i < |m.exits| && m.exits[i].Live() && m.exits[i].filled < m.exits[i].qty
    requires m.exits[i].group.Bracket? ==> BracketFilled(m.exits) < m.bracketQty
    ensures !NoReversal(WithExit(m, Exit(Position(m), 0.0, Working("new"), Single)))
  {
    SubmissionIsSafeIffUncommitted(m, Position(m));
    ClaimsExceedFills(m.exits, i);
    if m.exits[i].group.Bracket? {
      assert BracketLive(m.exits);
    }
  }

  lemma {:induction false} ClaimsExceedFills(exits: seq<Exit>, i: nat)
    requires forall k :: 0 <= k < |exits| ==> exits[k].Valid()
    requires i < |exits| && exits[i].Live() && exits[i].filled < exits[i].qty
    ensures TotalFilled(exits) <= SingleClaims(exits) + BracketFilled(exits)
    ensures exits[i].group.Single? ==> TotalFilled(exits) < SingleClaims(exits) + BracketFilled(exits)
  {
    var n := |exits| - 1;
    SumsSplit(exits);
    if i < n {
      ClaimsExceedFills(exits[..n], i);
    } else {
      SumsSplit(exits[..n]);
    }
  }

  // ---- The broker as an object

  /** An exit the program asked for: its size, the true position then, and whether the recorded entry fill was final. */
  datatype Submission = Submission(qty: real, position: real, entryKnown: bool)
  {
    ghost predicate Exact() { 0.0 < qty <= position && (entryKnown ==> qty == position) }
  }

  class Broker {
    var market: Market
    ghost var sent: seq<Submission>
    ghost var cancels: seq<nat>         // cancellations asked for
    ghost var polls: nat                // order listings read

    constructor (market: Market)
      ensures this.market == market && sent == [] && cancels == [] && polls == 0
    {
      this.market := market;
      sent, cancels, polls := [], [], 0;
    }

    /** A request to cancel; what the broker makes of it, and when, is its own activity. */
    method Cancel(id: nat)
      modifies this`cancels
      ensures cancels == old(cancels) + [id]
    {
      cancels := cancels + [id];
    }

    /** Fills, cancellations and expiries the program did not ask for at this moment. */
    method Settle()
      requires NoReversal(market)
      modifies this`market
      ensures Evolves(old(market), market) && NoReversal(market)
    {
      assert Evolves(market, market);
      var next :| Evolves(market, next);
      EvolutionKeepsNoReversal(market, next);
      market := next;
    }

    /** The order listing; it tells the truth about this moment but may omit orders unless complete. */
    method List(complete: bool) returns (listing: map<nat, Exit>)
      modifies this`polls
      ensures polls == old(polls) + 1
      ensures forall i :: i in listing ==> i < |market.exits| && listing[i] == market.exits[i]
      ensures complete ==> forall i: nat :: i < |market.exits| ==> i in listing
    {
      polls := polls + 1;
      var all := map i: nat | i < |market.exits| :: market.exits[i];
      var omitted: set<nat> := *;
      listing := if complete then all else all - omitted;
    }

    /** Accepts one standalone exit. That it is safe is the caller's obligation. */
    method Submit(qty: real, ghost entryKnown: bool) returns (id: nat)
      requires NoReversal(market) && AllFinal(market.exits)
      requires Submission(qty, Position(market), entryKnown).Exact()
      modifies this`market, this`sent
      ensures id == |old(market).exits|
      ensures market == WithExit(old(market), Exit(qty, 0.0, Working("new"), Single))
      ensures NoReversal(market)
      ensures sent == old(sent) + [Submission(qty, Position(old(market)), entryKnown)]
    {
      SubmissionIsSafeIffItFits(market, qty);
      sent := sent + [Submission(qty, Position(market), entryKnown)];
      id := |market.exits|;
      market := WithExit(market, Exit(qty, 0.0, Working("new"), Single));
    }

    /** Replaces a live bracket stop: the predecessor becomes final, its successor works for the rest. */
    method ReplaceStop(id: nat) returns (successor: nat)
      requires NoReversal(market)
      requires id < |market.exits| && market.exits[id].Live() && market.exits[id].group.Bracket?
      modifies this`market
      ensures successor == |old(market).exits|
      ensures var x := old(market).exits[id];
              market == WithExit(old(market).(exits := old(market).exits[id := x.(status := Replaced)]),
                                 Exit(x.qty - x.filled, 0.0, Working("new"), Bracket))
      ensures NoReversal(market)
    {
      ghost var before := market;
      var x := market.exits[id];
      var y := Exit(x.qty - x.filled, 0.0, Working("new"), Bracket);
      successor := |market.exits|;
      ghost var middle := market.exits[id := x.(status := Replaced)];
      market := WithExit(market.(exits := market.exits[id := x.(status := Replaced)]), y);
      assert forall i :: 0 <= i < |middle| ==> ExitMoves(before.exits[i], middle[i]);
      SumsMove(before.exits, middle);
      SameBracketFill(before.exits, id, x.(status := Replaced));
      AppendSums(middle, y);
      assert BracketLive(before.exits);
      assert market.exits[successor].Live();
      assert forall i :: 0 <= i < |market.exits| ==> market.exits[i].Valid();
    }
  }

  // ---- The program's record of the exposure

  datatype Role = Stop | Target

  /** One recorded protective leg; `status` is what the program last saw or decided. */
  datatype Leg = Leg(id: nat, role: Role, status: Status)
  {
    predicate Live() { !status.IsTerminal() }
  }

  /** A complete live pair protects; half a bracket does not. */
  predicate Protected(legs: seq<Leg>) {
    && (exists i :: 0 <= i < |legs| && legs[i].role.Stop? && legs[i].Live())
    && (exists i :: 0 <= i < |legs| && legs[i].role.Target? && legs[i].Live())
  }

  /** Fills of the exits in `bound`. */
  function BoundFilled(exits: seq<Exit>, bound: set<nat>): real {
    if exits == [] then 0.0
    else
      var n := |exits| - 1;
      BoundFilled(exits[..n], bound) + if n in bound then exits[n].filled else 0.0
  }

  lemma {:induction false} BoundFilledIsAll(exits: seq<Exit>, bound: set<nat>)
    requires forall i :: 0 <= i < |exits| && exits[i].filled != 0.0 ==> i in bound
    ensures BoundFilled(exits, bound) == TotalFilled(exits)
  {
    if exits != [] {
      BoundFilledIsAll(exits[..|exits| - 1], bound);
    }
  }

  /** `now` differs from the snapshot `then` only in fills of the exits in `watched`. */
  ghost predicate OnlyMoved(snap: seq<Exit>, now: seq<Exit>, watched: set<nat>) {
    && |snap| <= |now|
    && (forall i: nat :: i < |snap| ==> 0.0 <= snap[i].filled <= now[i].filled)
    && (forall i: nat :: i < |now| && i !in watched ==>
          now[i].filled == if i < |snap| then snap[i].filled else 0.0)
  }

  lemma {:induction false} UnmovedFillsAgree(snap: seq<Exit>, now: seq<Exit>)
    requires OnlyMoved(snap, now, {})
    ensures TotalFilled(now) == TotalFilled(snap)
  {
    if now != [] {
      var n := |now| - 1;
      assert forall i: nat :: i < n ==> now[..n][i].filled == if i < |snap| then snap[i].filled else 0.0;
      if |snap| == |now| {
        assert OnlyMoved(snap[..n], now[..n], {});
        UnmovedFillsAgree(snap[..n], now[..n]);
      } else {
        assert OnlyMoved(snap, now[..n], {});
        UnmovedFillsAgree(snap, now[..n]);
      }
    }
  }

  function LegIds(legs: seq<Leg>): set<nat> {
    set k | 0 <= k < |legs| :: legs[k].id
  }

  /** The legs whose recorded status is not final at the broker. */
  function OpenLegIds(legs: seq<Leg>): set<nat> {
    set k | 0 <= k < |legs| && !legs[k].status.IsFinal() :: legs[k].id
  }

  /** The exits bound to an exposure: its legs, its closing order and its close rows. */
  function Bound(legs: seq<Leg>, closing: Option<nat>, saved: map<nat, Status>): set<nat> {
    LegIds(legs) + saved.Keys + if closing.Some? then {closing.value} else {}
  }

  /** The closing order when its row says it may still be working. */
  function WorkingClose(closing: Option<nat>, saved: map<nat, Status>): set<nat> {
    if closing.Some? && closing.value in saved && !saved[closing.value].IsTerminal() then {closing.value} else {}
  }

  /** Every exit that is live or has filled is on record, and a row that says final is right. */
  ghost predicate Recorded(exits: seq<Exit>, legs: seq<Leg>, closing: Option<nat>, saved: map<nat, Status>) {
    && (forall k :: 0 <= k < |legs| ==> legs[k].id < |exits|)
    && (closing.Some? ==> closing.value < |exits| && (closing.value in saved || closing.value in LegIds(legs)))
    && (forall i :: i in saved ==> i < |exits| && (saved[i].IsTerminal() ==> !exits[i].Live()))
    && (forall i :: 0 <= i < |exits| && exits[i].filled != 0.0 ==> i in Bound(legs, closing, saved))
    && (forall i :: 0 <= i < |exits| && exits[i].Live() ==> i in LegIds(legs) || closing == Some(i))
  }

  /** A leg recorded as final is final. */
  ghost predicate FinalLegsAreFinal(legs: seq<Leg>, exits: seq<Exit>) {
    forall k :: 0 <= k < |legs| && legs[k].status.IsFinal() ==> legs[k].id < |exits| && !exits[legs[k].id].Live()
  }

  /** Since the snapshot only open legs and a working close can have moved, and only they can be live. */
  ghost predicate Tracks(snap: seq<Exit>, now: seq<Exit>, legs: seq<Leg>, working: set<nat>) {
    && FinalLegsAreFinal(legs, now)
    && (forall i :: 0 <= i < |now| && now[i].Live() ==> i in OpenLegIds(legs) + working)
    && OnlyMoved(snap, now, OpenLegIds(legs) + working)
  }

  lemma EvolutionKeepsRecord(m: Market, n: Market, legs: seq<Leg>, closing: Option<nat>, saved: map<nat, Status>)
    requires Recorded(m.exits, legs, closing, saved) && Evolves(m, n)
    requires forall i :: 0 <= i < |m.exits| ==> m.exits[i].Valid()
    ensures Recorded(n.exits, legs, closing, saved)
  {
  }

  lemma EvolutionKeepsTracks(snap: seq<Exit>, m: Market, n: Market, legs: seq<Leg>, working: set<nat>)
    requires Tracks(snap, m.exits, legs, working) && Evolves(m, n)
    ensures Tracks(snap, n.exits, legs, working)
  {
  }

  /** What one monitor pass wants and how the broker answers it. */
  datatype Choice = Choice(
    move: bool,           // amend the stop
    bars: bool,           // completed bars were consumed
    close: bool,          // an exit reason exists
    sound: bool,          // listings are complete and writes succeed
    accepted: bool,       // the close is accepted
    view: real,           // what the position endpoint says while re-arming
    stopAccepted: bool)   // the re-armed stop is accepted
  {
    /** A reason to close that the broker accepts, in a pass that only closes. */
    predicate Insists() { close && !move && !bars && sound && accepted }
  }

  class Engine {
    var legs: seq<Leg>
    var closing: Option<nat>
    var saved: map<nat, Status>
    var entryFill: real

    constructor (legs: seq<Leg>, entryFill: real)
      ensures this.legs == legs && closing == None && saved == map[] && this.entryFill == entryFill
    {
      this.legs := legs;
      closing := None;
      saved := map[];
      this.entryFill := entryFill;
    }

    /** What holds between any two operations: nothing can reverse, and every live or filled exit is recorded. */
    ghost predicate Inv(broker: Broker)
      reads this, broker
    {
      var exits := broker.market.exits;
      && NoReversal(broker.market)
      && (forall k :: 0 <= k < |broker.sent| ==> broker.sent[k].Exact())
      && entryFill <= broker.market.entryFill
      && Recorded(exits, legs, closing, saved)
    }

    /** The record agrees with a broker snapshot, up to what live legs and a working close did since. */
    ghost predicate InStep(broker: Broker, snap: Market)
      reads this, broker
    {
      && Tracks(snap.exits, broker.market.exits, legs, WorkingClose(closing, saved))
      && entryFill == snap.entryFill
    }

    /** Time passes at the broker. */
    method Wait(broker: Broker)
      requires Inv(broker)
      modifies broker`market
      ensures Inv(broker) && Evolves(old(broker.market), broker.market)
    {
      broker.Settle();
      EvolutionKeepsRecord(old(broker.market), broker.market, legs, closing, saved);
    }

    /** Time passes at the broker between a reconciliation and what is decided on it. */
    method WaitInStep(broker: Broker, ghost snap: Market)
      requires Inv(broker) && InStep(broker, snap)
      modifies broker`market
      ensures Inv(broker) && InStep(broker, snap) && Evolves(old(broker.market), broker.market)
    {
      Wait(broker);
      EvolutionKeepsTracks(snap.exits, old(broker.market), broker.market, legs, WorkingClose(closing, saved));
    }

    /** Copies the broker's view onto the legs; the first filled leg becomes the closing order. */
    method RefreshLegs(snap: Market)
      requires forall k :: 0 <= k < |legs| ==> legs[k].id < |snap.exits|
      modifies this`legs, this`closing, this`saved
      ensures |legs| == |old(legs)|
      ensures forall k :: 0 <= k < |legs| ==>
                legs[k] == old(legs)[k].(status := snap.exits[old(legs)[k].id].status)
      ensures old(closing).Some? ==> closing == old(closing) && saved == old(saved)
      ensures closing.None? ==> saved == old(saved)
      ensures closing.None? ==> forall k :: 0 <= k < |legs| ==> !LegFilled(snap.exits[legs[k].id])
      ensures old(closing).None? && closing.Some? ==>
                var c := closing.value;
                && c in LegIds(legs) && LegFilled(snap.exits[c])
                && saved == if c in old(saved) then old(saved) else old(saved)[c := snap.exits[c].status]
    {
      var current: seq<Leg> := [];
      while |current| < |legs|
        invariant |current| <= |legs|
        invariant legs == old(legs)
        invariant forall j :: 0 <= j < |current| ==> current[j] == legs[j].(status := snap.exits[legs[j].id].status)
        invariant old(closing).Some? ==> closing == old(closing) && saved == old(saved)
        invariant closing.None? ==> saved == old(saved)
        invariant closing.None? ==> forall j :: 0 <= j < |current| ==> !LegFilled(snap.exits[legs[j].id])
        invariant old(closing).None? && closing.Some? ==>
                    var c := closing.value;
                    && c in LegIds(current) && LegFilled(snap.exits[c])
                    && saved == if c in old(saved) then old(saved) else old(saved)[c := snap.exits[c].status]
      {
        var leg := legs[|current|];
        var x := snap.exits[leg.id];
        ghost var seen := current;
        current := current + [leg.(status := x.status)];
        assert forall j :: 0 <= j < |seen| ==> current[j] == seen[j];
        assert current[|seen|].id == leg.id;
        if (x.status == Filled || x.filled > 0.0) && closing.None? {
          closing := Some(leg.id);
          if leg.id !in saved {
            saved := saved[leg.id := x.status];
          }
        }
      }
      legs := current;
    }

    /** One reconciliation over an atomic broker snapshot; returns the position it reports. */
    method Reconcile(broker: Broker) returns (held: real)
      requires Inv(broker)
      modifies this
      ensures Inv(broker) && InStep(broker, broker.market)
      ensures held == Position(broker.market)
      ensures closing.Some? ==> closing.value in saved
      ensures forall i :: i in saved && broker.market.exits[i].status.IsTerminal() ==> saved[i].IsTerminal()
      ensures |legs| == |old(legs)|
      ensures forall k :: 0 <= k < |legs| ==>
                legs[k] == old(legs)[k].(status := broker.market.exits[old(legs)[k].id].status)
      ensures old(closing).Some? ==> closing == old(closing)
      ensures closing.None? ==> forall k :: 0 <= k < |legs| ==> !LegFilled(broker.market.exits[legs[k].id])
    {
      hide RefreshedRows;
      var snap := broker.market;
      RefreshLegs(snap);
      LegRefreshKeepsRecord(snap.exits, old(legs), old(closing), old(saved), legs, closing, saved);
      RowRefreshKeepsRecord(snap.exits, legs, closing, saved);
      entryFill := snap.entryFill;
      SettledRowsAreFinal(snap.exits, closing, saved);
      saved := RefreshedRows(snap.exits, closing, saved);
      held := Position(snap);
      LiveExitsAreWatched(snap.exits, legs, closing, saved);
    }

    /** One poll of the order listing for the legs in `wanted`; true when each is final and unfilled. */
    method PollLegs(listing: map<nat, Exit>, wanted: seq<bool>) returns (resolved: bool)
      requires |wanted| == |legs|
      modifies this`legs
      ensures |legs| == |old(legs)|
      ensures forall k :: 0 <= k < |legs| ==>
                legs[k] == if wanted[k] then Polled(old(legs)[k], listing) else old(legs)[k]
      ensures resolved <==> forall k :: 0 <= k < |legs| && wanted[k] ==> Resolved(old(legs)[k].id, listing)
    {
      resolved := true;
      var k := 0;
      while k < |legs|
        invariant 0 <= k <= |legs| == |old(legs)|
        invariant forall j :: 0 <= j < k ==>
                    legs[j] == if wanted[j] then Polled(old(legs)[j], listing) else old(legs)[j]
        invariant forall j :: k <= j < |legs| ==> legs[j] == old(legs)[j]
        invariant resolved <==> forall j :: 0 <= j < k && wanted[j] ==> Resolved(old(legs)[j].id, listing)
      {
        if wanted[k] {
          var id := legs[k].id;
          if id !in listing {
            resolved := false;
          } else if LegFilled(listing[id]) {
            legs := legs[k := legs[k].(status := Filled)];
            resolved := false;
          } else if !listing[id].status.IsFinal() {
            resolved := false;
          } else {
            legs := legs[k := legs[k].(status := listing[id].status)];
          }
        }
        k := k + 1;
      }
    }

    /** Asks for every live leg's cancellation; the answers prove nothing, so none is kept. */
    method RequestCancels(broker: Broker, wanted: seq<bool>, ghost snap: Market)
      requires Inv(broker) && InStep(broker, snap) && wanted == Wanted(legs)
      modifies broker`market, broker`cancels
      ensures Inv(broker) && InStep(broker, snap) && Evolves(old(broker.market), broker.market)
      ensures broker.cancels == old(broker.cancels) + LiveIds(legs)
    {
      EvolvesReflexively(broker.market);
      hide NoReversal, Recorded, Tracks, Evolves, LiveIds, Inv, InStep;
      NoLiveIds(legs);
      var k := 0;
      while k < |wanted|
        invariant 0 <= k <= |wanted|
        invariant Inv(broker) && InStep(broker, snap) && Evolves(old(broker.market), broker.market)
        invariant broker.cancels == old(broker.cancels) + LiveIds(legs[..k])
      {
        NextLiveId(legs, k);
        if wanted[k] {
          ghost var m := broker.market;
          RequestCancel(broker, legs[k].id, snap);
          EvolutionComposes(old(broker.market), m, broker.market);
        }
        k := k + 1;
      }
      assert legs[..k] == legs;
    }

    /** One request, and what the broker does meanwhile. */
    method RequestCancel(broker: Broker, id: nat, ghost snap: Market)
      requires Inv(broker) && InStep(broker, snap)
      modifies broker`market, broker`cancels
      ensures Inv(broker) && InStep(broker, snap) && Evolves(old(broker.market), broker.market)
      ensures broker.cancels == old(broker.cancels) + [id]
    {
      broker.Cancel(id);
      WaitInStep(broker, snap);
    }

    /** Lets time pass and takes one poll; a listing that cannot be read leaves the legs alone. */
    method PollOnce(broker: Broker, sound: bool, wanted: seq<bool>) returns (readable: bool, resolved: bool)
      requires Inv(broker) && |wanted| == |legs|
      modifies this`legs, broker`market, broker`polls
      ensures Inv(broker) && Evolves(old(broker.market), broker.market)
      ensures |legs| == |old(legs)|
      ensures forall k :: 0 <= k < |legs| ==> PollStep(old(legs)[k], legs[k], broker.market.exits, sound && wanted[k])
      ensures sound ==> readable && broker.polls == old(broker.polls) + 1
      ensures sound ==> (resolved <==> NoneLeft(legs, broker.market.exits, wanted))
      ensures broker.polls <= old(broker.polls) + 1
    {
      hide NoReversal, Evolves;
      Wait(broker);
      readable, resolved := true, false;
      if !sound {
        readable := *;
      }
      if readable {
        var listing := broker.List(sound);
        ghost var before := legs;
        resolved := PollLegs(listing, wanted);
        LegIdsDependOnIds(before, legs);
        assert Recorded(broker.market.exits, legs, closing, saved);
      }
    }

    /** Polls at most three times for a final, unfilled status of every wanted leg. */
    method AwaitCancels(broker: Broker, sound: bool, wanted: seq<bool>) returns (readable: bool)
      requires Inv(broker) && |wanted| == |legs|
      requires FinalLegsAreFinal(legs, broker.market.exits)
      modifies this`legs, broker`market, broker`polls
      ensures Inv(broker) && Evolves(old(broker.market), broker.market)
      ensures Traces(old(legs), legs, broker.market.exits)
      ensures sound ==> readable
      ensures sound ==> AllDecided(legs, broker.market.exits, wanted)
      ensures broker.polls <= old(broker.polls) + 3
      ensures sound && broker.polls < old(broker.polls) + 3 ==> NoneLeft(legs, broker.market.exits, wanted)
    {
      readable := true;
      EvolvesReflexively(broker.market);
      var poll := 0;
      var resolved := forall j :: 0 <= j < |wanted| ==> !wanted[j];
      while poll < 3 && !resolved && readable
        invariant Inv(broker) && Evolves(old(broker.market), broker.market)
        invariant Traces(old(legs), legs, broker.market.exits)
        invariant sound ==> readable
        invariant poll <= 3 && broker.polls <= old(broker.polls) + poll
        invariant sound ==> broker.polls == old(broker.polls) + poll
        invariant sound && resolved ==> NoneLeft(legs, broker.market.exits, wanted)
        invariant sound && (poll > 0 || resolved) ==> AllDecided(legs, broker.market.exits, wanted)
      {
        ghost var m := broker.market;
        ghost var before := legs;
        readable, resolved := PollOnce(broker, sound, wanted);
        EvolutionComposes(old(broker.market), m, broker.market);
        PollKeepsTraces(old(legs), before, legs, old(broker.market.exits), m.exits, broker.market.exits, sound, wanted);
        poll := poll + 1;
      }
    }

    /**
     * Cancels every leg that may be working and waits for proof. The answer is true only when the broker
     * showed each of them final and unfilled. `sound` says that listings are complete and writes succeed.
     */
    method CancelLegs(broker: Broker, sound: bool, ghost snap: Market) returns (cancelled: bool)
      requires Inv(broker) && InStep(broker, snap) && WorkingClose(closing, saved) == {}
      modifies this`legs, this`closing, broker`market, broker`cancels, broker`polls
      ensures Inv(broker) && Evolves(old(broker.market), broker.market)
      ensures |legs| == |old(legs)| && forall k :: 0 <= k < |legs| ==> legs[k].id == old(legs)[k].id
      ensures cancelled ==> AllFinal(broker.market.exits) && OnlyMoved(snap.exits, broker.market.exits, {})
      ensures cancelled || old(closing).Some? ==> closing == old(closing)
      ensures sound ==> (cancelled <==> Unfilled(old(legs), broker.market.exits))
      ensures sound && old(closing).None? ==> IsFirstFill(closing, old(legs), broker.market.exits)
      ensures broker.cancels == old(broker.cancels) + LiveIds(old(legs))
    {
      hide Unfilled, AllDecided, FilledAt, IsFirstFill;
      ghost var legs0 := legs;
      var wanted := Wanted(legs);
      RequestCancels(broker, wanted, snap);
      ghost var start := broker.market;
      var readable := AwaitCancels(broker, sound, wanted);
      EvolutionComposes(old(broker.market), start, broker.market);
      TracedIds(legs0, legs, broker.market.exits);
      var durable: bool := *;
      durable := durable || sound;
      cancelled := readable && durable && AllProven(legs, wanted);
      if cancelled {
        CancelledLegsAreFinal(snap.exits, start, broker.market, legs0, legs, wanted);
      } else if readable && durable {
        MarkFill(broker, wanted);
      }
      if sound {
        VerdictIsUnfilled(legs0, legs, broker.market.exits, wanted);
        if old(closing).None? {
          MarkedIsFirstFill(legs0, legs, broker.market.exits, wanted, closing);
        }
      }
    }

    /** The first leg found filled becomes the closing order unless one is on record. */
    method MarkFill(broker: Broker, wanted: seq<bool>)
      requires Inv(broker) && |wanted| == |legs|
      modifies this`closing
      ensures Inv(broker)
      ensures old(closing).Some? ==> closing == old(closing)
      ensures old(closing).None? && closing.Some? ==>
                exists k :: (&& 0 <= k < |legs| && closing == Some(legs[k].id) && wanted[k] && legs[k].status.IsFill()
                             && forall j :: 0 <= j < k && wanted[j] ==> !legs[j].status.IsFill())
      ensures closing.None? ==> forall k :: 0 <= k < |legs| && wanted[k] ==> !legs[k].status.IsFill()
    {
      if closing.Some? {
        return;
      }
      var k := 0;
      while k < |legs| && !(wanted[k] && legs[k].status.IsFill())
        invariant 0 <= k <= |legs|
        invariant forall j :: 0 <= j < k && wanted[j] ==> !legs[j].status.IsFill()
      {
        k := k + 1;
      }
      if k < |legs| {
        closing := Some(legs[k].id);
        assert legs[k].id in LegIds(legs);
      }
    }

    /**
     * Restores a broker stop after a failed close. Orders are read before positions, and `view` is whatever
     * the position endpoint answers, however old. The stop is sized from the recorded entry fill less the
     * fills of every exit on record, so no view can make it wrong.
     */
    method Rearm(broker: Broker, view: real, accepted: bool) returns (placed: Option<real>)
      requires Inv(broker)
      modifies this`legs, this`closing, broker`market, broker`sent
      ensures Inv(broker)
      ensures placed.Some? ==>
                && |broker.sent| == |old(broker.sent)| + 1
                && broker.sent[|old(broker.sent)|].qty == placed.value == view
                && OnlyLastLive(broker.market.exits)
                && closing == None
                && |legs| == |old(legs)| + 1 && LiveStop(legs[|old(legs)|])
      ensures placed.None? ==> broker.sent == old(broker.sent) && legs == old(legs) && closing == old(closing)
      ensures (&& accepted && view > EPSILON
               && old(AllFinal(broker.market.exits)) && !old(broker.market.entryLive)
               && view == entryFill - old(TotalFilled(broker.market.exits)))
              ==> placed == Some(view)
    {
      hide NoReversal, TotalFilled, BoundFilled, Bound;
      placed := None;
      ghost var start := broker.market;
      Wait(broker);
      if AllFinal(start.exits) {
        FinalExitsStay(start.exits, broker.market.exits);
        BoundFilledIsAll(start.exits, Bound(legs, closing, saved));
      }
      var every := broker.market;
      var working := every.entryLive || exists i :: 0 <= i < |every.exits| && every.exits[i].Live();
      Wait(broker);
      var remaining := entryFill - BoundFilled(every.exits, Bound(legs, closing, saved));
      var expected := if remaining > EPSILON then remaining else 0.0;
      if expected <= 0.0 || view != expected || working || !accepted {
        return;
      }
      FinalExitsStay(every.exits, broker.market.exits);
      BoundFilledIsAll(every.exits, Bound(legs, closing, saved));
      PlaceStop(broker, view);
      placed := Some(view);
    }

    /** Submits a stop for the whole remaining position and records it. */
    method PlaceStop(broker: Broker, qty: real)
      requires Inv(broker) && AllFinal(broker.market.exits)
      requires qty == entryFill - TotalFilled(broker.market.exits) > 0.0
      modifies this`legs, this`closing, broker`market, broker`sent
      ensures Inv(broker) && OnlyLastLive(broker.market.exits) && closing == None
      ensures legs == old(legs) + [Leg(|old(broker.market.exits)|, Stop, Working("accepted"))]
      ensures broker.sent == old(broker.sent) +
                [Submission(qty, old(Position(broker.market)), entryFill == old(broker.market.entryFill))]
    {
      hide NoReversal, Recorded, AllFinal, TotalFilled;
      ghost var before := broker.market.exits;
      var id := broker.Submit(qty, entryFill == broker.market.entryFill);
      assert broker.market.exits[..id] == before;
      AttachStop(broker, id);
    }

    /** Records the re-armed stop as a leg and clears the failed close. */
    method AttachStop(broker: Broker, id: nat)
      requires id + 1 == |broker.market.exits| && broker.market.exits[id].filled == 0.0
      requires NoReversal(broker.market) && AllFinal(broker.market.exits[..id])
      requires forall k :: 0 <= k < |broker.sent| ==> broker.sent[k].Exact()
      requires entryFill <= broker.market.entryFill
      requires Recorded(broker.market.exits[..id], legs, closing, saved)
      modifies this`legs, this`closing
      ensures Inv(broker) && closing == None
      ensures legs == old(legs) + [Leg(id, Stop, Working("accepted"))]
    {
      ghost var ids := LegIds(legs);
      legs := legs + [Leg(id, Stop, Working("accepted"))];
      AppendedLegIds(old(legs), legs[|old(legs)|]);
      closing := None;
      ghost var exits := broker.market.exits;
      forall i | 0 <= i < |exits| && exits[i].filled != 0.0 ensures i in Bound(legs, closing, saved) {
        assert i < id && exits[..id][i].filled != 0.0;
      }
      forall i | 0 <= i < |exits| && exits[i].Live() ensures i in LegIds(legs) {
        assert forall j :: 0 <= j < id ==> exits[..id][j] == exits[j];
      }
    }

    /** The index of the only live stop leg, or the number of legs when there is none or more than one. */
    method OnlyLiveStop() returns (k: nat)
      ensures k <= |legs|
      ensures k < |legs| ==> IsOnlyLiveStop(legs, k)
      ensures k == |legs| ==> forall j :: 0 <= j < |legs| ==> !IsOnlyLiveStop(legs, j)
    {
      k := |legs|;
      var several := false;
      var j := 0;
      while j < |legs|
        invariant 0 <= j <= |legs| && k <= |legs|
        invariant k == |legs| ==> !several && forall i :: 0 <= i < j ==> !LiveStop(legs[i])
        invariant k < |legs| ==> k < j && LiveStop(legs[k])
        invariant several ==> exists i :: k < i < j && LiveStop(legs[i])
        invariant k < |legs| && !several ==> forall i :: 0 <= i < j && LiveStop(legs[i]) ==> i == k
      {
        if LiveStop(legs[j]) {
          if k < |legs| {
            several := true;
          } else {
            k := j;
          }
        }
        j := j + 1;
      }
      if several {
        k := |legs|;
      }
    }

    /**
     * Amends the bracket's stop and records its successor. A broker that no longer works the stop, or has
     * filled part of it, refuses; then the book is reconciled, if that succeeds, and the stop is left alone.
     * `exited` says that the successor came back filled and is the exit.
     */
    method MoveStop(broker: Broker, sound: bool, ghost snap: Market) returns (moved: bool, exited: bool, successor: nat)
      requires Inv(broker) && InStep(broker, snap) && WorkingClose(closing, saved) == {}
      requires closing.Some? ==> closing.value in saved
      modifies this, broker`market
      ensures Inv(broker) && (exited ==> moved)
      ensures moved && !exited ==> InStep(broker, snap) && closing == old(closing)
      ensures moved ==> saved == old(saved) && broker.sent == old(broker.sent)
      ensures exited ==> closing == Some(successor)
      ensures !moved ==> SameLegs(old(legs), legs) && (old(closing).Some? ==> closing == old(closing))
      ensures !moved ==> InStep(broker, snap) || InStep(broker, broker.market)
      ensures !moved && sound && OneLiveStop(old(legs)) && Protected(old(legs)) ==> InStep(broker, broker.market)
      ensures !moved ==> !Amendable(old(legs), broker.market.exits)
      ensures moved ==> successor + 1 == |broker.market.exits| && legs == Moved(old(legs), Some(successor))
      ensures moved ==> OneLiveStop(old(legs)) && (exited <==> broker.market.exits[successor].status.IsFill())
    {
      moved, exited, successor := false, false, 0;
      var k := OnlyLiveStop();
      if k < |legs| && Protected(legs) {
        OnlyStopIs(legs, k);
        moved, exited, successor := AmendStop(broker, legs[k].id, sound, snap);
      }
    }

    /** A failed call may have raced a fill: the broker's state is read before anything else is considered. */
    method AfterFailure(broker: Broker, sound: bool, ghost snap: Market)
      requires Inv(broker) && InStep(broker, snap)
      modifies this
      ensures Inv(broker) && (InStep(broker, snap) || InStep(broker, broker.market))
      ensures sound ==> InStep(broker, broker.market)
      ensures SameLegs(old(legs), legs) && (old(closing).Some? ==> closing == old(closing))
    {
      var read: bool := *;
      if sound || read {
        var _ := Reconcile(broker);
      }
    }

    /** The broker's answer to an amendment of `id`, recorded. */
    method AmendStop(broker: Broker, id: nat, sound: bool, ghost snap: Market)
      returns (moved: bool, exited: bool, successor: nat)
      requires Inv(broker) && InStep(broker, snap) && WorkingClose(closing, saved) == {}
      requires closing.Some? ==> closing.value in saved
      requires id < |broker.market.exits|
      modifies this, broker`market
      ensures Inv(broker) && (exited ==> moved)
      ensures moved && !exited ==> InStep(broker, snap) && closing == old(closing)
      ensures moved ==> saved == old(saved) && broker.sent == old(broker.sent)
      ensures exited ==> closing == Some(successor)
      ensures !moved ==> SameLegs(old(legs), legs) && (old(closing).Some? ==> closing == old(closing))
      ensures !moved ==> InStep(broker, snap) || InStep(broker, broker.market)
      ensures !moved && sound ==> InStep(broker, broker.market)
      ensures moved ==> successor + 1 == |broker.market.exits| && legs == SuccessorLegs(old(legs), id, successor)
      ensures moved ==> (exited <==> broker.market.exits[successor].status.IsFill())
      ensures !moved ==> id < |broker.market.exits| && !Replaceable(broker.market.exits[id])
    {
      hide NoReversal, Recorded, Tracks, SuccessorLegs, LegIds, WorkingClose;
      moved, exited, successor := false, false, 0;
      WaitInStep(broker, snap);
      var x := broker.market.exits[id];
      if !Replaceable(x) {
        AfterFailure(broker, sound, snap);
        return;
      }
      moved := true;
      successor := SwapStop(broker, id, snap);
      WaitInStep(broker, snap);
      if broker.market.exits[successor].status.IsFill() {
        CloseOn(broker, successor);
        exited := true;
      }
    }

    /** The broker call and the write that records its answer. */
    method SwapStop(broker: Broker, id: nat, ghost snap: Market) returns (successor: nat)
      requires Inv(broker) && InStep(broker, snap) && WorkingClose(closing, saved) == {}
      requires closing.Some? ==> closing.value in saved
      requires id < |broker.market.exits|
      requires Replaceable(broker.market.exits[id])
      modifies this`legs, broker`market
      ensures Inv(broker) && InStep(broker, snap)
      ensures successor + 1 == |broker.market.exits| && legs == SuccessorLegs(old(legs), id, successor)
      ensures successor in LegIds(legs)
    {
      hide NoReversal, SuccessorLegs, LegIds, Recorded, Tracks, Succeeded;
      ghost var before := broker.market;
      successor := broker.ReplaceStop(id);
      Amended(before, broker.market, id);
      ReplacementKeepsRecord(before.exits, broker.market.exits, legs, closing, saved, id);
      ReplacementKeepsTracks(snap.exits, before.exits, broker.market.exits, legs, closing, saved, id);
      SuccessorLegIds(legs, id, successor);
      legs := SuccessorLegs(legs, id, successor);
    }

    /** A recorded leg turns out to be the exit. */
    method CloseOn(broker: Broker, id: nat)
      requires Inv(broker) && id in LegIds(legs) && WorkingClose(closing, saved) == {}
      requires closing.Some? ==> closing.value in saved
      modifies this`closing
      ensures Inv(broker) && closing == Some(id)
    {
      closing := Some(id);
    }

    /** Sends the close and records it as the closing order. */
    method SubmitClose(broker: Broker, qty: real, ghost snap: Market)
      requires Inv(broker) && AllFinal(broker.market.exits)
      requires OnlyMoved(snap.exits, broker.market.exits, {})
      requires entryFill == snap.entryFill && qty == Position(snap) > 0.0
      modifies this`closing, this`saved, broker`market, broker`sent
      ensures Inv(broker)
      ensures closing == Some(|old(broker.market.exits)|) && WorkingClose(closing, saved) == {closing.value}
      ensures broker.market.exits[..|old(broker.market.exits)|] == old(broker.market.exits)
      ensures |broker.market.exits| == |old(broker.market.exits)| + 1
      ensures broker.sent == old(broker.sent) +
                [Submission(qty, old(Position(broker.market)), entryFill == old(broker.market.entryFill))]
    {
      UnmovedFillsAgree(snap.exits, broker.market.exits);
      ghost var before := broker.market.exits;
      var id := broker.Submit(qty, entryFill == broker.market.entryFill);
      assert broker.market.exits[..id] == before;
      RecordClose(broker, id);
    }

    method RecordClose(broker: Broker, id: nat)
      requires id + 1 == |broker.market.exits|
      requires broker.market.exits[id].filled == 0.0 && broker.market.exits[id].Live()
      requires NoReversal(broker.market) && AllFinal(broker.market.exits[..id])
      requires forall k :: 0 <= k < |broker.sent| ==> broker.sent[k].Exact()
      requires entryFill <= broker.market.entryFill
      requires Recorded(broker.market.exits[..id], legs, closing, saved)
      modifies this`closing, this`saved
      ensures Inv(broker) && closing == Some(id) && WorkingClose(closing, saved) == {id}
    {
      ghost var exits := broker.market.exits;
      assert forall j :: 0 <= j < id ==> exits[..id][j] == exits[j];
      saved := saved[id := broker.market.exits[id].status];
      closing := Some(id);
    }

    /** Something is held, no close is working, and no leg is recorded as the exit. */
    predicate Ready(held: real)
      reads this
    {
      held > 0.0 && WorkingClose(closing, saved) == {} && forall k :: 0 <= k < |legs| ==> legs[k].status != Filled
    }

    /**
     * One monitor pass over the exposure after a reconciliation that reported `held`. The choices stand for
     * what prices, bars and deadlines decide and for what the broker answers. `moved` is the successor of a stop
     * that was moved, `exited` says that it came back filled.
     */
    method Monitor(broker: Broker, held: real, choice: Choice, ghost snap: Market)
      returns (closed: bool, moved: Option<nat>, exited: bool)
      requires Inv(broker) && InStep(broker, snap) && held == Position(snap)
      requires closing.Some? ==> closing.value in saved
      modifies this, broker
      ensures Inv(broker)
      ensures closed ==> choice.close && choice.accepted && |broker.sent| == |old(broker.sent)| + 1
      ensures closed ==> broker.sent[|old(broker.sent)|].qty == held && WorkingClose(closing, saved) != {}
      ensures !choice.close ==> broker.sent == old(broker.sent)
      ensures !old(Ready(held)) ==> !closed && moved.None? && broker.sent == old(broker.sent) && legs == old(legs)
      ensures !old(Ready(held)) ==>
                closing == old(closing) && saved == old(saved) && broker.market == old(broker.market)
      ensures old(Ready(held)) && choice.move && moved.None? ==> !Amendable(old(legs), broker.market.exits)
      ensures moved.Some? ==> choice.move && OneLiveStop(old(legs))
      ensures exited ==> moved.Some? && closing == moved && moved.value < |broker.market.exits|
      ensures exited ==> broker.market.exits[moved.value].status.IsFill()
      ensures (&& old(Ready(held)) && choice.close && choice.sound
               && (choice.move ==> moved.Some? && !exited)
               && (choice.bars ==> old(closing).None?))
              ==> (closed <==> choice.accepted && Unfilled(Moved(old(legs), moved), broker.market.exits))
      ensures choice.bars && old(closing).Some? ==> !closed && broker.sent == old(broker.sent)
      ensures choice.Insists() && !closed ==> saved == old(saved)
      ensures choice.Insists() ==> SameIds(old(legs), legs)
      ensures !old(Ready(held)) || !choice.move ==> entryFill == old(entryFill)
    {
      hide NoReversal, Recorded, Tracks, Evolves, Amendable, OneLiveStop, Unfilled;
      closed, moved, exited := false, None, false;
      if held <= 0.0 || WorkingClose(closing, saved) != {} {
        return;
      }
      if exists k :: 0 <= k < |legs| && legs[k].status == Filled {
        return;
      }
      if choice.move {
        var ok, filled, successor := MoveStop(broker, choice.sound, snap);
        if !ok {
          return;
        }
        moved, exited := Some(successor), filled;
        if exited {
          return;
        }
      }
      if choice.bars && closing.Some? {
        return;
      }
      if choice.close {
        closed := Close(broker, held, choice, snap);
      }
    }

    /** Cancels the legs, then closes; a refused close of a stripped bracket restores a stop. */
    method Close(broker: Broker, held: real, choice: Choice, ghost snap: Market) returns (closed: bool)
      requires Inv(broker) && InStep(broker, snap) && held == Position(snap) > 0.0
      requires WorkingClose(closing, saved) == {}
      modifies this`legs, this`closing, this`saved, broker
      ensures Inv(broker)
      ensures closed ==> choice.accepted && |broker.sent| == |old(broker.sent)| + 1
      ensures closed ==> broker.sent[|old(broker.sent)|].qty == held && WorkingClose(closing, saved) != {}
      ensures choice.sound ==> (closed <==> choice.accepted && Unfilled(old(legs), broker.market.exits))
      ensures !closed ==> saved == old(saved)
      ensures choice.accepted ==> SameIds(old(legs), legs)
      ensures broker.cancels == old(broker.cancels) + LiveIds(old(legs))
      ensures choice.sound && !closed && choice.accepted && old(closing).None? ==>
                IsFirstFill(closing, old(legs), broker.market.exits)
      ensures (&& choice.sound && !choice.accepted && Unfilled(old(legs), broker.market.exits)
               && old(legs) != [] && choice.stopAccepted && choice.view == held > EPSILON
               && !old(broker.market.entryLive))
              ==> (&& |broker.sent| == |old(broker.sent)| + 1
                   && broker.sent[|old(broker.sent)|].qty == held
                   && |legs| == |old(legs)| + 1
                   && LiveStop(legs[|old(legs)|]))
    {
      hide NoReversal, Recorded, Tracks, Evolves, Unfilled;
      var stripped := exists k :: 0 <= k < |legs| && legs[k].Live();
      stripped := stripped || (|legs| > 0 && forall k :: 0 <= k < |legs| ==> !legs[k].Live());
      closed := CancelLegs(broker, choice.sound, snap);
      if !closed {
        return;
      }
      closed := choice.accepted;
      ghost var exits := broker.market.exits;
      if closed {
        SubmitClose(broker, held, snap);
        UnfilledStays(old(legs), exits, broker.market.exits);
      } else if stripped {
        UnmovedFillsAgree(snap.exits, exits);
        EntryStaysFinal(old(broker.market), broker.market);
        var _ := Rearm(broker, choice.view, choice.stopAccepted);
      }
    }

    /** One cycle: the broker moves, the book reconciles, the broker moves again, the monitor acts. */
    method Cycle(broker: Broker, choice: Choice) returns (closed: bool)
      requires Inv(broker)
      modifies this, broker
      ensures Inv(broker)
      ensures closed ==> |broker.sent| == |old(broker.sent)| + 1
      ensures choice.Insists() && WorkingClose(closing, saved) != {} && !closed ==>
                closing.value < |old(broker.market).exits| &&
                !old(broker.market).exits[closing.value].status.IsTerminal()
      ensures choice.Insists() ==> entryFill >= old(broker.market.entryFill) && Handled(broker.market)
    {
      hide NoReversal, Recorded, Tracks, WorkingClose, Evolves;
      Wait(broker);
      var held := Reconcile(broker);
      ghost var snap := broker.market;
      ghost var rows := saved;
      LegsExist(snap.exits, legs, closing, saved);
      WaitInStep(broker, snap);
      ghost var known := legs;
      LegsExist(broker.market.exits, legs, closing, saved);
      FilledLegObstructs(legs, snap, broker.market);
      SnapshotBoundsFills(snap, broker.market);
      var sent, _, _ := Monitor(broker, held, choice, snap);
      closed := sent;
      LegsExist(broker.market.exits, legs, closing, saved);
      if choice.Insists() {
        UnprovenLegObstructs(known, legs, broker.market.exits);
        SettledCloseIsNotWorking(old(broker.market), snap, closing, rows);
      }
    }

    /** The exits sold all of the entry fill on record, or a close is working, or a leg has filled or still works. */
    predicate Handled(m: Market)
      reads this
    {
      entryFill <= TotalFilled(m.exits) || WorkingClose(closing, saved) != {} || Obstructed(legs, m.exits)
    }

    /**
     * Any number of cycles. When the last one has a reason to close that nothing sound stands against, the
     * exposure is handled in the end.
     */
    method Run(broker: Broker, cycles: seq<Choice>)
      requires Inv(broker)
      modifies this, broker
      ensures Inv(broker)
      ensures cycles != [] && cycles[|cycles| - 1].Insists() ==> Handled(broker.market)
    {
      for k := 0 to |cycles|
        invariant Inv(broker)
        invariant k > 0 && cycles[k - 1].Insists() ==> Handled(broker.market)
      {
        var _ := Cycle(broker, cycles[k]);
      }
    }
  }

  function WithoutLeg(legs: seq<Leg>, id: nat): seq<Leg> {
    if legs == [] then []
    else
      var n := |legs| - 1;
      if legs[n].id == id then WithoutLeg(legs[..n], id) else WithoutLeg(legs[..n], id) + [legs[n]]
  }

  predicate SameIds(before: seq<Leg>, after: seq<Leg>) {
    |after| == |before| && forall k :: 0 <= k < |before| ==> after[k].id == before[k].id
  }

  /** The same leg orders, whatever became of them. */
  predicate SameLegs(before: seq<Leg>, after: seq<Leg>) {
    |after| == |before| && forall k :: 0 <= k < |before| ==> after[k] == before[k].(status := after[k].status)
  }

  predicate LiveStop(leg: Leg) { leg.role.Stop? && leg.Live() }

  predicate IsOnlyLiveStop(legs: seq<Leg>, k: nat) {
    && k < |legs| && LiveStop(legs[k])
    && forall j :: 0 <= j < |legs| && LiveStop(legs[j]) ==> j == k
  }

  function SuccessorLegs(legs: seq<Leg>, id: nat, successor: nat): seq<Leg> {
    WithoutLeg(legs, id) + [Leg(successor, Stop, Working("accepted"))]
  }

  /** The broker amends an unfilled bracket leg that still works. */
  predicate Replaceable(x: Exit) { x.Live() && !LegFilled(x) && x.group.Bracket? }

  ghost predicate OneLiveStop(legs: seq<Leg>) { exists k: nat :: IsOnlyLiveStop(legs, k) }

  ghost function OnlyStop(legs: seq<Leg>): nat
    requires OneLiveStop(legs)
    ensures IsOnlyLiveStop(legs, OnlyStop(legs))
  {
    var k: nat :| IsOnlyLiveStop(legs, k);
    k
  }

  lemma OnlyStopIs(legs: seq<Leg>, k: nat)
    requires IsOnlyLiveStop(legs, k)
    ensures OneLiveStop(legs) && OnlyStop(legs) == k
  {
  }

  /** The legs after their only live stop was swapped for the order `successor`. */
  ghost function Moved(legs: seq<Leg>, successor: Option<nat>): seq<Leg> {
    if successor.Some? && OneLiveStop(legs) then SuccessorLegs(legs, legs[OnlyStop(legs)].id, successor.value)
    else legs
  }

  /** A complete pair with one live stop, and the broker still works that stop, unfilled. */
  ghost predicate Amendable(legs: seq<Leg>, exits: seq<Exit>) {
    && OneLiveStop(legs) && Protected(legs)
    && legs[OnlyStop(legs)].id < |exits| && Replaceable(exits[legs[OnlyStop(legs)].id])
  }

  lemma {:induction false} WithoutLegIds(legs: seq<Leg>, id: nat)
    ensures LegIds(WithoutLeg(legs, id)) == LegIds(legs) - {id}
    ensures OpenLegIds(WithoutLeg(legs, id)) == OpenLegIds(legs) - {id}
    ensures forall leg :: leg in WithoutLeg(legs, id) ==> leg in legs && leg.id != id
  {
    if legs != [] {
      var n := |legs| - 1;
      WithoutLegIds(legs[..n], id);
      assert legs == legs[..n] + [legs[n]];
      AppendedLegIds(legs[..n], legs[n]);
      if legs[n].id != id {
        AppendedLegIds(WithoutLeg(legs[..n], id), legs[n]);
      }
    }
  }

  lemma SuccessorLegIds(legs: seq<Leg>, id: nat, successor: nat)
    ensures LegIds(SuccessorLegs(legs, id, successor)) == LegIds(legs) - {id} + {successor}
    ensures OpenLegIds(SuccessorLegs(legs, id, successor)) == OpenLegIds(legs) - {id} + {successor}
    ensures forall leg :: leg in SuccessorLegs(legs, id, successor) ==>
              leg in legs || leg == Leg(successor, Stop, Working("accepted"))
  {
    WithoutLegIds(legs, id);
    AppendedLegIds(WithoutLeg(legs, id), Leg(successor, Stop, Working("accepted")));
  }

  /** An unfilled exit `id` ended and an unfilled successor was appended; nothing else changed. */
  ghost predicate Succeeded(before: seq<Exit>, after: seq<Exit>, id: nat) {
    && id < |before| && before[id].filled == 0.0
    && |after| == |before| + 1
    && !after[id].Live() && after[id].filled == 0.0 && after[|before|].filled == 0.0
    && forall i :: 0 <= i < |before| && i != id ==> after[i] == before[i]
  }

  /** Swapping an unfilled stop for its successor keeps every live or filled exit on record. */
  lemma ReplacementKeepsRecord(before: seq<Exit>, after: seq<Exit>,
                               legs: seq<Leg>, closing: Option<nat>, saved: map<nat, Status>, id: nat)
    requires Recorded(before, legs, closing, saved) && Succeeded(before, after, id)
    requires closing.Some? ==> closing.value in saved
    ensures Recorded(after, SuccessorLegs(legs, id, |before|), closing, saved)
  {
    var replaced := SuccessorLegs(legs, id, |before|);
    SuccessorLegIds(legs, id, |before|);
    forall k | 0 <= k < |replaced| ensures replaced[k].id < |after| {
      assert replaced[k] in replaced;
    }
  }

  lemma Amended(before: Market, after: Market, id: nat)
    requires NoReversal(before) && id < |before.exits|
    requires var x := before.exits[id];
             && x.Live() && !LegFilled(x)
             && after == WithExit(before.(exits := before.exits[id := x.(status := Replaced)]),
                                  Exit(x.qty - x.filled, 0.0, Working("new"), Bracket))
    ensures Succeeded(before.exits, after.exits, id) && |after.exits| == |before.exits| + 1
  {
    assert before.exits[id].Valid();
  }

  lemma ReplacementKeepsTracks(snap: seq<Exit>, before: seq<Exit>, after: seq<Exit>, legs: seq<Leg>,
                               closing: Option<nat>, saved: map<nat, Status>, id: nat)
    requires Tracks(snap, before, legs, {}) && Succeeded(before, after, id)
    requires Recorded(before, legs, closing, saved)
    ensures Tracks(snap, after, SuccessorLegs(legs, id, |before|), {})
  {
    var replaced := SuccessorLegs(legs, id, |before|);
    SuccessorLegIds(legs, id, |before|);
    forall k | 0 <= k < |replaced| && replaced[k].status.IsFinal()
      ensures replaced[k].id < |after| && !after[replaced[k].id].Live()
    {
      assert replaced[k] in replaced;
      assert replaced[k] in legs;
    }
  }

  lemma AppendedLegIds(legs: seq<Leg>, leg: Leg)
    ensures LegIds(legs + [leg]) == LegIds(legs) + {leg.id}
    ensures OpenLegIds(legs + [leg]) == OpenLegIds(legs) + if leg.status.IsFinal() then {} else {leg.id}
  {
    var all := legs + [leg];
    assert all[|legs|] == leg;
    forall i | i in LegIds(legs) ensures i in LegIds(all) {
      var k :| 0 <= k < |legs| && legs[k].id == i;
      assert all[k].id == i;
    }
    forall i | i in OpenLegIds(legs) ensures i in OpenLegIds(all) {
      var k :| 0 <= k < |legs| && !legs[k].status.IsFinal() && legs[k].id == i;
      assert all[k] == legs[k];
    }
  }

  /** A recorded leg after a poll: fills win, then a final status, otherwise it is left as it was. */
  function Polled(leg: Leg, listing: map<nat, Exit>): Leg {
    if leg.id !in listing then leg
    else if LegFilled(listing[leg.id]) then leg.(status := Filled)
    else if listing[leg.id].status.IsFinal() then leg.(status := listing[leg.id].status)
    else leg
  }

  predicate Resolved(id: nat, listing: map<nat, Exit>) {
    id in listing && listing[id].status.IsFinal() && !LegFilled(listing[id])
  }

  /** A recorded leg has filled, or still works. */
  predicate Obstructed(legs: seq<Leg>, exits: seq<Exit>) {
    exists k :: 0 <= k < |legs| && legs[k].id < |exits| &&
      var x := exits[legs[k].id]; x.Live() || x.status == Filled || x.filled > 0.0
  }

  /** Every leg that was recorded as live is final and unfilled at the broker. */
  predicate Unfilled(legs: seq<Leg>, exits: seq<Exit>) {
    forall k :: 0 <= k < |legs| && legs[k].Live() ==>
      legs[k].id < |exits| &&
      var x := exits[legs[k].id]; x.status.IsFinal() && x.status != Filled && x.filled <= 0.0
  }

  /** The legs recorded as live, in order. */
  function LiveIds(legs: seq<Leg>): seq<nat> {
    if legs == [] then []
    else
      var leg := legs[|legs| - 1];
      LiveIds(legs[..|legs| - 1]) + if leg.Live() then [leg.id] else []
  }

  lemma NextLiveId(legs: seq<Leg>, k: nat)
    requires k < |legs|
    ensures LiveIds(legs[..k + 1]) == LiveIds(legs[..k]) + if legs[k].Live() then [legs[k].id] else []
  {
    assert legs[..k + 1][..k] == legs[..k];
  }

  lemma NoLiveIds(legs: seq<Leg>)
    ensures LiveIds(legs[..0]) == []
  {
  }

  /** Nothing wanted is left to decide: each leg is final and unfilled. */
  predicate NoneLeft(legs: seq<Leg>, exits: seq<Exit>, wanted: seq<bool>)
    requires |wanted| == |legs|
  {
    forall k :: 0 <= k < |legs| && wanted[k] ==>
      legs[k].id < |exits| &&
      var x := exits[legs[k].id]; x.status.IsFinal() && x.status != Filled && x.filled <= 0.0
  }

  /**
   * `closing` is the first leg, among those recorded as live, that has a fill at the broker, or is recorded as
   * partly filled and still works there; none when there is none.
   */
  ghost predicate IsFirstFill(closing: Option<nat>, legs: seq<Leg>, exits: seq<Exit>) {
    match closing
    case None => forall k :: 0 <= k < |legs| ==> !FilledAt(legs, exits, k)
    case Some(id) =>
      exists k :: 0 <= k < |legs| && legs[k].id == id && FilledAt(legs, exits, k)
                  && forall j :: 0 <= j < k ==> !FilledAt(legs, exits, j)
  }

  predicate FilledAt(legs: seq<Leg>, exits: seq<Exit>, k: nat)
    requires k < |legs|
  {
    legs[k].Live() && legs[k].id < |exits| &&
    var x := exits[legs[k].id]; x.status == Filled || x.filled > 0.0 || (legs[k].status == PartiallyFilled && x.Live())
  }

  lemma UnfilledStays(legs: seq<Leg>, exits: seq<Exit>, more: seq<Exit>)
    requires |exits| <= |more| && more[..|exits|] == exits
    ensures Unfilled(legs, exits) ==> Unfilled(legs, more)
  {
    assert forall i :: 0 <= i < |exits| ==> more[..|exits|][i] == more[i];
  }

  lemma EntryStaysFinal(m: Market, n: Market)
    requires Evolves(m, n)
    ensures !m.entryLive ==> !n.entryLive
  {
  }

  lemma SnapshotBoundsFills(snap: Market, now: Market)
    requires NoReversal(snap) && Evolves(snap, now)
    ensures TotalFilled(snap.exits) <= TotalFilled(now.exits)
  {
    EvolutionKeepsNoReversal(snap, now);
  }

  lemma LegsExist(exits: seq<Exit>, legs: seq<Leg>, closing: Option<nat>, saved: map<nat, Status>)
    requires Recorded(exits, legs, closing, saved)
    ensures forall k :: 0 <= k < |legs| ==> legs[k].id < |exits|
    ensures forall i :: i in saved ==> i < |exits|
  {
  }

  /** A close row counts as working after a reconciliation only if the broker had not ended that order before. */
  lemma SettledCloseIsNotWorking(m: Market, snap: Market, closing: Option<nat>, saved: map<nat, Status>)
    requires Evolves(m, snap) && forall i :: i in saved ==> i < |snap.exits|
    requires forall i :: i in saved && snap.exits[i].status.IsTerminal() ==> saved[i].IsTerminal()
    ensures WorkingClose(closing, saved) != {} ==>
              closing.value < |m.exits| && !m.exits[closing.value].status.IsTerminal()
  {
    if WorkingClose(closing, saved) != {} {
      assert ExitMoves(m.exits[closing.value], snap.exits[closing.value]);
    }
  }

  /** A leg that the last snapshot showed filled is filled. */
  lemma FilledLegObstructs(legs: seq<Leg>, snap: Market, now: Market)
    requires Evolves(snap, now) && forall k :: 0 <= k < |legs| ==> legs[k].id < |now.exits|
    requires forall k :: 0 <= k < |legs| ==> legs[k].status == snap.exits[legs[k].id].status
    ensures (exists k :: 0 <= k < |legs| && legs[k].status == Filled) ==> Obstructed(legs, now.exits)
  {
    if k :| 0 <= k < |legs| && legs[k].status == Filled {
      assert ExitMoves(snap.exits[legs[k].id], now.exits[legs[k].id]);
    }
  }

  lemma UnprovenLegObstructs(before: seq<Leg>, legs: seq<Leg>, exits: seq<Exit>)
    requires SameIds(before, legs) && forall k :: 0 <= k < |legs| ==> legs[k].id < |exits|
    ensures !Unfilled(before, exits) ==> Obstructed(legs, exits)
  {
    if !Unfilled(before, exits) {
      var k :| 0 <= k < |before| && before[k].Live() &&
               !(exits[before[k].id].status.IsFinal() && !LegFilled(exits[before[k].id]));
      assert legs[k].id == before[k].id;
    }
  }

  /** What polling may have done to a leg: nothing, a fill, or a proof that it is final and unfilled. */
  ghost predicate LegTrace(was: Leg, now: Leg, exits: seq<Exit>) {
    && now.id == was.id && now.id < |exits|
    && (|| now.status == was.status
        || (now.status == Filled && LegFilled(exits[now.id]))
        || (now.status.IsFinal() && !exits[now.id].Live() && !LegFilled(exits[now.id])))
  }

  /** The leg's recorded status is the program's verdict on whether it is final and unfilled. */
  ghost predicate Decided(leg: Leg, exits: seq<Exit>) {
    && leg.id < |exits|
    && (leg.status.IsFinal() && !leg.status.IsFill() <==> !exits[leg.id].Live() && !LegFilled(exits[leg.id]))
    && (LegFilled(exits[leg.id]) ==> leg.status == Filled)
  }

  function Wanted(legs: seq<Leg>): seq<bool> {
    seq(|legs|, k requires 0 <= k < |legs| => legs[k].Live())
  }

  /** Every wanted leg is recorded as final without a fill. */
  predicate AllProven(legs: seq<Leg>, wanted: seq<bool>)
    requires |wanted| == |legs|
  {
    forall k :: 0 <= k < |legs| && wanted[k] ==> legs[k].status.IsFinal() && !legs[k].status.IsFill()
  }

  lemma VerdictIsUnfilled(legs0: seq<Leg>, legs: seq<Leg>, exits: seq<Exit>, wanted: seq<bool>)
    requires Traces(legs0, legs, exits) && wanted == Wanted(legs0)
    requires AllDecided(legs, exits, wanted)
    ensures AllProven(legs, wanted) <==> Unfilled(legs0, exits)
  {
  }

  lemma TracedIds(legs0: seq<Leg>, legs: seq<Leg>, exits: seq<Exit>)
    requires Traces(legs0, legs, exits)
    ensures |legs| == |legs0| && forall k :: 0 <= k < |legs| ==> legs[k].id == legs0[k].id
  {
  }

  /** The first wanted leg recorded as filled is the first with a fill at the broker. */
  lemma MarkedIsFirstFill(legs0: seq<Leg>, legs: seq<Leg>, exits: seq<Exit>, wanted: seq<bool>, closing: Option<nat>)
    requires Traces(legs0, legs, exits) && wanted == Wanted(legs0) && AllDecided(legs, exits, wanted)
    requires closing.None? ==> forall k :: 0 <= k < |legs| && wanted[k] ==> !legs[k].status.IsFill()
    requires closing.Some? ==>
               exists k :: (&& 0 <= k < |legs| && closing == Some(legs[k].id) && wanted[k] && legs[k].status.IsFill()
                            && forall j :: 0 <= j < k && wanted[j] ==> !legs[j].status.IsFill())
    ensures IsFirstFill(closing, legs0, exits)
  {
    forall k | 0 <= k < |legs|
      ensures FilledAt(legs0, exits, k) <==> wanted[k] && legs[k].status.IsFill()
    {
      if wanted[k] {
        assert Decided(legs[k], exits) && LegTrace(legs0[k], legs[k], exits);
      }
    }
    if closing.Some? {
      var k :| (&& 0 <= k < |legs| && closing == Some(legs[k].id) && wanted[k] && legs[k].status.IsFill()
                && forall j :: 0 <= j < k && wanted[j] ==> !legs[j].status.IsFill());
      assert FilledAt(legs0, exits, k) && legs0[k].id == closing.value;
    }
  }

  /** One poll of one leg against the truth; a `decisive` poll read a complete listing. */
  ghost predicate PollStep(before: Leg, after: Leg, exits: seq<Exit>, decisive: bool) {
    && before.id == after.id && after.id < |exits|
    && (|| after == before
        || (after.status == Filled && LegFilled(exits[after.id]))
        || (after.status.IsFinal() && !exits[after.id].Live() && !LegFilled(exits[after.id])))
    && (decisive ==>
          && (LegFilled(exits[after.id]) ==> after.status == Filled)
          && (!LegFilled(exits[after.id]) && !exits[after.id].Live() ==> after.status == exits[after.id].status)
          && (exits[after.id].Live() && !LegFilled(exits[after.id]) ==> after == before))
  }

  ghost predicate Traces(was: seq<Leg>, now: seq<Leg>, exits: seq<Exit>) {
    |was| == |now| && forall k :: 0 <= k < |was| ==> LegTrace(was[k], now[k], exits)
  }

  ghost predicate AllDecided(legs: seq<Leg>, exits: seq<Exit>, wanted: seq<bool>) {
    |wanted| == |legs| && forall k :: 0 <= k < |legs| && wanted[k] ==> Decided(legs[k], exits)
  }

  /** Traces survive broker activity and one more poll, and a decisive poll settles every wanted leg. */
  lemma PollKeepsTraces(was: seq<Leg>, before: seq<Leg>, after: seq<Leg>,
                        start: seq<Exit>, middle: seq<Exit>, now: seq<Exit>, sound: bool, wanted: seq<bool>)
    requires |start| == |middle| == |now| && |wanted| == |was| == |after|
    requires forall i :: 0 <= i < |now| ==> ExitMoves(start[i], middle[i]) && ExitMoves(middle[i], now[i])
    requires Traces(was, before, middle)
    requires FinalLegsAreFinal(was, start)
    requires forall k :: 0 <= k < |after| ==> PollStep(before[k], after[k], now, sound && wanted[k])
    ensures Traces(was, after, now)
    ensures sound ==> AllDecided(after, now, wanted)
  {
  }

  /** Once every live leg ends final and unfilled, nothing is working and nothing moved since the snapshot. */
  lemma CancelledLegsAreFinal(snap: seq<Exit>, before: Market, after: Market,
                              legs0: seq<Leg>, legs: seq<Leg>, wanted: seq<bool>)
    requires ValidMarket(before) && Evolves(before, after)
    requires Tracks(snap, before.exits, legs0, {})
    requires Traces(legs0, legs, after.exits)
    requires wanted == Wanted(legs0) && AllProven(legs, wanted)
    ensures AllFinal(after.exits) && OnlyMoved(snap, after.exits, {})
  {
  }

  lemma EvolvesReflexively(m: Market)
    requires ValidMarket(m)
    ensures Evolves(m, m)
  {
  }

  /** Close rows after the order loop, plus the row a closing order without one receives. */
  function RefreshedRows(exits: seq<Exit>, closing: Option<nat>, saved: map<nat, Status>): map<nat, Status>
    requires forall i :: i in saved ==> i < |exits|
    requires closing.Some? ==> closing.value < |exits|
  {
    var merged := map i | i in saved :: Evidence.Join(saved[i], exits[i].status);
    if closing.Some? && closing.value !in saved
    then merged[closing.value := exits[closing.value].status]
    else merged
  }

  lemma LegRefreshKeepsRecord(exits: seq<Exit>, legs0: seq<Leg>, closing0: Option<nat>, saved0: map<nat, Status>,
                              legs: seq<Leg>, closing: Option<nat>, saved: map<nat, Status>)
    requires Recorded(exits, legs0, closing0, saved0)
    requires |legs| == |legs0| && forall k :: 0 <= k < |legs| ==> legs[k].id == legs0[k].id
    requires closing0.Some? ==> closing == closing0 && saved == saved0
    requires closing0.None? && closing.None? ==> saved == saved0
    requires closing0.None? && closing.Some? ==>
               var c := closing.value;
               && c in LegIds(legs)
               && saved == if c in saved0 then saved0 else saved0[c := exits[c].status]
    ensures Recorded(exits, legs, closing, saved)
  {
  }

  lemma RowRefreshKeepsRecord(exits: seq<Exit>, legs: seq<Leg>, closing: Option<nat>, saved: map<nat, Status>)
    requires Recorded(exits, legs, closing, saved)
    ensures Recorded(exits, legs, closing, RefreshedRows(exits, closing, saved))
  {
  }

  lemma SettledRowsAreFinal(exits: seq<Exit>, closing: Option<nat>, saved: map<nat, Status>)
    requires (forall i :: i in saved ==> i < |exits|) && (closing.Some? ==> closing.value < |exits|)
    ensures var rows := RefreshedRows(exits, closing, saved);
            && (closing.Some? ==> closing.value in rows)
            && (forall i :: i in rows ==> i < |exits|)
            && (forall i :: i in rows && exits[i].status.IsTerminal() ==> rows[i].IsTerminal())
  {
  }

  predicate LegFilled(x: Exit) { x.status == Filled || x.filled > 0.0 }

  lemma LegIdsDependOnIds(a: seq<Leg>, b: seq<Leg>)
    requires |a| == |b| && forall k :: 0 <= k < |a| ==> a[k].id == b[k].id
    ensures LegIds(a) == LegIds(b)
  {
  }

  /** Right after the legs and rows were refreshed, every live exit is a live leg or the working close. */
  lemma LiveExitsAreWatched(exits: seq<Exit>, legs: seq<Leg>, closing: Option<nat>, saved: map<nat, Status>)
    requires forall k :: 0 <= k < |legs| ==> legs[k].id < |exits| && legs[k].status == exits[legs[k].id].status
    requires forall i :: i in saved ==> i < |exits| && (saved[i].IsTerminal() ==> !exits[i].Live())
    requires closing.Some? ==> closing.value in saved
    requires forall i :: 0 <= i < |exits| && exits[i].Live() ==> i in LegIds(legs) || closing == Some(i)
    ensures forall i :: 0 <= i < |exits| && exits[i].Live() ==> i in OpenLegIds(legs) + WorkingClose(closing, saved)
  {
  }

  lemma {:induction false} SameBracketFill(exits: seq<Exit>, id: nat, x: Exit)
    requires id < |exits| && x.group == exits[id].group && x.filled == exits[id].filled
    ensures BracketFilled(exits[id := x]) == BracketFilled(exits)
    ensures TotalFilled(exits[id := x]) == TotalFilled(exits)
  {
    var n := |exits| - 1;
    if id == n {
      assert exits[id := x][..n] == exits[..n];
    } else {
      SameBracketFill(exits[..n], id, x);
      assert exits[id := x][..n] == exits[..n][id := x];
    }
  }

  // ---- Where the run starts, and what re-arming rests on

  /** A filled bracket entry starts inside the invariant: its two legs may sell what was bought, once. */
  lemma FreshBracketIsSafe(entryFill: real, entryLive: bool, qty: real)
    requires 0.0 < qty <= entryFill
    ensures var m := Market(entryFill, entryLive, qty,
                            [Exit(qty, 0.0, Working("new"), Bracket), Exit(qty, 0.0, Working("held"), Bracket)]);
            && NoReversal(m)
            && Recorded(m.exits, [Leg(0, Stop, Working("new")), Leg(1, Target, Working("held"))], None, map[])
  {
    var stop, target := Exit(qty, 0.0, Working("new"), Bracket), Exit(qty, 0.0, Working("held"), Bracket);
    AppendSums([], stop);
    AppendSums([stop], target);
    assert [] + [stop] == [stop] && [stop] + [target] == [stop, target];
    var legs := [Leg(0, Stop, Working("new")), Leg(1, Target, Working("held"))];
    assert legs[0].id == 0 && legs[1].id == 1;
  }

  lemma {:induction false} BoundFillsFallShort(exits: seq<Exit>, bound: set<nat>)
    requires forall k :: 0 <= k < |exits| ==> exits[k].Valid()
    ensures BoundFilled(exits, bound) <= TotalFilled(exits)
    ensures BoundFilled(exits, bound) == TotalFilled(exits) <==>
            forall i :: 0 <= i < |exits| && exits[i].filled != 0.0 ==> i in bound
  {
    if exits != [] {
      var n := |exits| - 1;
      BoundFillsFallShort(exits[..n], bound);
      assert forall i :: 0 <= i < n ==> exits[..n][i] == exits[i];
    }
  }

  /** The re-arm size is the true position exactly when every exit that has filled is still bound. */
  lemma RearmSizeIsExactIffFillsAreBound(m: Market, bound: set<nat>)
    requires ValidMarket(m)
    ensures m.entryFill - BoundFilled(m.exits, bound) == Position(m) <==>
            forall i :: 0 <= i < |m.exits| && m.exits[i].filled != 0.0 ==> i in bound
    ensures m.entryFill - BoundFilled(m.exits, bound) >= Position(m)
  {
    BoundFillsFallShort(m.exits, bound);
  }

  /**
   * Why the broker must refuse to amend a partly filled stop: recording a successor drops the predecessor
   * from the legs, and its 30 filled shares are then missing from the size of a later re-arm.
   */
  lemma DroppedPartialFillOversizesRearm()
    ensures var exits := [Exit(100.0, 30.0, Replaced, Bracket), Exit(70.0, 0.0, Canceled, Bracket),
                          Exit(100.0, 0.0, Canceled, Bracket)];
            var m := Market(100.0, false, 100.0, exits);
            var legs := SuccessorLegs([Leg(2, Target, Canceled), Leg(0, Stop, Working("accepted"))], 0, 1);
            && NoReversal(m)
            && Position(m) == 70.0
            && m.entryFill - BoundFilled(exits, Bound(legs, None, map[])) == 100.0
  {
    hide TotalFilled, BracketFilled, SingleClaims, BoundFilled, LegIds, SuccessorLegs, BracketLive;
    var a, b, c := Exit(100.0, 30.0, Replaced, Bracket), Exit(70.0, 0.0, Canceled, Bracket),
                   Exit(100.0, 0.0, Canceled, Bracket);
    ThreeSums(a, b, c);
    NoneLive(a, b, c);
    var legs := [Leg(2, Target, Canceled), Leg(0, Stop, Working("accepted"))];
    SuccessorLegIds(legs, 0, 1);
    var bound := Bound(SuccessorLegs(legs, 0, 1), None, map[]);
    assert 0 !in bound;
    ThreeBound(a, b, c, bound);
  }

  lemma ThreeSums(a: Exit, b: Exit, c: Exit)
    requires a.group.Bracket? && b.group.Bracket? && c.group.Bracket?
    ensures TotalFilled([a, b, c]) == a.filled + b.filled + c.filled == BracketFilled([a, b, c])
    ensures SingleClaims([a, b, c]) == 0.0
  {
    assert [] + [a] == [a] && [a] + [b] == [a, b] && [a, b] + [c] == [a, b, c];
    AppendSums([], a);
    AppendSums([a], b);
    AppendSums([a, b], c);
  }

  lemma NoneLive(a: Exit, b: Exit, c: Exit)
    requires !a.Live() && !b.Live() && !c.Live()
    ensures !BracketLive([a, b, c])
  {
  }

  lemma ThreeBound(a: Exit, b: Exit, c: Exit, bound: set<nat>)
    requires 0 !in bound && b.filled == 0.0 && c.filled == 0.0
    ensures BoundFilled([a, b, c], bound) == 0.0
  {
    assert [a, b, c][..2] == [a, b] && [a, b][..1] == [a] && [a][..0] == [];
    assert BoundFilled([a], bound) == 0.0;
    assert BoundFilled([a, b], bound) == 0.0;
  }
}
