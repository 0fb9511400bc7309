/**
 * Idempotent submission: one client order id stands for one broker order, across retries, lost responses and
 * restarts of the process.
 */
module Submission {
  import opened Basics

  datatype Side = Buy | Sell

  datatype Kind = Market | Limit | Stop

  datatype OrderClass = Simple | Bracket

  /** What an order asks for. */
  datatype Terms = Terms(symbol: string, qty: real, side: Side, kind: Kind, timeInForce: string, limit: Option<real>,
                         stop: Option<real>, extended: bool, intent: Option<string>, orderClass: Option<OrderClass>,
                         takeProfit: Option<real>, stopLoss: Option<real>)
  {
    /** What the request type itself enforces. */
    predicate WellFormed() {
      && qty > 0.0
      && (kind == Limit ==> limit.Some?)
      && (kind == Stop ==> stop.Some? && limit.None? && orderClass != Some(Bracket))
      && (kind != Stop ==> stop.None?)
      && (orderClass == Some(Bracket) <==> takeProfit.Some? || stopLoss.Some?)
      && (orderClass == Some(Bracket) ==> takeProfit.Some? && stopLoss.Some?)
    }

    /** The terms with an absent class written out. */
    function Plain(): Terms { this.(orderClass := Some(orderClass.GetOr(Simple))) }
  }

  datatype Request = Request(clientId: Option<nat>, terms: Terms)

  /** An order the broker holds; its terms echo the request. */
  datatype Order = Order(clientId: nat, terms: Terms)

  datatype Found = Hit(order: Order) | Missing | Unreadable

  datatype Answer = Accepted(order: Order) | Unanswered

  predicate Holds(orders: seq<Order>, id: nat) { exists i :: 0 <= i < |orders| && orders[i].clientId == id }

  predicate OnePerId(orders: seq<Order>) {
    forall i, j :: 0 <= i < j < |orders| ==> orders[i].clientId != orders[j].clientId
  }

  class Broker {
    var orders: seq<Order>
    ghost var lookups: seq<Found>       // every answer to a lookup
    ghost var answers: seq<Answer>      // every answer to a submission

    constructor ()
      ensures orders == [] && lookups == [] && answers == []
    {
      orders, lookups, answers := [], [], [];
    }

    /**
     * A lookup by client order id. It sees every order already accepted; it may fail, and some clients ignore
     * the id and return an unrelated order.
     */
    method Lookup(id: nat) returns (found: Found)
      modifies this`lookups
      ensures lookups == old(lookups) + [found]
      ensures found.Missing? ==> !Holds(orders, id)
      ensures found.Hit? ==> found.order in orders
    {
      var k := 0;
      while k < |orders|
        invariant 0 <= k <= |orders|
        invariant forall i :: 0 <= i < k ==> orders[i].clientId != id
      {
        var ignoresId: bool := *;
        if orders[k].clientId == id || ignoresId {
          found := Hit(orders[k]);
          lookups := lookups + [found];
          return;
        }
        k := k + 1;
      }
      found := Missing;
      if * {
        found := Unreadable;
      }
      lookups := lookups + [found];
    }

    /** A submission is refused, or accepted with its response possibly lost. */
    method Submit(id: nat, terms: Terms) returns (answer: Answer)
      modifies this`orders, this`answers
      ensures answers == old(answers) + [answer]
      ensures (orders == old(orders) && answer.Unanswered?) ||
              (&& orders == old(orders) + [Order(id, terms.Plain())]
               && (answer.Accepted? ==> answer.order == Order(id, terms.Plain())))
    {
      answer := Unanswered;
      if * {
        var order := Order(id, terms.Plain());
        orders := orders + [order];
        if * {
          answer := Accepted(order);
        }
      }
      answers := answers + [answer];
    }
  }

  datatype Result = Ok(order: Order) | Conflict | Failure

  // ---- Verifying an idempotency hit

  /** What the program compares, field by field. */
  predicate Verifies(request: Terms, existing: Terms) {
    && existing.symbol == request.symbol && existing.qty == request.qty
    && existing.side == request.side && existing.kind == request.kind
    && existing.timeInForce == request.timeInForce
    && (if request.limit.None? then !(existing.kind == Limit && existing.limit.Some?)
        else existing.limit == request.limit)
    && (request.kind == Stop ==> existing.stop.Some? && existing.stop == request.stop)
    && request.orderClass.GetOr(Simple) == existing.orderClass.GetOr(Simple)
    && request.intent == existing.intent
  }

  /** What a caller may rely on about a returned order. */
  predicate Matches(request: Terms, existing: Terms) {
    && existing.symbol == request.symbol && existing.qty == request.qty && existing.side == request.side
    && existing.kind == request.kind && existing.timeInForce == request.timeInForce
    && (request.kind != Market || request.limit.Some? ==> existing.limit == request.limit)
    && existing.stop == request.stop
    && existing.orderClass.GetOr(Simple) == request.orderClass.GetOr(Simple)
    && existing.intent == request.intent
  }

  /** For orders that echo a request, verification is exactly agreement on the fields a caller may rely on. */
  lemma VerificationIsAgreement(request: Terms, earlier: Terms)
    requires request.WellFormed() && earlier.WellFormed()
    ensures Verifies(request, earlier.Plain()) <==> Matches(request, earlier.Plain())
  {
  }

  /**
   * An order that passes verification is the very order requested exactly when its protective prices, its
   * extended-hours flag and a market order's unused limit also agree: none of these is compared.
   */
  lemma VerifiedIsIdenticalIff(request: Terms, earlier: Terms)
    requires request.WellFormed() && earlier.WellFormed() && Verifies(request, earlier.Plain())
    ensures request.Plain() == earlier.Plain() <==>
            (&& request.takeProfit == earlier.takeProfit
             && request.stopLoss == earlier.stopLoss
             && request.extended == earlier.extended
             && (request.kind == Market && request.limit.None? ==> earlier.limit.None?))
  {
  }

  /** After a restart a bracket with another stop is answered with the old bracket. */
  lemma ChangedStopPassesVerification(request: Terms, stopLoss: real)
    requires request.WellFormed() && request.orderClass == Some(Bracket) && request.stopLoss != Some(stopLoss)
    ensures var changed := request.(stopLoss := Some(stopLoss));
            changed.WellFormed() && Verifies(changed, request.Plain()) && changed.Plain() != request.Plain()
  {
  }

  lemma EchoVerifies(terms: Terms)
    requires terms.WellFormed()
    ensures Verifies(terms, terms.Plain())
  {
  }

  lemma OneMoreOrder(orders: seq<Order>, order: Order)
    requires OnePerId(orders) && !Holds(orders, order.clientId)
    ensures OnePerId(orders + [order])
  {
  }

  // ---- The provider

  class Provider {
    // volatile
    var seen: map<nat, Request>
    var submitted: map<nat, Order>

    constructor ()
      ensures seen == map[] && submitted == map[]
    {
      seen, submitted := map[], map[];
    }

    /** A cached answer is a broker order that matches the request seen for its id. */
    ghost predicate Valid(broker: Broker)
      reads this, broker
    {
      && OnePerId(broker.orders)
      && (forall id :: id in seen ==> seen[id].clientId == Some(id) && seen[id].terms.WellFormed())
      && (forall id :: id in submitted ==>
            (&& id in seen
             && submitted[id] in broker.orders
             && submitted[id].clientId == id
             && Verifies(seen[id].terms, submitted[id].terms)))
    }

    /** The exact lookup, refusing an order that carries another id. */
    method Orders(broker: Broker, id: nat) returns (found: Found, conflict: bool)
      modifies broker`lookups
      ensures broker.lookups == old(broker.lookups) + [found]
      ensures conflict <==> found.Hit? && found.order.clientId != id
      ensures found.Missing? ==> !Holds(broker.orders, id)
      ensures found.Hit? && !conflict ==> found.order in broker.orders && found.order.clientId == id
    {
      found := broker.Lookup(id);
      conflict := found.Hit? && found.order.clientId != id;
    }

    /** The broker was not asked for anything. */
    twostate predicate Untouched(broker: Broker)
      reads broker
    {
      && broker.orders == old(broker.orders)
      && broker.lookups == old(broker.lookups)
      && broker.answers == old(broker.answers)
    }

    /**
     * The broker was asked for the id once. A missing order was submitted, once, and the answer is the broker's;
     * an order found is the answer if it carries the id and verifies, and a conflict if not.
     */
    twostate predicate Asked(broker: Broker, id: nat, terms: Terms, result: Result)
      reads broker
    {
      && |broker.lookups| == |old(broker.lookups)| + 1
      && var found := broker.lookups[|old(broker.lookups)|];
         (&& broker.lookups == old(broker.lookups) + [found]
          && (found.Missing? ==> Sent(broker, result))
          && (!found.Missing? ==> broker.orders == old(broker.orders) && broker.answers == old(broker.answers))
          && (found.Unreadable? ==> result.Failure?)
          && (found.Hit? ==>
                result == if found.order.clientId == id && Verifies(terms, found.order.terms) then Ok(found.order)
                          else Conflict))
    }

    twostate predicate Sent(broker: Broker, result: Result)
      reads broker
    {
      && |broker.answers| == |old(broker.answers)| + 1
      && var answer := broker.answers[|old(broker.answers)|];
         (&& broker.answers == old(broker.answers) + [answer]
          && result == if answer.Accepted? then Ok(answer.order) else Failure)
    }

    /**
     * Submits a request, or finds the order an earlier attempt left. `generated` is the id given to a request
     * without one.
     */
    method SubmitOrder(broker: Broker, wanted: Request, generated: nat) returns (id: nat, result: Result)
      requires Valid(broker) && wanted.terms.WellFormed()
      modifies this, broker
      ensures Valid(broker)
      ensures id == wanted.clientId.GetOr(generated)
      ensures broker.orders == old(broker.orders) ||
              (&& !Holds(old(broker.orders), id)
               && broker.orders == old(broker.orders) + [Order(id, wanted.terms.Plain())])
      ensures result.Ok? ==>
                (&& result.order in broker.orders
                 && result.order.clientId == id
                 && Verifies(wanted.terms, result.order.terms))
      ensures wanted.terms.timeInForce != "day" ==> result.Failure? && Untouched(broker)
      ensures wanted.terms.timeInForce == "day" && id in old(seen) && old(seen)[id] != wanted.(clientId := Some(id)) ==>
                result.Conflict? && Untouched(broker)
      ensures wanted.terms.timeInForce == "day" && id in old(submitted) &&
              old(seen)[id] == wanted.(clientId := Some(id)) ==>
                result == Ok(old(submitted)[id]) && Untouched(broker)
      ensures wanted.terms.timeInForce == "day" && id !in old(submitted) &&
              (id in old(seen) ==> old(seen)[id] == wanted.(clientId := Some(id))) ==>
                Asked(broker, id, wanted.terms, result)
      ensures result.Ok? ==> id in seen && seen[id] == wanted.(clientId := Some(id))
      ensures result.Ok? ==> id in submitted && submitted[id] == result.order
    {
      hide Verifies, OnePerId, Holds, Terms.WellFormed, Terms.Plain;
      id := wanted.clientId.GetOr(generated);
      if wanted.terms.timeInForce != "day" {
        return id, Failure;
      }
      var request := wanted.(clientId := Some(id));
      if id in seen && seen[id] != request {
        return id, Conflict;
      }
      if id in submitted {
        return id, Ok(submitted[id]);
      }
      seen := seen[id := request];
      var found, unrelated := Orders(broker, id);
      if unrelated {
        return id, Conflict;
      }
      match found
      case Unreadable =>
        result := Failure;
      case Hit(existing) =>
        if !Verifies(request.terms, existing.terms) {
          return id, Conflict;
        }
        submitted := submitted[id := existing];
        result := Ok(existing);
      case Missing =>
        EchoVerifies(request.terms);
        OneMoreOrder(broker.orders, Order(id, request.terms.Plain()));
        var answer := broker.Submit(id, request.terms);
        if answer.Unanswered? {
          return id, Failure;
        }
        submitted := submitted[id := answer.order];
        result := Ok(answer.order);
    }

    /** A restart forgets both caches. */
    method Restart(broker: Broker)
      requires Valid(broker)
      modifies this
      ensures Valid(broker) && seen == map[] && submitted == map[]
    {
      seen, submitted := map[], map[];
    }

    /** Any run of submissions and restarts leaves at most one broker order per client order id. */
    method Run(broker: Broker, requests: seq<Request>, generated: nat)
      requires Valid(broker) && forall i :: 0 <= i < |requests| ==> requests[i].terms.WellFormed()
      modifies this, broker
      ensures OnePerId(broker.orders)
      ensures |broker.orders| >= |old(broker.orders)| && broker.orders[..|old(broker.orders)|] == old(broker.orders)
    {
      var k := 0;
      while k < |requests|
        invariant 0 <= k <= |requests|
        invariant Valid(broker)
        invariant |broker.orders| >= |old(broker.orders)| && broker.orders[..|old(broker.orders)|] == old(broker.orders)
      {
        if * {
          Restart(broker);
        }
        var _, _ := SubmitOrder(broker, requests[k], generated);
        k := k + 1;
      }
    }
  }
}
