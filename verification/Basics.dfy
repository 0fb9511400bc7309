/** Values and order statuses shared by every component. */
module Basics {

  datatype Option<+T> = None | Some(value: T)
  {
    function GetOr(default: T): T {
      match this
      case Some(v) => v
      case None => default
    }
  }

  /** The tolerance the program writes as 1e-9. */
  const EPSILON: real := 0.000000001

  function Min(a: real, b: real): real { if a <= b then a else b }

  function Max(a: real, b: real): real { if a >= b then a else b }

  function Abs(a: real): real { if a < 0.0 then -a else a }

  /** `xs` with one more element at position `k`. */
  function Inserted<T(==)>(xs: seq<T>, x: T, k: nat): (r: seq<T>)
    requires k <= |xs|
    ensures |r| == |xs| + 1 && r[k] == x
    ensures forall i :: 0 <= i < k ==> r[i] == xs[i]
    ensures forall i :: k < i <= |xs| ==> r[i] == xs[i - 1]
    ensures multiset(r) == multiset(xs + [x])
  {
    assert xs == xs[..k] + xs[k..];
    xs[..k] + [x] + xs[k..]
  }

  function Times(a: real, b: real): real { a * b }

  lemma Positive(a: real, b: real)
    requires a > 0.0 && b > 0.0
    ensures Times(a, b) > 0.0
  {
  }

  lemma NonNegative(a: real, b: real)
    requires a >= 0.0 && b >= 0.0
    ensures a * b >= 0.0
  {
  }

  /** A broker order status. `Working` stands for every spelling the program does not name. */
  datatype Status =
    | Working(name: string)
    | PartiallyFilled | Filled
    | Canceled | Cancelled | Expired | Rejected | Replaced | Stopped | Suspended | Failed | NotFound
    | Done | Closed | DoneForDay
  {
    /** Reports fill evidence. */
    predicate IsFill() { this == Filled || this == PartiallyFilled }

    /** Final in a local order row. */
    predicate IsTerminal() {
      !Working? && !PartiallyFilled? && !Done? && !Closed? && !DoneForDay?
    }

    /** Final on the broker's order endpoint, which also uses three other spellings. */
    predicate IsFinal() { IsTerminal() || Done? || Closed? || DoneForDay? }
  }
}
