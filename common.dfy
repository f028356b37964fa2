/** Identifiers, optional request fields and the error outcomes shared by every controller. */
module Common {

  /** Database identifiers are opaque; two ids are compared only for equality. */
  type ProductId = string
  type UserId = string
  type ClerkId = string
  type OrderId = string
  type ReviewId = string
  type AddressId = string

  /** Milliseconds since the epoch, as `new Date()` would give them. */
  type Time = nat

  /** The authenticated principal the identity middleware attaches to a request. */
  datatype Principal = Principal(userId: UserId, clerkId: ClerkId)

  /** A request field that may be absent (`undefined`). */
  datatype Option<T> = None | Some(value: T)

  /** The failures a handler answers with, in place of HTTP status codes:
      400 BadRequest, 403 Forbidden, 404 NotFound, 500 Internal. */
  datatype Error =
    | BadRequest(msg: string)
    | Forbidden(msg: string)
    | NotFound(msg: string)
    | Internal

  datatype Result<T> = Ok(value: T) | Err(error: Error)

  /** JavaScript truthiness of an optional string field: absent and "" are falsy. */
  predicate Truthy(s: Option<string>)
  {
    s.Some? && s.value != ""
  }

  /** `field || fallback` for a string field. */
  function OrElse(s: Option<string>, fallback: string): (r: string)
    ensures Truthy(s) ==> r == s.value
    ensures !Truthy(s) ==> r == fallback
  {
    if Truthy(s) then s.value else fallback
  }

  /** Sum of a sequence of reals, from the left as `reduce` and `$sum` compute it. */
  function Sum(xs: seq<real>): real
  {
    if xs == [] then 0.0 else Sum(xs[..|xs| - 1]) + xs[|xs| - 1]
  }

  lemma {:induction false} SumAppend(xs: seq<real>, ys: seq<real>)
    ensures Sum(xs + ys) == Sum(xs) + Sum(ys)
    decreases |ys|
  {
    if ys == [] {
      assert xs + ys == xs;
    } else {
      assert (xs + ys)[..|xs + ys| - 1] == xs + ys[..|ys| - 1];
      SumAppend(xs, ys[..|ys| - 1]);
    }
  }

  lemma {:induction false} SumBounds(xs: seq<real>, lo: real, hi: real)
    requires forall i :: 0 <= i < |xs| ==> lo <= xs[i] <= hi
    ensures lo * (|xs| as real) <= Sum(xs) <= hi * (|xs| as real)
    decreases |xs|
  {
    if xs != [] {
      SumBounds(xs[..|xs| - 1], lo, hi);
    }
  }
}
