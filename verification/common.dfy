/**
 * Shared vocabulary of the impound backend model: optional values, HTTP
 * status codes used by the controllers, decoded JSON values and a few
 * sequence helpers.
 */
module Common {

  /** A value that may be absent (PHP `null`, a missing request key). */
  datatype Option<+T> = None | Some(value: T) {
    function GetOr(default: T): T {
      match this
      case Some(v) => v
      case None => default
    }
  }

  /** HTTP status codes returned by the controllers and the exception handler. */
  const StatusOk: nat := 200
  const StatusCreated: nat := 201
  const StatusNoContent: nat := 204
  const StatusBadRequest: nat := 400
  const StatusUnauthorized: nat := 401
  const StatusForbidden: nat := 403
  const StatusNotFound: nat := 404
  const StatusUnprocessable: nat := 422
  const StatusServerError: nat := 500

  /** A decoded JSON value, as `json_decode(..., true)` or a request body yields it. */
  datatype Json =
    | JNull
    | JBool(b: bool)
    | JInt(n: int)
    | JText(s: string)
    | JList(items: seq<Json>)
    | JObject(fields: map<string, Json>)

  /** Sum of a sequence of amounts. */
  function Sum(xs: seq<int>): int {
    if |xs| == 0 then 0 else xs[0] + Sum(xs[1..])
  }

  lemma {:induction false} SumAppend(a: seq<int>, b: seq<int>)
    ensures Sum(a + b) == Sum(a) + Sum(b)
  {
    if |a| == 0 {
      assert a + b == b;
    } else {
      assert (a + b)[1..] == a[1..] + b;
      SumAppend(a[1..], b);
    }
  }

  lemma {:induction false} SumNonNegative(xs: seq<int>)
    requires forall i :: 0 <= i < |xs| ==> xs[i] >= 0
    ensures Sum(xs) >= 0
  {
    if |xs| > 0 {
      SumNonNegative(xs[1..]);
    }
  }

  /** The first `k` elements of `s`, or all of `s` when it is shorter (Laravel's `take`). */
  function Take<T>(s: seq<T>, k: nat): (r: seq<T>)
    ensures |r| == if |s| < k then |s| else k
    ensures r <= s
  {
    if |s| <= k then s else s[..k]
  }

  function Max0(x: int): (r: nat)
    ensures r >= x
  {
    if x > 0 then x else 0
  }

  function Min(a: int, b: int): int {
    if a <= b then a else b
  }
}
