/**
 * Values shared by every part of the model: optional values (the JavaScript
 * `undefined`/`null` cases), the HTTP statuses the routes answer with, and the
 * JavaScript notion of a "falsy" string or number, which the source tests with
 * `!x` and `x || default` throughout.
 */
module Base {

  /** A value that may be missing: JavaScript `null`/`undefined` are `None`. */
  datatype Option<+T> = None | Some(value: T) {

    /** The value, or `default` when it is missing. */
    function GetOr(default: T): T {
      match this
      case Some(v) => v
      case None => default
    }
  }

  /** The HTTP statuses the server routes and the gate answer with. */
  datatype Status =
    | Ok200
    | Created201
    | BadRequest400
    | Unauthorized401
    | Forbidden403
    | NotFound404
    | Conflict409
    | ServerError500
  {
    /** The numeric status code sent on the wire. */
    function Code(): int {
      match this
      case Ok200 => 200
      case Created201 => 201
      case BadRequest400 => 400
      case Unauthorized401 => 401
      case Forbidden403 => 403
      case NotFound404 => 404
      case Conflict409 => 409
      case ServerError500 => 500
    }

    /** A 2xx answer. */
    predicate IsSuccess() {
      Ok200? || Created201?
    }
  }

  /** JavaScript truthiness of an optional string: missing and `""` are falsy. */
  predicate Truthy(s: Option<string>) {
    s.Some? && s.value != ""
  }

  /** JavaScript truthiness of an optional number: missing and `0` are falsy. */
  predicate TruthyNum(n: Option<int>) {
    n.Some? && n.value != 0
  }

  /** `s || fallback` on an optional string. */
  function OrElse(s: Option<string>, fallback: string): (r: string)
    ensures Truthy(s) ==> r == s.value
    ensures !Truthy(s) ==> r == fallback
  {
    if Truthy(s) then s.value else fallback
  }

  /** `n || 0` on an optional number. */
  function OrZero(n: Option<int>): (r: int)
    ensures TruthyNum(n) ==> r == n.value
    ensures !TruthyNum(n) ==> r == 0
  {
    if TruthyNum(n) then n.value else 0
  }
}
