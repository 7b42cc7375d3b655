/**
 * Values shared by every part of the visitor-management backend: optional
 * values, HTTP replies, the claims carried by a bearer token, the injected
 * password-hashing and token-signing capabilities, and the first-match
 * lookup that a document query `findOne` performs.
 */
module Common {

  datatype Option<T> = None | Some(value: T)

  /** Document identifiers (MongoDB ObjectIds) are opaque; a natural number stands for one. */
  type Id = nat

  /** A point in time (`new Date()`), as milliseconds since the epoch. */
  type Time = int

  /**
   * An HTTP reply: the status code together with either the JSON payload of a
   * success or the message of an error body.
   */
  datatype Reply<T> = Success(code: nat, value: T) | Failure(code: nat, message: string)

  /** The payload of a signed bearer token: `{ id, name, email }`, each of which may be missing. */
  datatype Claims = Claims(id: Option<Id>, name: Option<string>, email: Option<string>)

  /**
   * The cryptographic capabilities the handlers call and whose internals are
   * not modelled: `bcrypt.hash` (with its random salt passed in), `bcrypt.compare`,
   * `jwt.sign` and `jwt.verify` (None when verification throws). The signing
   * secret is part of `sign` and `verify`.
   */
  datatype Crypto = Crypto(
    hash: (string, nat) -> string,
    compare: (string, string) -> bool,
    sign: Claims -> string,
    verify: string -> Option<Claims>)

  /**
   * The index of the first element of `s` that satisfies `p`, as the document
   * store's `findOne(filter)` returns the first matching document in natural order.
   */
  function FindFirst<T>(s: seq<T>, p: T -> bool): (r: Option<nat>)
    ensures r.Some? ==> r.value < |s| && p(s[r.value])
    ensures r.Some? ==> forall j :: 0 <= j < r.value ==> !p(s[j])
    ensures r.None? <==> forall j :: 0 <= j < |s| ==> !p(s[j])
  {
    if s == [] then None
    else if p(s[0]) then Some(0)
    else match FindFirst(s[1..], p)
      case None => None
      case Some(k) => Some(k + 1)
  }
}
