/**
 * Values shared by every handler: optional values, request-body fields as the
 * schema validator sees them, reply statuses and the "first row" query.
 */
module Common {

  datatype Option<T> = None | Some(value: T)

  /** One field of a request body: not supplied at all, supplied but of the wrong
      type (or not coercible, for a date), or supplied with a usable value. */
  datatype Field<T> = Absent | Malformed | Given(value: T)

  /** The HTTP statuses the handlers answer with. `InternalError` stands for an
      exception that escapes a handler, such as a violated table constraint. */
  datatype Status = Ok | Created | NoContent | BadRequest | Unauthorized | NotFound | InternalError
  {
    function Code(): int {
      match this
      case Ok => 200
      case Created => 201
      case NoContent => 204
      case BadRequest => 400
      case Unauthorized => 401
      case NotFound => 404
      case InternalError => 500
    }
  }

  /** A reply: its status, the `message` of an error body ("" when there is none),
      and the success payload, if any. */
  datatype Reply<T> = Reply(status: Status, message: string, body: Option<T>)

  const UnauthorizedMessage := "unauthorized"
  const InvalidBodyMessage := "invalid body"

  /** The first element of `s` that satisfies `p`, as a query's `.first()` returns
      the first matching row in table order. */
  function First<T>(s: seq<T>, p: T -> bool): (r: Option<T>)
    ensures r.None? <==> forall k :: 0 <= k < |s| ==> !p(s[k])
    ensures r.Some? ==> exists k :: 0 <= k < |s| && s[k] == r.value && p(s[k])
                                   && forall j :: 0 <= j < k ==> !p(s[j])
    decreases |s|
  {
    if |s| == 0 then None
    else if p(s[0]) then Some(s[0])
    else
      var r := First(s[1..], p);
      assert r.Some? ==> exists k :: 1 <= k < |s| && s[k] == r.value && p(s[k])
                                     && forall j :: 0 <= j < k ==> !p(s[j]) by {
        if r.Some? {
          var k :| 0 <= k < |s| - 1 && s[1..][k] == r.value && p(s[1..][k])
                   && forall j :: 0 <= j < k ==> !p(s[1..][j]);
          assert s[k + 1] == r.value && p(s[k + 1]);
          forall j | 0 <= j < k + 1 ensures !p(s[j]) {
            if j > 0 { assert s[j] == s[1..][j - 1]; }
          }
        }
      }
      r
  }
}
