/**
 * Credentials: the password hash and the signed token, kept opaque, and the token
 * check every meal and metrics handler performs before touching a table.
 */
module Auth {
  import opened Common
  import opened Schema

  type Token = string
  type Salt = string

  /** The foreign capabilities the handlers use, as uninterpreted functions:
      `hash` (with the random salt it draws made explicit) and `compare` are the
      password hash and its check; `sign` makes a token whose payload is `{ id }`;
      `decode` reads a token's payload WITHOUT checking its signature or expiry,
      giving no id for a token it cannot read. */
  datatype Crypto = Crypto(
    hash: (string, Salt) -> Digest,
    compare: (string, Digest) -> bool,
    sign: UserId -> Token,
    decode: Token -> Option<UserId>)

  /** The identity a request carries: none when the `token` cookie is missing or
      empty, or when it decodes to nothing; otherwise the decoded id. */
  function Authenticate(cookie: Option<Token>, decode: Token -> Option<UserId>): (r: Option<UserId>)
    ensures r.Some? <==> cookie.Some? && cookie.value != "" && decode(cookie.value).Some?
    ensures r.Some? ==> r == decode(cookie.value)
  {
    if cookie.None? || cookie.value == "" then None
    else decode(cookie.value)
  }

  /** The reply every guarded handler gives a request without a usable identity. */
  function UnauthorizedReply<T>(): (r: Reply<T>)
    ensures r.status.Code() == 401 && r.body.None?
  {
    Reply(Unauthorized, UnauthorizedMessage, None)
  }
}
