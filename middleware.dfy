/** The request gates and token helpers of the API (src/middlewares/auth.js):
    bearer-token extraction and verification, the role gate, the access-token
    payload, and the hex refresh token. Signing and verifying tokens and the
    random generator are parameters. */
module AuthMiddleware {
  import opened Wrappers

  /** The roles the API knows: `ADMIN`, `ANALYST` and `SUPPLIER`. */
  datatype Role = Admin | Analyst | SupplierRole

  /** A token payload: the user's id and role. */
  datatype Claims = Claims(sub: nat, role: Role)

  /** `res.status(status).json({ error })`. */
  datatype ErrorReply = ErrorReply(status: nat, error: string)

  const BearerPrefix := "Bearer "

  /** The token of an `Authorization` header (absent meaning ""): the text
      after `"Bearer "` when the header starts with it. */
  function BearerToken(authorization: Option<string>): (token: Option<string>)
    ensures var auth := authorization.GetOr("");
      token.Some? <==> |auth| >= 7 && auth[..7] == BearerPrefix
    ensures token.Some? ==> authorization.GetOr("") == BearerPrefix + token.value
  {
    var auth := authorization.GetOr("");
    if |auth| >= 7 && auth[..7] == BearerPrefix then Some(auth[7..]) else None
  }

  /** The header a client builds from a token gives that token back. */
  lemma BearerTokenRoundTrip(token: string)
    ensures BearerToken(Some(BearerPrefix + token)) == Some(token)
  {
    assert (BearerPrefix + token)[..7] == BearerPrefix;
    assert (BearerPrefix + token)[7..] == token;
  }

  datatype AuthDecision = MissingToken | InvalidToken | Authenticated(payload: Claims)

  /** What `requireAuth` decides, given `jwt.verify` as `verify` (None when it
      throws). */
  function AuthDecide(authorization: Option<string>, verify: string -> Option<Claims>): (d: AuthDecision)
    ensures d == MissingToken <==>
      BearerToken(authorization) == None || BearerToken(authorization) == Some("")
    ensures d == InvalidToken <==>
      BearerToken(authorization).Some? && BearerToken(authorization) != Some("") &&
      verify(BearerToken(authorization).value) == None
    ensures d.Authenticated? ==>
      BearerToken(authorization).Some? && verify(BearerToken(authorization).value) == Some(d.payload)
  {
    var token := BearerToken(authorization);
    if token == None || token == Some("") then MissingToken
    else
      match verify(token.value)
      case None => InvalidToken
      case Some(p) => Authenticated(p)
  }

  /** The parts of an Express request and response the gates touch. */
  class Request {
    var authorization: Option<string>
    var user: Option<Claims>
    var response: Option<ErrorReply>
    var nextCalls: nat

    constructor(authorization: Option<string>)
      ensures this.authorization == authorization
      ensures user == None && response == None && nextCalls == 0
    {
      this.authorization := authorization;
      user := None;
      response := None;
      nextCalls := 0;
    }
  }

  /** `requireAuth`: answers 401 without calling `next`, or sets `req.user`
      to the payload and calls `next` once. */
  method RequireAuth(req: Request, verify: string -> Option<Claims>)
    modifies req
    ensures req.authorization == old(req.authorization)
    ensures match AuthDecide(old(req.authorization), verify)
      case MissingToken =>
        && req.response == Some(ErrorReply(401, "Missing token"))
        && req.user == old(req.user) && req.nextCalls == old(req.nextCalls)
      case InvalidToken =>
        && req.response == Some(ErrorReply(401, "Invalid token"))
        && req.user == old(req.user) && req.nextCalls == old(req.nextCalls)
      case Authenticated(p) =>
        && req.user == Some(p) && req.nextCalls == old(req.nextCalls) + 1
        && req.response == old(req.response)
  {
    var auth := req.authorization.GetOr("");
    var token := if |auth| >= 7 && auth[..7] == BearerPrefix then Some(auth[7..]) else None;
    if token == None || token == Some("") {
      req.response := Some(ErrorReply(401, "Missing token"));
      return;
    }
    var payload := verify(token.value);
    if payload == None {
      req.response := Some(ErrorReply(401, "Invalid token"));
      return;
    }
    req.user := payload;
    req.nextCalls := req.nextCalls + 1;
  }

  datatype RoleDecision = Unauthorized | Forbidden | Pass

  /** What `requireRoles(...roles)` decides for the current `req.user`. */
  function RoleDecide(user: Option<Claims>, roles: seq<Role>): (d: RoleDecision)
    ensures d == Unauthorized <==> user == None
    ensures d == Forbidden <==> user.Some? && user.value.role !in roles
    ensures d == Pass <==> user.Some? && user.value.role in roles
  {
    match user
    case None => Unauthorized
    case Some(u) => if u.role in roles then Pass else Forbidden
  }

  /** `requireRoles(...roles)`: 401 without a user, 403 for a role outside
      the list, otherwise `next`. */
  method RequireRoles(roles: seq<Role>, req: Request)
    modifies req
    ensures req.authorization == old(req.authorization) && req.user == old(req.user)
    ensures match RoleDecide(old(req.user), roles)
      case Unauthorized =>
        req.response == Some(ErrorReply(401, "Unauthorized")) && req.nextCalls == old(req.nextCalls)
      case Forbidden =>
        req.response == Some(ErrorReply(403, "Forbidden")) && req.nextCalls == old(req.nextCalls)
      case Pass =>
        req.response == old(req.response) && req.nextCalls == old(req.nextCalls) + 1
  {
    if req.user == None {
      req.response := Some(ErrorReply(401, "Unauthorized"));
      return;
    }
    if req.user.value.role !in roles {
      req.response := Some(ErrorReply(403, "Forbidden"));
      return;
    }
    req.nextCalls := req.nextCalls + 1;
  }

  /** After `requireAuth` let a request through, the role gate can only
      answer 403 or pass it on: 401 comes from the role gate only when no
      authentication ran before it. */
  lemma AuthenticatedIsNeverUnauthorized(authorization: Option<string>, verify: string -> Option<Claims>, roles: seq<Role>)
    requires AuthDecide(authorization, verify).Authenticated?
    ensures RoleDecide(Some(AuthDecide(authorization, verify).payload), roles) != Unauthorized
    ensures RoleDecide(Some(AuthDecide(authorization, verify).payload), roles) == Pass <==>
      verify(BearerToken(authorization).value).value.role in roles
  {
  }

  // ---------------------------------------------------------------------
  // cryptoRandom
  // ---------------------------------------------------------------------

  newtype byte = x: int | 0 <= x < 256

  const HexDigits: string := "0123456789abcdef"

  predicate IsLowerHex(c: char) { '0' <= c <= '9' || 'a' <= c <= 'f' }

  /** `Buffer.toString('hex')`: two lower-case hex digits per byte, high
      nibble first. */
  function HexEncode(bytes: seq<byte>): (s: string)
    ensures |s| == 2 * |bytes|
    ensures forall i :: 0 <= i < |s| ==> IsLowerHex(s[i])
  {
    if bytes == [] then ""
    else [HexDigits[bytes[0] as int / 16], HexDigits[bytes[0] as int % 16]] + HexEncode(bytes[1..])
  }

  /** The value of one lower-case hex digit. */
  function HexValue(c: char): (v: nat)
    requires IsLowerHex(c)
    ensures v < 16 && HexDigits[v] == c
  {
    if c <= '9' then c as int - '0' as int else c as int - 'a' as int + 10
  }

  /** Reads back what HexEncode wrote. */
  function HexDecode(s: string): (bytes: seq<byte>)
    requires |s| % 2 == 0
    requires forall i :: 0 <= i < |s| ==> IsLowerHex(s[i])
    ensures |bytes| * 2 == |s|
  {
    if s == [] then []
    else [(16 * HexValue(s[0]) + HexValue(s[1])) as byte] + HexDecode(s[2..])
  }

  lemma HexDigitValue(v: nat)
    requires v < 16
    ensures HexValue(HexDigits[v]) == v
  {
  }

  /** Decoding the hex text gives back the bytes. */
  lemma {:induction false} HexRoundTrip(bytes: seq<byte>)
    ensures HexDecode(HexEncode(bytes)) == bytes
  {
    if bytes != [] {
      var b := bytes[0] as int;
      var s := HexEncode(bytes);
      HexDigitValue(b / 16);
      HexDigitValue(b % 16);
      assert s[2..] == HexEncode(bytes[1..]);
      HexRoundTrip(bytes[1..]);
    }
  }

  /** `cryptoRandom(len)`, given the `len` bytes `crypto.randomBytes` drew. */
  function CryptoRandom(randomBytes: seq<byte>): (token: string)
    ensures |token| == 2 * |randomBytes|
    ensures forall i :: 0 <= i < |token| ==> IsLowerHex(token[i])
    ensures HexDecode(token) == randomBytes
  {
    var token := HexEncode(randomBytes);
    assert HexDecode(token) == randomBytes by {
      HexRoundTrip(randomBytes);
    }
    token
  }

  /** Different draws give different tokens. */
  lemma CryptoRandomInjective(a: seq<byte>, b: seq<byte>)
    requires CryptoRandom(a) == CryptoRandom(b)
    ensures a == b
  {
  }
}
