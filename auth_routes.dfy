/** The authentication routes of the API (src/routes/auth.js) over a store
    of users, suppliers, sessions and password resets. The store's tables are
    sequences; a record's id is its position, since the routes only ever add
    records. The current time, the hashing (`argon2`), token signing and the
    random generator are parameters; so is the e-mail test of the request
    schemas. */
module AuthRoutes {
  import opened Wrappers
  import opened AuthMiddleware

  datatype User = User(id: nat, name: string, email: string, passwordHash: string, role: Role, supplierId: Option<nat>)

  datatype Supplier = Supplier(
    id: nat, fantasyName: string, legalName: string, documentId: string,
    email: string, phone: Option<string>, address: Option<string>)

  datatype Session = Session(
    id: nat, userId: nat, refreshToken: string, createdAt: int, revokedAt: Option<int>,
    ip: string, userAgent: string)

  datatype PasswordReset = PasswordReset(
    id: nat, userId: nat, tokenHash: string, expiresAt: int, usedAt: Option<int>, createdAt: int)

  /** The JSON answers of the routes. `BadRequest` is the 400 carrying the
      message of an error thrown by the schema or the store. */
  datatype Reply =
    | TokensReply(accessToken: string, refreshToken: string)
    | AccessReply(accessToken: string)
    | OkReply
    | Failure(status: nat, error: string)
    | BadRequest

  datatype Tokens = Tokens(accessToken: string, refreshToken: string)

  /** What `jwt.sign` produces for a payload. */
  type Signer = Claims -> string

  /** `argon2.verify(hash, plain)`. */
  type HashVerifier = (string, string) -> bool

  /** zod's `.email()` test. */
  type EmailTest = string -> bool

  // ---------------------------------------------------------------------
  // Lookups
  // ---------------------------------------------------------------------

  /** `findUnique` on a unique column: the position of the row that matches,
      searched from the newest row down. */
  function LastMatch<T>(rows: seq<T>, matches: T -> bool): (i: Option<nat>)
    ensures i.Some? ==> i.value < |rows| && matches(rows[i.value])
    ensures i.None? ==> forall j :: 0 <= j < |rows| ==> !matches(rows[j])
  {
    if rows == [] then None
    else if matches(rows[|rows| - 1]) then Some(|rows| - 1)
    else LastMatch(rows[..|rows| - 1], matches)
  }

  /** `user.findUnique({ where: { email } })`. */
  function UserByEmail(users: seq<User>, email: string): (i: Option<nat>)
    ensures i.Some? ==> i.value < |users| && users[i.value].email == email
    ensures i.None? ==> forall j :: 0 <= j < |users| ==> users[j].email != email
  {
    LastMatch(users, (u: User) => u.email == email)
  }

  /** `user.findUnique({ where: { id } })`. */
  function UserById(users: seq<User>, id: nat): (i: Option<nat>)
    ensures i.Some? ==> i.value < |users| && users[i.value].id == id
    ensures i.None? ==> forall j :: 0 <= j < |users| ==> users[j].id != id
  {
    LastMatch(users, (u: User) => u.id == id)
  }

  /** `session.findUnique({ where: { refreshToken } })`. */
  function SessionByToken(sessions: seq<Session>, token: string): (i: Option<nat>)
    ensures i.Some? ==> i.value < |sessions| && sessions[i.value].refreshToken == token
    ensures i.None? ==> forall j :: 0 <= j < |sessions| ==> sessions[j].refreshToken != token
  {
    LastMatch(sessions, (s: Session) => s.refreshToken == token)
  }

  /** A reset record the user can still redeem at `now`: unused and not yet
      expired (`expiresAt > now`). */
  predicate Usable(r: PasswordReset, userId: nat, now: int)
  {
    r.userId == userId && r.usedAt == None && r.expiresAt > now
  }

  /** `passwordReset.findFirst` over the usable records of the user, newest
      `createdAt` first; between records created at the same instant the
      later one is taken. */
  function NewestUsableReset(resets: seq<PasswordReset>, userId: nat, now: int): (i: Option<nat>)
    ensures i.Some? ==> i.value < |resets| && Usable(resets[i.value], userId, now)
    ensures i.Some? ==> forall j :: 0 <= j < |resets| && Usable(resets[j], userId, now) ==>
      resets[j].createdAt <= resets[i.value].createdAt
    ensures i.None? ==> forall j :: 0 <= j < |resets| ==> !Usable(resets[j], userId, now)
  {
    if resets == [] then None
    else
      var front, x := resets[..|resets| - 1], resets[|resets| - 1];
      var p := NewestUsableReset(front, userId, now);
      assert forall j :: 0 <= j < |front| ==> resets[j] == front[j];
      if Usable(x, userId, now) && (p.None? || front[p.value].createdAt <= x.createdAt) then
        Some(|resets| - 1)
      else p
  }

  // ---------------------------------------------------------------------
  // Store updates
  // ---------------------------------------------------------------------

  /** The sessions an `updateMany` of the logout and reset routes targets,
      besides `revokedAt: null`. */
  datatype Selector = AllOf(userId: nat) | TokenOf(userId: nat, token: string)

  predicate Selects(sel: Selector, s: Session)
  {
    s.userId == sel.userId && (sel.TokenOf? ==> s.refreshToken == sel.token)
  }

  /** `session.updateMany({ where: { ..sel, revokedAt: null }, data: { revokedAt: now } })`. */
  function Revoke(sessions: seq<Session>, sel: Selector, now: int): (r: seq<Session>)
    ensures |r| == |sessions|
    ensures forall i :: 0 <= i < |r| ==>
      r[i] == if Selects(sel, sessions[i]) && sessions[i].revokedAt == None
        then sessions[i].(revokedAt := Some(now)) else sessions[i]
  {
    seq(|sessions|, i requires 0 <= i < |sessions| =>
      if Selects(sel, sessions[i]) && sessions[i].revokedAt == None
      then sessions[i].(revokedAt := Some(now)) else sessions[i])
  }

  /** Revocation never clears or moves a revocation time, and touches nothing
      but `revokedAt`. */
  lemma RevokeIsMonotonic(sessions: seq<Session>, sel: Selector, now: int)
    ensures var r := Revoke(sessions, sel, now);
      forall i :: 0 <= i < |r| ==>
        && (sessions[i].revokedAt.Some? ==> r[i] == sessions[i])
        && r[i].revokedAt.Some?  == (sessions[i].revokedAt.Some? || Selects(sel, sessions[i]))
        && r[i] == sessions[i].(revokedAt := r[i].revokedAt)
  {
  }

  /** Sessions of other users, and of the caller outside the selection, are
      untouched; every selected session ends up revoked. */
  lemma RevokeTouchesOnlySelected(sessions: seq<Session>, sel: Selector, now: int)
    ensures var r := Revoke(sessions, sel, now);
      && (forall i :: 0 <= i < |r| && !Selects(sel, sessions[i]) ==> r[i] == sessions[i])
      && (forall i :: 0 <= i < |r| && Selects(sel, r[i]) ==> r[i].revokedAt.Some?)
  {
  }

  /** A repeated revocation is a no-op, whatever its time. */
  lemma RevokeIdempotent(sessions: seq<Session>, sel: Selector, now: int, later: int)
    ensures Revoke(Revoke(sessions, sel, now), sel, later) == Revoke(sessions, sel, now)
  {
    var once := Revoke(sessions, sel, now);
    var twice := Revoke(once, sel, later);
    assert forall i :: 0 <= i < |once| ==> twice[i] == once[i];
  }

  /** Refresh tokens are unique in the store. */
  ghost predicate TokensUnique(sessions: seq<Session>)
  {
    forall i, j :: 0 <= i < j < |sessions| ==> sessions[i].refreshToken != sessions[j].refreshToken
  }

  /** A logout with a token changes at most one session. */
  lemma RevokeTokenChangesAtMostOne(sessions: seq<Session>, userId: nat, token: string, now: int)
    requires TokensUnique(sessions)
    ensures var r := Revoke(sessions, TokenOf(userId, token), now);
      forall i, j :: 0 <= i < |r| && 0 <= j < |r| && r[i] != sessions[i] && r[j] != sessions[j] ==> i == j
  {
    var r := Revoke(sessions, TokenOf(userId, token), now);
    forall i, j | 0 <= i < |r| && 0 <= j < |r| && r[i] != sessions[i] && r[j] != sessions[j]
      ensures i == j
    {
      assert sessions[i].refreshToken == token && sessions[j].refreshToken == token;
    }
  }

  /** `passwordReset.update({ where: { id }, data: { usedAt: now } })`. */
  function MarkUsed(resets: seq<PasswordReset>, i: nat, now: int): (r: seq<PasswordReset>)
    requires i < |resets|
    ensures |r| == |resets| && r[i].usedAt == Some(now)
    ensures forall j :: 0 <= j < |r| && j != i ==> r[j] == resets[j]
  {
    resets[i := resets[i].(usedAt := Some(now))]
  }

  /** A redeemed record can never be picked again. */
  lemma MarkedIsNeverUsable(resets: seq<PasswordReset>, i: nat, now: int, userId: nat, later: int)
    requires i < |resets|
    ensures NewestUsableReset(MarkUsed(resets, i, now), userId, later) != Some(i)
  {
  }

  /** `user.update({ where: { id }, data: { passwordHash } })`. */
  function SetPasswordHash(users: seq<User>, i: nat, hash: string): (r: seq<User>)
    requires i < |users|
    ensures |r| == |users| && r[i].passwordHash == hash
    ensures r[i] == users[i].(passwordHash := hash)
    ensures forall j :: 0 <= j < |r| && j != i ==> r[j] == users[j]
  {
    users[i := users[i].(passwordHash := hash)]
  }

  /** What the tables keep whatever the routes do: ids are positions, e-mails
      and refresh tokens are unique. */
  ghost predicate ValidTables(users: seq<User>, suppliers: seq<Supplier>, sessions: seq<Session>, resets: seq<PasswordReset>)
  {
    && (forall i :: 0 <= i < |users| ==> users[i].id == i)
    && (forall i :: 0 <= i < |suppliers| ==> suppliers[i].id == i)
    && (forall i :: 0 <= i < |sessions| ==> sessions[i].id == i)
    && (forall i :: 0 <= i < |resets| ==> resets[i].id == i)
    && (forall i, j :: 0 <= i < j < |users| ==> users[i].email != users[j].email)
    && TokensUnique(sessions)
  }

  // ---------------------------------------------------------------------
  // Route decisions
  // ---------------------------------------------------------------------

  datatype LoginCheck = LoginBadRequest | BadCredentials | LoginAccept(user: nat)

  /** The checks of `/login` before any write. */
  function LoginDecide(users: seq<User>, email: string, password: string, isEmail: EmailTest,
                       verifyHash: HashVerifier): (d: LoginCheck)
    ensures d == LoginBadRequest <==> !isEmail(email) || |password| < 8
    ensures d.LoginAccept? ==>
      d.user < |users| && users[d.user].email == email && verifyHash(users[d.user].passwordHash, password)
    ensures d == BadCredentials <==>
      && isEmail(email) && |password| >= 8
      && (UserByEmail(users, email).None? ||
          !verifyHash(users[UserByEmail(users, email).value].passwordHash, password))
  {
    if !isEmail(email) || |password| < 8 then LoginBadRequest
    else
      match UserByEmail(users, email)
      case None => BadCredentials
      case Some(u) => if verifyHash(users[u].passwordHash, password) then LoginAccept(u) else BadCredentials
  }

  /** An unknown e-mail and a wrong password are told apart by nothing. */
  lemma LoginHidesUnknownEmail(users: seq<User>, email: string, password: string, isEmail: EmailTest,
                               verifyHash: HashVerifier, other: string)
    requires isEmail(email) && |password| >= 8 && isEmail(other) && UserByEmail(users, other).None?
    requires UserByEmail(users, email).Some?
    requires !verifyHash(users[UserByEmail(users, email).value].passwordHash, password)
    ensures LoginDecide(users, email, password, isEmail, verifyHash) ==
      LoginDecide(users, other, password, isEmail, verifyHash)
  {
  }

  /** `REFRESH_TOKEN_TTL_DAYS`: `days` is `Number` of the setting (or of
      "15"), None when that is not a number. */
  predicate Expired(ageMs: int, days: Option<real>)
  {
    days.Some? && ageMs as real > days.value * 24.0 * 60.0 * 60.0 * 1000.0
  }

  datatype RefreshCheck =
    | RefreshBadRequest
    | InvalidRefresh
    | RefreshExpired(session: nat)
    | RefreshAccept(session: nat, user: nat)

  /** The checks of `/refresh`. */
  function RefreshDecide(users: seq<User>, sessions: seq<Session>, refreshToken: string, now: int,
                         days: Option<real>): (d: RefreshCheck)
    ensures d == RefreshBadRequest <==> |refreshToken| < 10
    ensures d == InvalidRefresh <==>
      && |refreshToken| >= 10
      && match SessionByToken(sessions, refreshToken)
         case None => true
         case Some(s) => sessions[s].revokedAt.Some? || UserById(users, sessions[s].userId).None?
    ensures d.RefreshExpired? ==>
      && SessionByToken(sessions, refreshToken) == Some(d.session)
      && sessions[d.session].revokedAt == None
      && Expired(now - sessions[d.session].createdAt, days)
    ensures d.RefreshAccept? ==>
      && SessionByToken(sessions, refreshToken) == Some(d.session)
      && sessions[d.session].revokedAt == None
      && UserById(users, sessions[d.session].userId) == Some(d.user)
      && !Expired(now - sessions[d.session].createdAt, days)
  {
    if |refreshToken| < 10 then RefreshBadRequest
    else
      match SessionByToken(sessions, refreshToken)
      case None => InvalidRefresh
      case Some(s) =>
        if sessions[s].revokedAt.Some? then InvalidRefresh
        else
          match UserById(users, sessions[s].userId)
          case None => InvalidRefresh
          case Some(u) =>
            if Expired(now - sessions[s].createdAt, days) then RefreshExpired(s) else RefreshAccept(s, u)
  }

  /** The age limit is strict: a session exactly `days` days old still
      refreshes, one millisecond more and it expires. */
  lemma RefreshLimitIsStrict(users: seq<User>, sessions: seq<Session>, refreshToken: string, days: int)
    requires |refreshToken| >= 10 && days >= 0
    requires SessionByToken(sessions, refreshToken).Some?
    requires var s := sessions[SessionByToken(sessions, refreshToken).value];
      s.revokedAt == None && UserById(users, s.userId).Some?
    ensures var s := sessions[SessionByToken(sessions, refreshToken).value];
      var limit := s.createdAt + days * 24 * 60 * 60 * 1000;
      && RefreshDecide(users, sessions, refreshToken, limit, Some(days as real)).RefreshAccept?
      && RefreshDecide(users, sessions, refreshToken, limit + 1, Some(days as real)).RefreshExpired?
  {
  }

  /** A setting that is not a number never expires a session. */
  lemma NotANumberNeverExpires(ageMs: int)
    ensures !Expired(ageMs, None)
  {
  }

  /** The logout selection: the caller's session with that token, or all of
      the caller's sessions when the body has no token. */
  function LogoutSelector(sub: nat, refreshToken: Option<string>): (sel: Selector)
    ensures sel.userId == sub
    ensures sel.TokenOf? <==> refreshToken.Some? && refreshToken.value != ""
    ensures sel.TokenOf? ==> sel.token == refreshToken.value
  {
    if refreshToken.Some? && refreshToken.value != "" then TokenOf(sub, refreshToken.value) else AllOf(sub)
  }

  datatype ResetCheck = ResetBadRequest | InvalidResetToken | ResetAccept(user: nat, reset: nat)

  /** The checks of `/reset-password`. */
  function ResetDecide(users: seq<User>, resets: seq<PasswordReset>, email: string, token: string,
                       newPassword: string, now: int, isEmail: EmailTest, verifyHash: HashVerifier): (d: ResetCheck)
    ensures d == ResetBadRequest <==> !isEmail(email) || |newPassword| < 8
    ensures d.ResetAccept? ==>
      && UserByEmail(users, email) == Some(d.user)
      && NewestUsableReset(resets, users[d.user].id, now) == Some(d.reset)
      && verifyHash(resets[d.reset].tokenHash, token)
    ensures d == InvalidResetToken <==>
      && isEmail(email) && |newPassword| >= 8
      && match UserByEmail(users, email)
         case None => true
         case Some(u) =>
           match NewestUsableReset(resets, users[u].id, now)
           case None => true
           case Some(r) => !verifyHash(resets[r].tokenHash, token)
  {
    if !isEmail(email) || |newPassword| < 8 then ResetBadRequest
    else
      match UserByEmail(users, email)
      case None => InvalidResetToken
      case Some(u) =>
        match NewestUsableReset(resets, users[u].id, now)
        case None => InvalidResetToken
        case Some(r) => if verifyHash(resets[r].tokenHash, token) then ResetAccept(u, r) else InvalidResetToken
  }

  /** When the redeemed record was the user's only usable one, no later reset
      of that account succeeds, with any token, until a new record is made. */
  lemma ResetLinkWorksOnce(users: seq<User>, resets: seq<PasswordReset>, email: string, token: string,
                           newPassword: string, now: int, isEmail: EmailTest, verifyHash: HashVerifier,
                           hash: string, token2: string, newPassword2: string, later: int)
    requires ValidTables(users, [], [], resets)
    requires ResetDecide(users, resets, email, token, newPassword, now, isEmail, verifyHash).ResetAccept?
    requires var d := ResetDecide(users, resets, email, token, newPassword, now, isEmail, verifyHash);
      forall j :: 0 <= j < |resets| && j != d.reset ==> !Usable(resets[j], users[d.user].id, now)
    requires later >= now
    ensures var d := ResetDecide(users, resets, email, token, newPassword, now, isEmail, verifyHash);
      !ResetDecide(SetPasswordHash(users, d.user, hash), MarkUsed(resets, d.reset, now), email, token2,
        newPassword2, later, isEmail, verifyHash).ResetAccept?
  {
    var d := ResetDecide(users, resets, email, token, newPassword, now, isEmail, verifyHash);
    var users2 := SetPasswordHash(users, d.user, hash);
    var resets2 := MarkUsed(resets, d.reset, now);
    assert UserByEmail(users2, email) == Some(d.user) by {
      assert users2[d.user].email == email;
    }
    assert forall j :: 0 <= j < |resets2| ==> !Usable(resets2[j], users[d.user].id, later);
  }

  // ---------------------------------------------------------------------
  // The store
  // ---------------------------------------------------------------------

  datatype SupplierInput = SupplierInput(
    fantasyName: string, legalName: string, documentId: string, email: string,
    phone: Option<string>, address: Option<string>)

  datatype RegisterRequest = RegisterRequest(name: string, email: string, password: string, supplier: Option<SupplierInput>)

  /** `RegisterSchema.parse` succeeds. */
  predicate RegisterValid(data: RegisterRequest, isEmail: EmailTest)
  {
    && |data.name| >= 2 && isEmail(data.email) && |data.password| >= 8
    && (data.supplier.Some? ==>
      var s := data.supplier.value;
      |s.fantasyName| >= 2 && |s.legalName| >= 2 && |s.documentId| >= 5 && isEmail(s.email))
  }

  class AuthStore {
    var users: seq<User>
    var suppliers: seq<Supplier>
    var sessions: seq<Session>
    var resets: seq<PasswordReset>

    ghost predicate Valid()
      reads this
    {
      ValidTables(users, suppliers, sessions, resets)
    }

    constructor()
      ensures Valid()
      ensures users == [] && suppliers == [] && sessions == [] && resets == []
    {
      users, suppliers, sessions, resets := [], [], [], [];
    }

    /** `issueTokens`: signs the payload `{ sub, role }` and records one new
        session holding the generated refresh token. A token already in the
        store breaks the uniqueness of refresh tokens, so the store refuses
        it and nothing is recorded. */
    method IssueTokens(user: User, sign: Signer, randomBytes: seq<byte>, ip: string, userAgent: string, now: int)
      returns (tokens: Option<Tokens>)
      requires Valid()
      modifies this
      ensures Valid()
      ensures users == old(users) && suppliers == old(suppliers) && resets == old(resets)
      ensures var refresh := CryptoRandom(randomBytes);
        if SessionByToken(old(sessions), refresh).Some? then
          tokens == None && sessions == old(sessions)
        else
          && tokens == Some(Tokens(sign(Claims(user.id, user.role)), refresh))
          && sessions == old(sessions) + [Session(|old(sessions)|, user.id, refresh, now, None, ip, userAgent)]
    {
      var accessToken := sign(Claims(user.id, user.role));
      var refreshToken := CryptoRandom(randomBytes);
      if SessionByToken(sessions, refreshToken).Some? {
        return None;
      }
      sessions := sessions + [Session(|sessions|, user.id, refreshToken, now, None, ip, userAgent)];
      tokens := Some(Tokens(accessToken, refreshToken));
    }

    /** `/register`: validates, creates the supplier when one is given, then
        the user with role `SUPPLIER`, then issues tokens. A taken e-mail
        fails the user's creation after the supplier was already stored. */
    method Register(data: RegisterRequest, isEmail: EmailTest, passwordHash: string, sign: Signer,
                    randomBytes: seq<byte>, ip: string, userAgent: string, now: int)
      returns (reply: Reply)
      requires Valid()
      modifies this
      ensures Valid()
      ensures resets == old(resets)
      ensures !RegisterValid(data, isEmail) ==>
        reply == BadRequest && users == old(users) && suppliers == old(suppliers) && sessions == old(sessions)
      ensures RegisterValid(data, isEmail) ==>
        suppliers == old(suppliers) +
          match data.supplier
          case None => []
          case Some(s) => [Supplier(|old(suppliers)|, s.fantasyName, s.legalName, s.documentId, s.email, s.phone, s.address)]
      ensures RegisterValid(data, isEmail) && UserByEmail(old(users), data.email).Some? ==>
        reply == BadRequest && users == old(users) && sessions == old(sessions)
      ensures RegisterValid(data, isEmail) && UserByEmail(old(users), data.email).None? ==>
        && users == old(users) + [User(|old(users)|, data.name, data.email, passwordHash, SupplierRole,
             if data.supplier.Some? then Some(|old(suppliers)|) else None)]
        && var refresh := CryptoRandom(randomBytes);
           if SessionByToken(old(sessions), refresh).Some? then
             reply == BadRequest && sessions == old(sessions)
           else
             && reply == TokensReply(sign(Claims(|old(users)|, SupplierRole)), refresh)
             && sessions == old(sessions) + [Session(|old(sessions)|, |old(users)|, refresh, now, None, ip, userAgent)]
    {
      if !RegisterValid(data, isEmail) {
        return BadRequest;
      }
      var supplierId: Option<nat> := None;
      if data.supplier.Some? {
        var s := data.supplier.value;
        suppliers := suppliers + [Supplier(|suppliers|, s.fantasyName, s.legalName, s.documentId, s.email, s.phone, s.address)];
        supplierId := Some(|suppliers| - 1);
      }
      if UserByEmail(users, data.email).Some? {
        return BadRequest;
      }
      var user := User(|users|, data.name, data.email, passwordHash, SupplierRole, supplierId);
      users := users + [user];
      var tokens := IssueTokens(user, sign, randomBytes, ip, userAgent, now);
      if tokens == None {
        return BadRequest;
      }
      reply := TokensReply(tokens.value.accessToken, tokens.value.refreshToken);
    }

    /** `/login`: the same 401 for an unknown e-mail and a wrong password;
        otherwise tokens for the user. */
    method Login(email: string, password: string, isEmail: EmailTest, verifyHash: HashVerifier, sign: Signer,
                 randomBytes: seq<byte>, ip: string, userAgent: string, now: int)
      returns (reply: Reply)
      requires Valid()
      modifies this
      ensures Valid()
      ensures users == old(users) && suppliers == old(suppliers) && resets == old(resets)
      ensures match LoginDecide(old(users), email, password, isEmail, verifyHash)
        case LoginBadRequest => reply == BadRequest && sessions == old(sessions)
        case BadCredentials => reply == Failure(401, "Invalid credentials") && sessions == old(sessions)
        case LoginAccept(u) =>
          var refresh := CryptoRandom(randomBytes);
          if SessionByToken(old(sessions), refresh).Some? then
            reply == BadRequest && sessions == old(sessions)
          else
            && reply == TokensReply(sign(Claims(users[u].id, users[u].role)), refresh)
            && sessions == old(sessions) + [Session(|old(sessions)|, users[u].id, refresh, now, None, ip, userAgent)]
    {
      if !isEmail(email) || |password| < 8 {
        return BadRequest;
      }
      var found := UserByEmail(users, email);
      if found == None {
        return Failure(401, "Invalid credentials");
      }
      var user := users[found.value];
      var ok := verifyHash(user.passwordHash, password);
      if !ok {
        return Failure(401, "Invalid credentials");
      }
      var tokens := IssueTokens(user, sign, randomBytes, ip, userAgent, now);
      if tokens == None {
        return BadRequest;
      }
      reply := TokensReply(tokens.value.accessToken, tokens.value.refreshToken);
    }

    /** `/refresh`: a new access token for a live session, which is left as
        it is; an expired session is revoked. */
    method Refresh(refreshToken: string, now: int, days: Option<real>, sign: Signer)
      returns (reply: Reply)
      requires Valid()
      modifies this
      ensures Valid()
      ensures users == old(users) && suppliers == old(suppliers) && resets == old(resets)
      ensures match RefreshDecide(old(users), old(sessions), refreshToken, now, days)
        case RefreshBadRequest => reply == BadRequest && sessions == old(sessions)
        case InvalidRefresh => reply == Failure(401, "Invalid refresh") && sessions == old(sessions)
        case RefreshExpired(s) =>
          && reply == Failure(401, "Refresh expired")
          && sessions == old(sessions)[s := old(sessions)[s].(revokedAt := Some(now))]
        case RefreshAccept(s, u) =>
          reply == AccessReply(sign(Claims(users[u].id, users[u].role))) && sessions == old(sessions)
    {
      if |refreshToken| < 10 {
        return BadRequest;
      }
      var found := SessionByToken(sessions, refreshToken);
      if found == None || sessions[found.value].revokedAt.Some? {
        return Failure(401, "Invalid refresh");
      }
      var session := sessions[found.value];
      var owner := UserById(users, session.userId);
      if owner == None {
        return Failure(401, "Invalid refresh");
      }
      var ageMs := now - session.createdAt;
      if Expired(ageMs, days) {
        sessions := sessions[found.value := session.(revokedAt := Some(now))];
        return Failure(401, "Refresh expired");
      }
      var user := users[owner.value];
      reply := AccessReply(sign(Claims(user.id, user.role)));
    }

    /** `/logout`, behind `requireAuth` (`caller` is `req.user`). */
    method Logout(caller: Claims, refreshToken: Option<string>, now: int) returns (reply: Reply)
      requires Valid()
      modifies this
      ensures Valid()
      ensures users == old(users) && suppliers == old(suppliers) && resets == old(resets)
      ensures sessions == Revoke(old(sessions), LogoutSelector(caller.sub, refreshToken), now)
      ensures reply == OkReply
    {
      var sel := if refreshToken.Some? && refreshToken.value != "" then TokenOf(caller.sub, refreshToken.value)
        else AllOf(caller.sub);
      sessions := Revoke(sessions, sel, now);
      reply := OkReply;
    }

    /** `/forgot-password`: one reset record valid for an hour when the
        e-mail belongs to a user, and the same answer when it does not. The
        record is stored before the mail goes out, so a failed mail still
        leaves it. */
    method ForgotPassword(email: string, isEmail: EmailTest, tokenHash: string, mailSent: bool, now: int)
      returns (reply: Reply)
      requires Valid()
      modifies this
      ensures Valid()
      ensures users == old(users) && suppliers == old(suppliers) && sessions == old(sessions)
      ensures !isEmail(email) ==> reply == BadRequest && resets == old(resets)
      ensures isEmail(email) && UserByEmail(old(users), email).None? ==> reply == OkReply && resets == old(resets)
      ensures isEmail(email) && UserByEmail(old(users), email).Some? ==>
        && resets == old(resets) + [PasswordReset(|old(resets)|, users[UserByEmail(old(users), email).value].id,
             tokenHash, now + 60 * 60 * 1000, None, now)]
        && reply == if mailSent then OkReply else BadRequest
    {
      if !isEmail(email) {
        return BadRequest;
      }
      var found := UserByEmail(users, email);
      if found == None {
        return OkReply;
      }
      var expiresAt := now + 60 * 60 * 1000;
      resets := resets + [PasswordReset(|resets|, users[found.value].id, tokenHash, expiresAt, None, now)];
      reply := if mailSent then OkReply else BadRequest;
    }

    /** `/reset-password`: on success, in one transaction, the new password
        hash, the record marked used, and every live session of the user
        revoked. */
    method ResetPassword(email: string, token: string, newPassword: string, now: int, isEmail: EmailTest,
                         verifyHash: HashVerifier, newHash: string)
      returns (reply: Reply)
      requires Valid()
      modifies this
      ensures Valid()
      ensures suppliers == old(suppliers)
      ensures match ResetDecide(old(users), old(resets), email, token, newPassword, now, isEmail, verifyHash)
        case ResetBadRequest =>
          reply == BadRequest && users == old(users) && sessions == old(sessions) && resets == old(resets)
        case InvalidResetToken =>
          && reply == Failure(400, "Invalid token")
          && users == old(users) && sessions == old(sessions) && resets == old(resets)
        case ResetAccept(u, r) =>
          && reply == OkReply
          && users == SetPasswordHash(old(users), u, newHash)
          && resets == MarkUsed(old(resets), r, now)
          && sessions == Revoke(old(sessions), AllOf(old(users)[u].id), now)
    {
      if !isEmail(email) || |newPassword| < 8 {
        return BadRequest;
      }
      var found := UserByEmail(users, email);
      if found == None {
        return Failure(400, "Invalid token");
      }
      var u := found.value;
      var pr := NewestUsableReset(resets, users[u].id, now);
      if pr == None {
        return Failure(400, "Invalid token");
      }
      var valid := verifyHash(resets[pr.value].tokenHash, token);
      if !valid {
        return Failure(400, "Invalid token");
      }
      var userId := users[u].id;
      users := SetPasswordHash(users, u, newHash);
      resets := MarkUsed(resets, pr.value, now);
      sessions := Revoke(sessions, AllOf(userId), now);
      reply := OkReply;
    }
  }
}
