/**
 * The two guards of the API: `protect`, which turns the Authorization header
 * into an authenticated `req.user` or a 401/500 response, and `authorize`,
 * the role allowlist that runs after it.
 */
module AuthMiddleware {
  import opened Wrappers
  import opened Text
  import opened ObjectIds
  import opened UserModel
  import opened Tokens
  import opened Http

  const BearerWord: string := "Bearer"
  const BearerPrefix: string := BearerWord + " "

  const NoTokenMessage: string := "Access denied: No token provided."
  const UserNotFoundMessage: string := "Access denied: User not found."
  const InvalidTokenMessage: string := "Invalid token: Authentication failed."
  const ExpiredTokenMessage: string := "Token expired: Please log in again."
  const AuthServerErrorMessage: string := "Server error during authentication."
  const NotAuthenticatedMessage: string := "Not authenticated. Run protect middleware first."

  function ForbiddenMessage(role: string): string {
    "Forbidden: User role (" + role + ") is not authorized to access this resource."
  }

  /**
   * The token of a `Bearer <token>` header: the second space-separated piece,
   * when the header starts with "Bearer " and that piece is not empty.
   */
  function ExtractToken(header: Option<string>): (t: Option<string>)
    ensures t.Some? ==> header.Some? && StartsWith(header.value, BearerPrefix + t.value)
    ensures t.Some? ==> t.value != "" && ' ' !in t.value
    ensures t.Some? ==> |header.value| == |BearerPrefix + t.value| || header.value[|BearerPrefix + t.value|] == ' '
    ensures t.None? <==> (header.None? || !StartsWith(header.value, BearerPrefix)
                          || |header.value| == |BearerPrefix| || header.value[|BearerPrefix|] == ' ')
  {
    if header.Some? && StartsWith(header.value, BearerPrefix) then
      var h := header.value;
      var rest := h[|BearerPrefix|..];
      assert h == BearerWord + [' '] + rest;
      SecondPiece(BearerWord, ' ', rest);
      var piece := Split(h, ' ')[1];
      assert h[..|BearerPrefix + piece|] == BearerPrefix + piece;
      if piece == "" then None else Some(piece)
    else None
  }

  /** The token really is the second piece of `header.split(' ')`. */
  lemma TokenIsSecondPiece(header: string)
    requires ExtractToken(Some(header)).Some?
    ensures |Split(header, ' ')| >= 2 && ExtractToken(Some(header)).value == Split(header, ' ')[1]
  {
    var rest := header[|BearerPrefix|..];
    assert header == BearerWord + [' '] + rest;
    SecondPiece(BearerWord, ' ', rest);
  }

  /** How a request leaves `protect`. */
  datatype AuthOutcome =
    | MissingToken
    | InvalidToken
    | ExpiredToken
    | UserNotFound
    | AuthError
    | Authenticated(user: Profile)

  /**
   * `protect` as a decision: extract the token, verify it, load the user by the
   * decoded id without its password.
   */
  function Authenticate(header: Option<string>, verify: string -> Verification, users: map<ObjectId, User>): (o: AuthOutcome)
    ensures o == MissingToken <==> ExtractToken(header).None?
    ensures o.Authenticated? <==>
      ExtractToken(header).Some? && verify(ExtractToken(header).value).Verified?
      && verify(ExtractToken(header).value).id in users
    ensures o.Authenticated? ==> o.user == ProfileOf(users[verify(ExtractToken(header).value).id])
    ensures o == UserNotFound <==>
      ExtractToken(header).Some? && verify(ExtractToken(header).value).Verified?
      && verify(ExtractToken(header).value).id !in users
    ensures o == InvalidToken <==> ExtractToken(header).Some? && verify(ExtractToken(header).value).Malformed?
    ensures o == ExpiredToken <==> ExtractToken(header).Some? && verify(ExtractToken(header).value).Expired?
    ensures o == AuthError <==> ExtractToken(header).Some? && verify(ExtractToken(header).value).Failed?
  {
    match ExtractToken(header)
    case None => MissingToken
    case Some(token) =>
      match verify(token)
      case Malformed => InvalidToken
      case Expired => ExpiredToken
      case Failed => AuthError
      case Verified(id) => if id in users then Authenticated(ProfileOf(users[id])) else UserNotFound
  }

  /** The response `protect` sends when it does not call `next`. */
  function AuthReply(o: AuthOutcome): (r: Reply)
    requires !o.Authenticated?
    ensures r.status == (if o == AuthError then 500 else 401)
    ensures r.body.Message?
  {
    match o
    case MissingToken => Reply(401, Message(NoTokenMessage))
    case InvalidToken => Reply(401, Message(InvalidTokenMessage))
    case ExpiredToken => Reply(401, Message(ExpiredTokenMessage))
    case UserNotFound => Reply(401, Message(UserNotFoundMessage))
    case AuthError => Reply(500, Message(AuthServerErrorMessage))
  }

  /**
   * Every rejection but an internal error is a 401, and each names its own
   * cause: no two of the five responses are alike.
   */
  lemma AuthRepliesDistinct(a: AuthOutcome, b: AuthOutcome)
    requires !a.Authenticated? && !b.Authenticated? && a != b
    ensures AuthReply(a) != AuthReply(b)
    ensures AuthReply(a).status == (if a == AuthError then 500 else 401)
  {
  }

  /** Without a token, neither the verifier nor the user collection is consulted. */
  lemma NoTokenNoLookup(header: Option<string>, v1: string -> Verification, v2: string -> Verification,
                        u1: map<ObjectId, User>, u2: map<ObjectId, User>)
    requires ExtractToken(header).None?
    ensures Authenticate(header, v1, u1) == Authenticate(header, v2, u2) == MissingToken
  {
  }

  /** A still-valid token of a user who has since been removed is refused with "User not found". */
  lemma RemovedUserRefused(header: Option<string>, verify: string -> Verification, users: map<ObjectId, User>, id: ObjectId)
    requires ExtractToken(header).Some? && verify(ExtractToken(header).value) == Verified(id)
    ensures Authenticate(header, verify, users - {id}) == UserNotFound
    ensures id in users ==> Authenticate(header, verify, users) == Authenticated(ProfileOf(users[id]))
  {
  }

  /** In a valid collection an authenticated caller never holds the admin role. */
  lemma AuthenticatedNotAdmin(header: Option<string>, verify: string -> Verification, users: map<ObjectId, User>)
    requires ValidStore(users)
    ensures Authenticate(header, verify, users).Authenticated? ==>
      ValidRole(Authenticate(header, verify, users).user.role) && Authenticate(header, verify, users).user.role != Admin
  {
    var o := Authenticate(header, verify, users);
    if o.Authenticated? {
      var id := verify(ExtractToken(header).value).id;
      assert ValidUser(users[id]);
    }
  }

  /**
   * `protect`, step by step: on success it sets `req.user` and calls `next`
   * exactly once, sending nothing; otherwise it sends the rejection and leaves
   * `req.user` and `next` alone.
   */
  method Protect(ex: Exchange, header: Option<string>, verify: string -> Verification, db: Db)
    modifies ex
    ensures var o := Authenticate(header, verify, old(db.users));
      if o.Authenticated? then
        ex.user == Some(o.user) && ex.reply == old(ex.reply) && ex.nextCalls == old(ex.nextCalls) + 1
      else
        ex.user == old(ex.user) && ex.reply == Some(AuthReply(o)) && ex.nextCalls == old(ex.nextCalls)
  {
    var token := ExtractToken(header);
    if token.None? {
      ex.reply := Some(Reply(401, Message(NoTokenMessage)));
      return;
    }
    match verify(token.value)
    case Malformed =>
      ex.reply := Some(Reply(401, Message(InvalidTokenMessage)));
    case Expired =>
      ex.reply := Some(Reply(401, Message(ExpiredTokenMessage)));
    case Failed =>
      ex.reply := Some(Reply(500, Message(AuthServerErrorMessage)));
    case Verified(id) =>
      if id !in db.users {
        ex.reply := Some(Reply(401, Message(UserNotFoundMessage)));
        return;
      }
      ex.user := Some(ProfileOf(db.users[id]));
      ex.nextCalls := ex.nextCalls + 1;
  }

  /** What a guard does: call `next`, or answer and stop the chain. */
  datatype Guard = Pass | Halt(reply: Reply)

  /** `authorize(...roles)`: 401 when `protect` has not set `req.user`, 403 when the role is not allowed. */
  function Authorize(roles: seq<string>, user: Option<Profile>): (g: Guard)
    ensures user.None? ==> g == Halt(Reply(401, Message(NotAuthenticatedMessage)))
    ensures user.Some? ==> (g.Pass? <==> user.value.role in roles)
    ensures user.Some? && g.Halt? ==> g.reply == Reply(403, Message(ForbiddenMessage(user.value.role)))
  {
    if user.None? then Halt(Reply(401, Message(NotAuthenticatedMessage)))
    else if user.value.role !in roles then Halt(Reply(403, Message(ForbiddenMessage(user.value.role))))
    else Pass
  }

  /** A guard whose allowlist is only "admin" lets no valid user through. */
  lemma AdminOnlyGuardRejectsAll(user: User)
    requires ValidUser(user)
    ensures Authorize([Admin], Some(ProfileOf(user))).Halt?
    ensures Authorize([Admin], Some(ProfileOf(user))).reply.status == 403
  {
  }
}
