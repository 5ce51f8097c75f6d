/**
 * How Express runs a route's chain of middleware: each stage either answers
 * and stops the chain or calls `next`; the last stage is the handler. The
 * guards are `protect` and `authorize`; the image upload is a stage whose
 * failure reaches Express's default error handler.
 */
module Pipeline {
  import opened Wrappers
  import opened ObjectIds
  import opened UserModel
  import opened Tokens
  import opened Http
  import opened AuthMiddleware

  datatype Verb = Get | Post | Put | Delete

  datatype Stage =
    | ProtectStage
    | AuthorizeStage(roles: seq<string>)
    | UploadStage
    | Handler(name: string)

  /**
   * What a stage can see of the request: the Authorization header and, for
   * the upload stage, the error the uploader reports (`None` when there is no
   * file or the file is accepted).
   */
  datatype Request = Request(header: Option<string>, uploadError: Option<string>)

  /** Where a request ends: a response from a stage, the handler, or no matching route. */
  datatype Outcome =
    | Responded(reply: Reply)
    | Dispatched(handler: string, user: Option<Profile>)
    | NoRoute

  /** `req.user` is unset or is the user the request's own token names. */
  predicate UserFromToken(req: Request, verify: string -> Verification, users: map<ObjectId, User>, user: Option<Profile>) {
    user.None? || Authenticate(req.header, verify, users) == Authenticated(user.value)
  }

  /** A route's chain: guards and uploads, ending in exactly one handler. */
  predicate WellFormed(chain: seq<Stage>) {
    && chain != []
    && chain[|chain| - 1].Handler?
    && forall i :: 0 <= i < |chain| - 1 ==> !chain[i].Handler?
  }

  /** The handler a well-formed chain ends in. */
  function HandlerOf(chain: seq<Stage>): string
    requires WellFormed(chain)
  {
    chain[|chain| - 1].name
  }

  /**
   * Runs `chain` on the request. A handler is reached only through every
   * stage before it: after `protect` the user is the authenticated one, and
   * after `authorize(roles)` that user's role is in `roles`.
   */
  function Run(chain: seq<Stage>, req: Request, verify: string -> Verification, users: map<ObjectId, User>,
               user: Option<Profile>): (o: Outcome)
    requires WellFormed(chain) && UserFromToken(req, verify, users, user)
    ensures !o.NoRoute?
    ensures o.Dispatched? ==> o.handler == HandlerOf(chain)
    ensures o.Dispatched? ==> UserFromToken(req, verify, users, o.user)
    ensures o.Dispatched? && user.Some? ==> o.user == user
    ensures o.Dispatched? && ProtectStage in chain ==> o.user.Some?
    ensures o.Dispatched? ==> forall roles :: AuthorizeStage(roles) in chain ==> o.user.Some? && o.user.value.role in roles
    ensures o.Dispatched? && UploadStage in chain ==> req.uploadError.None?
    decreases |chain|
  {
    var rest := chain[1..];
    assert forall s :: s in rest ==> s in chain;
    assert chain[0].Handler? || WellFormed(rest);
    match chain[0]
    case Handler(name) => Dispatched(name, user)
    case ProtectStage =>
      var outcome := Authenticate(req.header, verify, users);
      if outcome.Authenticated? then Run(rest, req, verify, users, Some(outcome.user))
      else Responded(AuthReply(outcome))
    case AuthorizeStage(roles) =>
      (match Authorize(roles, user)
       case Halt(reply) => Responded(reply)
       case Pass =>
         Run(rest, req, verify, users, user))
    case UploadStage =>
      if req.uploadError.Some? then Responded(Reply(500, Message(req.uploadError.value)))
      else Run(rest, req, verify, users, user)
  }

  /** A chain that starts with `protect` answers a request it cannot authenticate with the 401 or 500 of `protect`. */
  lemma ProtectFirst(chain: seq<Stage>, req: Request, verify: string -> Verification, users: map<ObjectId, User>)
    requires WellFormed(chain) && chain[0] == ProtectStage
    requires !Authenticate(req.header, verify, users).Authenticated?
    ensures Run(chain, req, verify, users, None) == Responded(AuthReply(Authenticate(req.header, verify, users)))
  {
  }

  /** The route table: for each verb and path, its chain. */
  type Table = map<(Verb, string), seq<Stage>>

  /** Express dispatch: the chain of the route, started without `req.user`. */
  function Dispatch(table: Table, verb: Verb, path: string, req: Request,
                    verify: string -> Verification, users: map<ObjectId, User>): (o: Outcome)
    requires forall k | k in table :: WellFormed(table[k])
    ensures o == NoRoute <==> (verb, path) !in table
    ensures o.Dispatched? ==> (verb, path) in table && WellFormed(table[(verb, path)])
    ensures o.Dispatched? ==> o.handler == HandlerOf(table[(verb, path)])
  {
    if (verb, path) in table then Run(table[(verb, path)], req, verify, users, None) else NoRoute
  }
}
