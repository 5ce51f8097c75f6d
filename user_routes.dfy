/**
 * The user router: the two self-service routes behind `protect`, and the
 * admin listing behind `authorize('admin')`.
 */
module UserRoutes {
  import opened Wrappers
  import opened ObjectIds
  import opened UserModel
  import opened Tokens
  import opened Http
  import opened AuthMiddleware
  import opened Pipeline
  import opened UserController

  const AdminOnly: seq<string> := [Admin]

  /** The routes mounted under /api/users. */
  const Routes: Table := map[
    (Get, "/me") := [ProtectStage, Handler("getMe")],
    (Put, "/me") := [ProtectStage, Handler("updateMe")],
    (Get, "/") := [ProtectStage, AuthorizeStage(AdminOnly), Handler("getAllUsers")]
  ]

  lemma RoutesWellFormed()
    ensures forall k | k in Routes :: WellFormed(Routes[k])
  {
  }

  /**
   * Reading one's profile needs a login and nothing more, and `getMe` then
   * returns the stored user the token names, without its password.
   */
  lemma MeRequiresLogin(req: Request, verify: string -> Verification, users: map<ObjectId, User>)
    ensures var o := Dispatch(Routes, Get, "/me", req, verify, users);
      o.Dispatched? <==> Authenticate(req.header, verify, users).Authenticated?
    ensures var o := Dispatch(Routes, Get, "/me", req, verify, users);
      o.Dispatched? ==>
        var id := verify(ExtractToken(req.header).value).id;
        o.handler == "getMe" && id in users && GetMe(o.user) == Reply(200, ProfileData(Some(ProfileOf(users[id]))))
    ensures var o := Dispatch(Routes, Get, "/me", req, verify, users);
      !o.Dispatched? ==> o == Responded(AuthReply(Authenticate(req.header, verify, users)))
  {
    var chain := Routes[(Get, "/me")];
    var a := Authenticate(req.header, verify, users);
    if a.Authenticated? {
      assert Run(chain, req, verify, users, None) == Run(chain[1..], req, verify, users, Some(a.user));
    }
  }

  /** Updating one's profile needs a login and nothing more. */
  lemma UpdateMeRequiresLogin(req: Request, verify: string -> Verification, users: map<ObjectId, User>)
    ensures var o := Dispatch(Routes, Put, "/me", req, verify, users);
      o.Dispatched? <==> Authenticate(req.header, verify, users).Authenticated?
    ensures var o := Dispatch(Routes, Put, "/me", req, verify, users);
      o.Dispatched? ==> o == Dispatched("updateMe", Some(Authenticate(req.header, verify, users).user))
  {
    var chain := Routes[(Put, "/me")];
    var a := Authenticate(req.header, verify, users);
    if a.Authenticated? {
      assert Run(chain, req, verify, users, None) == Run(chain[1..], req, verify, users, Some(a.user));
    }
  }

  /** The listing runs only for an authenticated admin. */
  lemma ListGuarded(req: Request, verify: string -> Verification, users: map<ObjectId, User>)
    ensures var o := Dispatch(Routes, Get, "/", req, verify, users);
      o.Dispatched? <==>
        Authenticate(req.header, verify, users).Authenticated?
        && Authenticate(req.header, verify, users).user.role == Admin
    ensures var o := Dispatch(Routes, Get, "/", req, verify, users);
      Authenticate(req.header, verify, users).Authenticated? && !o.Dispatched? ==>
        o == Responded(Reply(403, Message(ForbiddenMessage(Authenticate(req.header, verify, users).user.role))))
  {
    var chain := Routes[(Get, "/")];
    var a := Authenticate(req.header, verify, users);
    if a.Authenticated? {
      assert Run(chain, req, verify, users, None) == Run(chain[1..], req, verify, users, Some(a.user));
      if a.user.role in AdminOnly {
        assert Run(chain[1..], req, verify, users, Some(a.user)) == Run(chain[2..], req, verify, users, Some(a.user));
      }
    }
  }

  /**
   * No user the schema admits holds the admin role, so with a valid user
   * collection `getAllUsers` is never reached: every request gets the 401 or
   * 500 of `protect` or the 403 of the role guard.
   */
  lemma AdminListUnreachable(req: Request, verify: string -> Verification, users: map<ObjectId, User>)
    requires ValidStore(users)
    ensures var o := Dispatch(Routes, Get, "/", req, verify, users);
      o.Responded? && o.reply.status in {401, 403, 500}
  {
    ListGuarded(req, verify, users);
    AuthenticatedNotAdmin(req.header, verify, users);
    var a := Authenticate(req.header, verify, users);
    if !a.Authenticated? {
      ProtectFirst(Routes[(Get, "/")], req, verify, users);
      AuthRepliesDistinct(a, if a == MissingToken then AuthError else MissingToken);
    }
  }
}
