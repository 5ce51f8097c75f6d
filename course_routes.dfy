/**
 * The course router: which chain of guards runs before each course handler.
 */
module CourseRoutes {
  import opened Wrappers
  import opened ObjectIds
  import opened UserModel
  import opened Tokens
  import opened Http
  import opened AuthMiddleware
  import opened Pipeline

  const InstructorOrAdmin: seq<string> := [Instructor, Admin]
  const StudentOrAdmin: seq<string> := [Student, Admin]

  /** The routes mounted under /api/courses. There is no DELETE route. */
  const Routes: Table := map[
    (Get, "/") := [Handler("getCourses")],
    (Post, "/") := [ProtectStage, AuthorizeStage(InstructorOrAdmin), UploadStage, Handler("createCourse")],
    (Get, "/:id") := [Handler("getCourse")],
    (Put, "/:id") := [ProtectStage, UploadStage, Handler("updateCourse")],
    (Post, "/:id/enroll") := [ProtectStage, AuthorizeStage(StudentOrAdmin), Handler("enrollCourse")]
  ]

  lemma RoutesWellFormed()
    ensures forall k | k in Routes :: WellFormed(Routes[k])
  {
  }

  /** Listing and reading a course need no token: the handler runs whatever the header says. */
  lemma PublicReads(req: Request, verify: string -> Verification, users: map<ObjectId, User>)
    ensures Dispatch(Routes, Get, "/", req, verify, users) == Dispatched("getCourses", None)
    ensures Dispatch(Routes, Get, "/:id", req, verify, users) == Dispatched("getCourse", None)
  {
  }

  /**
   * `createCourse` runs exactly for an authenticated caller whose role is
   * instructor or admin and whose upload, if any, was accepted.
   */
  lemma CreateGuarded(req: Request, verify: string -> Verification, users: map<ObjectId, User>)
    ensures var o := Dispatch(Routes, Post, "/", req, verify, users);
      o.Dispatched? <==>
        && Authenticate(req.header, verify, users).Authenticated?
        && Authenticate(req.header, verify, users).user.role in InstructorOrAdmin
        && req.uploadError.None?
    ensures var o := Dispatch(Routes, Post, "/", req, verify, users);
      o.Dispatched? ==> o == Dispatched("createCourse", Some(Authenticate(req.header, verify, users).user))
  {
    var chain := Routes[(Post, "/")];
    var a := Authenticate(req.header, verify, users);
    if a.Authenticated? {
      assert Run(chain, req, verify, users, None) == Run(chain[1..], req, verify, users, Some(a.user));
      if a.user.role in InstructorOrAdmin {
        assert Run(chain[1..], req, verify, users, Some(a.user)) == Run(chain[2..], req, verify, users, Some(a.user));
        if req.uploadError.None? {
          assert Run(chain[2..], req, verify, users, Some(a.user)) == Run(chain[3..], req, verify, users, Some(a.user));
        }
      }
    }
  }

  /** With a valid user collection, only instructors create courses. */
  lemma CreateOnlyByInstructor(req: Request, verify: string -> Verification, users: map<ObjectId, User>)
    requires ValidStore(users)
    ensures Dispatch(Routes, Post, "/", req, verify, users).Dispatched? <==>
      && Authenticate(req.header, verify, users).Authenticated?
      && Authenticate(req.header, verify, users).user.role == Instructor
      && req.uploadError.None?
  {
    CreateGuarded(req, verify, users);
    AuthenticatedNotAdmin(req.header, verify, users);
  }

  /** A request that `protect` refuses never reaches the uploader: the file it carries makes no difference. */
  lemma UnauthenticatedNeverUploads(req: Request, verify: string -> Verification, users: map<ObjectId, User>)
    requires !Authenticate(req.header, verify, users).Authenticated?
    ensures
      && Dispatch(Routes, Post, "/", req, verify, users) == Responded(AuthReply(Authenticate(req.header, verify, users)))
      && Dispatch(Routes, Put, "/:id", req, verify, users) == Responded(AuthReply(Authenticate(req.header, verify, users)))
  {
    ProtectFirst(Routes[(Post, "/")], req, verify, users);
    ProtectFirst(Routes[(Put, "/:id")], req, verify, users);
  }

  /** A student who tries to create a course is refused with 403, before any upload. */
  lemma StudentCannotCreate(req: Request, verify: string -> Verification, users: map<ObjectId, User>)
    requires Authenticate(req.header, verify, users).Authenticated?
    requires Authenticate(req.header, verify, users).user.role == Student
    ensures
      Dispatch(Routes, Post, "/", req, verify, users) == Responded(Reply(403, Message(ForbiddenMessage(Student))))
  {
    var chain := Routes[(Post, "/")];
    var a := Authenticate(req.header, verify, users);
    assert Run(chain, req, verify, users, None) == Run(chain[1..], req, verify, users, Some(a.user));
  }

  /**
   * Updating needs a login and nothing more: any authenticated role reaches
   * `updateCourse`, which checks ownership itself.
   */
  lemma UpdateNeedsOnlyLogin(req: Request, verify: string -> Verification, users: map<ObjectId, User>)
    ensures var o := Dispatch(Routes, Put, "/:id", req, verify, users);
      o.Dispatched? <==> Authenticate(req.header, verify, users).Authenticated? && req.uploadError.None?
    ensures var o := Dispatch(Routes, Put, "/:id", req, verify, users);
      o.Dispatched? ==> o == Dispatched("updateCourse", Some(Authenticate(req.header, verify, users).user))
  {
    var chain := Routes[(Put, "/:id")];
    var a := Authenticate(req.header, verify, users);
    if a.Authenticated? {
      assert Run(chain, req, verify, users, None) == Run(chain[1..], req, verify, users, Some(a.user));
    }
  }

  /** `enrollCourse` runs exactly for an authenticated caller whose role is student or admin. */
  lemma EnrollGuarded(req: Request, verify: string -> Verification, users: map<ObjectId, User>)
    ensures var o := Dispatch(Routes, Post, "/:id/enroll", req, verify, users);
      o.Dispatched? <==>
        Authenticate(req.header, verify, users).Authenticated?
        && Authenticate(req.header, verify, users).user.role in StudentOrAdmin
    ensures var o := Dispatch(Routes, Post, "/:id/enroll", req, verify, users);
      o.Dispatched? ==> o == Dispatched("enrollCourse", Some(Authenticate(req.header, verify, users).user))
  {
    var chain := Routes[(Post, "/:id/enroll")];
    var a := Authenticate(req.header, verify, users);
    if a.Authenticated? {
      assert Run(chain, req, verify, users, None) == Run(chain[1..], req, verify, users, Some(a.user));
      if a.user.role in StudentOrAdmin {
        assert Run(chain[1..], req, verify, users, Some(a.user)) == Run(chain[2..], req, verify, users, Some(a.user));
      }
    }
  }

  /** With a valid user collection, only students enrol. */
  lemma EnrollOnlyStudents(req: Request, verify: string -> Verification, users: map<ObjectId, User>)
    requires ValidStore(users)
    ensures Dispatch(Routes, Post, "/:id/enroll", req, verify, users).Dispatched? <==>
      Authenticate(req.header, verify, users).Authenticated?
      && Authenticate(req.header, verify, users).user.role == Student
  {
    EnrollGuarded(req, verify, users);
    AuthenticatedNotAdmin(req.header, verify, users);
  }

  /** No DELETE request reaches a handler, and no route's handler is `deleteCourse`. */
  lemma DeleteUnreachable(path: string, req: Request, verify: string -> Verification, users: map<ObjectId, User>)
    ensures Dispatch(Routes, Delete, path, req, verify, users) == NoRoute
    ensures forall k | k in Routes :: HandlerOf(Routes[k]) != "deleteCourse"
  {
  }
}
