/**
 * What the handlers read and write: the response a handler sends, the
 * per-request exchange (`req.user`, the response, calls of `next`) and the
 * two collections of the database.
 */
module Http {
  import opened Wrappers
  import opened ObjectIds
  import opened UserModel
  import opened CourseModel
  import opened Tokens

  /** The user summary that register and login return: id, name, email and role, nothing else. */
  datatype Summary = Summary(id: ObjectId, name: string, email: string, role: string)

  function SummaryOf(u: User): Summary {
    Summary(u.id, u.name, u.email, u.role)
  }

  /** The JSON body of a response, reduced to the part the model follows. */
  datatype Body =
    | Message(text: string)
    | FieldErrors(errors: seq<string>)
    | ProfileData(profile: Option<Profile>)
    | ProfileList(count: nat, profiles: seq<Profile>)
    | Session(token: Token, user: Summary)
    | CourseData(course: Course)
    | CourseList(count: nat, total: nat, page: Option<int>, limit: Option<int>, courses: seq<Course>)

  datatype Reply = Reply(status: int, body: Body)

  /** The state a handler sees and leaves: both collections and `req.user`. */
  datatype State = State(users: map<ObjectId, User>, courses: map<ObjectId, Course>, caller: Option<Profile>)

  /** A handler's effect: the response it sends and the state it leaves. */
  datatype Step = Step(reply: Reply, after: State)

  /** One request/response cycle. */
  class Exchange {
    /** `req.user`, set by `protect`. */
    var user: Option<Profile>
    /** The response sent so far, if any. */
    var reply: Option<Reply>
    /** How many times the middleware called `next`. */
    var nextCalls: nat

    constructor ()
      ensures user == None && reply == None && nextCalls == 0
    {
      user := None;
      reply := None;
      nextCalls := 0;
    }
  }

  /** The two collections, as maps from id to document. */
  class Db {
    var users: map<ObjectId, User>
    var courses: map<ObjectId, Course>

    /** What the schemas and unique indexes guarantee of the stored documents. */
    ghost predicate Valid()
      reads this
    {
      ValidStore(users) && ValidCatalogue(courses)
    }

    constructor (users: map<ObjectId, User>, courses: map<ObjectId, Course>)
      ensures this.users == users && this.courses == courses
    {
      this.users := users;
      this.courses := courses;
    }
  }

  function Snapshot(db: Db, ex: Exchange): State
    reads db, ex
  {
    State(db.users, db.courses, ex.user)
  }
}
