/**
 * The User schema: its validity rules, its normalising setters and defaults,
 * the public projection (`select('-password')`) and the lookups the
 * controllers make in the user collection, which is a map from id to user.
 */
module UserModel {
  import opened Wrappers
  import opened Text
  import opened ObjectIds

  const Student: string := "student"
  const Instructor: string := "instructor"
  /** Named by the route guards, but not a value the schema admits. */
  const Admin: string := "admin"
  /** The schema's role enum. */
  const Roles: seq<string> := [Student, Instructor]
  const MaxNameLength: nat := 100
  const MinPasswordLength: nat := 6

  /** A stored user; `password` holds the digest the save hook wrote. */
  datatype User = User(
    id: ObjectId,
    name: string,
    email: string,
    password: string,
    role: string,
    enrolledCourses: seq<ObjectId>)

  /** A user as every read path but login's returns it: without the password field. */
  datatype Profile = Profile(
    id: ObjectId,
    name: string,
    email: string,
    role: string,
    enrolledCourses: seq<ObjectId>)

  function ProfileOf(u: User): Profile {
    Profile(u.id, u.name, u.email, u.role, u.enrolledCourses)
  }

  /** The `lowercase` and `trim` setters of the email path. */
  function NormalizeEmail(raw: string): (e: string)
    ensures LowerCased(e) && Trimmed(e)
    ensures |e| <= |raw|
  {
    TrimLowerCommute(raw);
    ToLowerLowers(Trim(raw));
    Trim(ToLower(raw))
  }

  /** Normalising an address twice changes nothing more. */
  lemma NormalizeEmailIdempotent(raw: string)
    ensures NormalizeEmail(NormalizeEmail(raw)) == NormalizeEmail(raw)
  {
    var e := NormalizeEmail(raw);
    ToLowerLowers(e);
    TrimOfTrimmed(e);
  }

  /** Two addresses that differ only in letter case and surrounding white space are the same address. */
  lemma NormalizeEmailIgnoresCase(raw: string)
    ensures NormalizeEmail(ToLower(raw)) == NormalizeEmail(raw)
    ensures NormalizeEmail(Trim(raw)) == NormalizeEmail(raw)
  {
    assert ToLower(ToLower(raw)) == ToLower(raw);
    TrimLowerCommute(raw);
    TrimLowerCommute(Trim(raw));
    TrimIdempotent(raw);
  }

  /** name: required, trimmed, at most 100 characters. */
  predicate ValidName(n: string) {
    Trimmed(n) && 0 < |n| <= MaxNameLength
  }

  /** email: required, stored lower-cased and trimmed. */
  predicate ValidEmail(e: string) {
    e != "" && LowerCased(e) && Trimmed(e)
  }

  predicate ValidRole(r: string) {
    r in Roles
  }

  predicate ValidUser(u: User) {
    ValidName(u.name) && ValidEmail(u.email) && ValidRole(u.role)
  }

  /**
   * What `save()` checks again on a user it loaded without the password: name
   * and email required, the name within 100 characters, the role in the enum.
   * The `trim` and `lowercase` setters do not run on loaded values.
   */
  predicate ProfilePassesValidators(p: Profile) {
    0 < |p.name| <= MaxNameLength && p.email != "" && ValidRole(p.role)
  }

  /** A stored user the schema admits passes the validators a later `save()` runs. */
  lemma ValidUserPassesValidators(u: User)
    requires ValidUser(u)
    ensures ProfilePassesValidators(ProfileOf(u))
  {
  }

  /** Every user the collection can hold: keyed by its own id, valid, and no e-mail address used twice (the unique index). */
  predicate ValidStore(users: map<ObjectId, User>) {
    KeyedById(users) && UsersValid(users) && EmailsUnique(users)
  }

  predicate KeyedById(users: map<ObjectId, User>) {
    forall id | id in users :: users[id].id == id
  }

  predicate UsersValid(users: map<ObjectId, User>) {
    forall id | id in users :: ValidUser(users[id])
  }

  predicate EmailsUnique(users: map<ObjectId, User>) {
    forall a, b | a in users && b in users && a != b :: users[a].email != users[b].email
  }

  lemma UpdateKeepsUsersValid(users: map<ObjectId, User>, id: ObjectId, u: User)
    requires KeyedById(users) && UsersValid(users) && u.id == id && ValidUser(u)
    ensures KeyedById(users[id := u]) && UsersValid(users[id := u])
  {
    var after := users[id := u];
    forall a | a in after
      ensures after[a].id == a && ValidUser(after[a])
    {
      if a != id {
        assert after[a] == users[a];
      }
    }
  }

  lemma UpdateKeepsEmailsUnique(users: map<ObjectId, User>, id: ObjectId, u: User)
    requires EmailsUnique(users) && id in users && u.email == users[id].email
    ensures EmailsUnique(users[id := u])
  {
    var after := users[id := u];
    forall a, b | a in after && b in after && a != b
      ensures after[a].email != after[b].email
    {
      assert after[a].email == users[a].email && after[b].email == users[b].email;
    }
  }

  /** Replacing a stored user by a valid one with the same id and e-mail address keeps the collection valid. */
  lemma UpdateKeepsStoreValid(users: map<ObjectId, User>, id: ObjectId, u: User)
    requires ValidStore(users) && id in users
    requires u.id == id && u.email == users[id].email && ValidUser(u)
    ensures ValidStore(users[id := u])
  {
    UpdateKeepsUsersValid(users, id, u);
    UpdateKeepsEmailsUnique(users, id, u);
  }

  lemma InsertKeepsUsersValid(users: map<ObjectId, User>, u: User)
    requires KeyedById(users) && UsersValid(users) && ValidUser(u)
    ensures KeyedById(users[u.id := u]) && UsersValid(users[u.id := u])
  {
    var after := users[u.id := u];
    forall a | a in after
      ensures after[a].id == a && ValidUser(after[a])
    {
      if a != u.id {
        assert after[a] == users[a];
      }
    }
  }

  lemma InsertKeepsEmailsUnique(users: map<ObjectId, User>, u: User)
    requires EmailsUnique(users) && !EmailTaken(users, u.email)
    ensures EmailsUnique(users[u.id := u])
  {
    var after := users[u.id := u];
    forall a, b | a in after && b in after && a != b
      ensures after[a].email != after[b].email
    {
      if a == u.id {
        assert after[b] == users[b];
      } else if b == u.id {
        assert after[a] == users[a];
      } else {
        assert after[a] == users[a] && after[b] == users[b];
      }
    }
  }

  /** Adding a valid user whose address is unused keeps the collection valid. */
  lemma InsertKeepsStoreValid(users: map<ObjectId, User>, u: User)
    requires ValidStore(users) && ValidUser(u) && !EmailTaken(users, u.email)
    ensures ValidStore(users[u.id := u])
  {
    InsertKeepsUsersValid(users, u);
    InsertKeepsEmailsUnique(users, u);
  }

  /** No user the schema admits holds the admin role. */
  lemma NoValidAdmin(u: User)
    requires ValidUser(u)
    ensures u.role != Admin
  {
  }

  /** The body fields `register` passes to `User.create`; an absent role is `None`. */
  datatype SignUp = SignUp(name: string, email: string, password: string, role: Option<string>)

  /** The schema paths a validation error can name. */
  datatype UserPath = NamePath | EmailPath | PasswordPath | RolePath

  /** The role after the default (`student`) and the `trim` setter. */
  function RoleOf(requested: Option<string>): string {
    match requested
    case None => Student
    case Some(r) => Trim(r)
  }

  /** The paths whose validator rejects the sign-up, after the setters have run. */
  function SignUpErrors(s: SignUp): set<UserPath> {
    (if ValidName(Trim(s.name)) then {} else {NamePath})
    + (if NormalizeEmail(s.email) != "" then {} else {EmailPath})
    + (if |s.password| >= MinPasswordLength then {} else {PasswordPath})
    + (if ValidRole(RoleOf(s.role)) then {} else {RolePath})
  }

  /** No path fails exactly when each validator accepts its path. */
  lemma SignUpErrorsNone(s: SignUp)
    ensures SignUpErrors(s) == {} <==>
      && ValidName(Trim(s.name)) && NormalizeEmail(s.email) != ""
      && |s.password| >= MinPasswordLength && ValidRole(RoleOf(s.role))
  {
    if !ValidName(Trim(s.name)) {
      assert NamePath in SignUpErrors(s);
    } else if NormalizeEmail(s.email) == "" {
      assert EmailPath in SignUpErrors(s);
    } else if |s.password| < MinPasswordLength {
      assert PasswordPath in SignUpErrors(s);
    } else if !ValidRole(RoleOf(s.role)) {
      assert RolePath in SignUpErrors(s);
    }
  }

  /**
   * `User.create`: setters, defaults, validation (on the plain password), then
   * the save hook that stores the digest `hash` gives. A new user is enrolled
   * in nothing.
   */
  function CreateUser(s: SignUp, id: ObjectId, hash: string -> string): (r: Result<User, set<UserPath>>)
    ensures r.Ok? <==> SignUpErrors(s) == {}
    ensures r.Err? ==> r.error == SignUpErrors(s) && r.error != {}
    ensures r.Ok? ==> ValidUser(r.value) && r.value.id == id
    ensures r.Ok? ==> r.value.email == NormalizeEmail(s.email) && r.value.name == Trim(s.name)
    ensures r.Ok? ==> r.value.role == RoleOf(s.role)
    ensures r.Ok? ==> r.value.password == hash(s.password) && r.value.enrolledCourses == []
  {
    var errors := SignUpErrors(s);
    if errors != {} then Err(errors)
    else
      Ok(User(id, Trim(s.name), NormalizeEmail(s.email), hash(s.password), RoleOf(s.role), []))
  }

  /** A sign-up without a role yields a student; one that asks for admin is rejected at the role path. */
  lemma CreateUserRoles(s: SignUp, id: ObjectId, hash: string -> string)
    ensures s.role.None? && CreateUser(s, id, hash).Ok? ==> CreateUser(s, id, hash).value.role == Student
    ensures s.role == Some(Admin) ==> CreateUser(s, id, hash).Err? && RolePath in CreateUser(s, id, hash).error
  {
    if s.role == Some(Admin) {
      LiteralRoleTrimmed(Admin);
      assert !ValidRole(RoleOf(s.role));
    }
  }

  lemma LiteralRoleTrimmed(r: string)
    requires r == Admin || r == Student || r == Instructor
    ensures Trim(r) == r
  {
    assert !IsSpace(r[0]) && !IsSpace(r[|r| - 1]);
    TrimOfTrimmed(r);
  }

  /** Anyone may sign up as an instructor: the role is taken from the request. */
  lemma SelfServiceInstructor(name: string, email: string, password: string, id: ObjectId, hash: string -> string)
    requires ValidName(name) && ValidEmail(email) && |password| >= MinPasswordLength
    ensures CreateUser(SignUp(name, email, password, Some(Instructor)), id, hash).Ok?
    ensures CreateUser(SignUp(name, email, password, Some(Instructor)), id, hash).value.role == Instructor
  {
    var s := SignUp(name, email, password, Some(Instructor));
    assert SignUpErrors(s) == {} && RoleOf(s.role) == Instructor by {
      assert ValidName(Trim(name)) by { TrimOfTrimmed(name); }
      assert NormalizeEmail(email) != "" by {
        ToLowerLowers(email);
        TrimOfTrimmed(email);
        assert NormalizeEmail(email) == email;
      }
      LiteralRoleTrimmed(Instructor);
      SignUpErrorsNone(s);
    }
    CreateUserTakesRole(s, id, hash);
  }

  /** A sign-up no validator rejects is created, with the role it asked for. */
  lemma CreateUserTakesRole(s: SignUp, id: ObjectId, hash: string -> string)
    requires SignUpErrors(s) == {}
    ensures CreateUser(s, id, hash).Ok? && CreateUser(s, id, hash).value.role == RoleOf(s.role)
  {
  }

  predicate EmailTaken(users: map<ObjectId, User>, email: string) {
    exists id | id in users :: users[id].email == email
  }

  /** `User.findOne({ email })`: the id of some user with that address, if any. */
  ghost function FindByEmail(users: map<ObjectId, User>, email: string): (r: Option<ObjectId>)
    ensures r.Some? <==> EmailTaken(users, email)
    ensures r.Some? ==> r.value in users && users[r.value].email == email
  {
    if EmailTaken(users, email) then
      var id :| id in users && users[id].email == email;
      Some(id)
    else None
  }

  /** In a valid collection an address names at most one user, so `findOne` finds that one. */
  lemma FindByEmailUnique(users: map<ObjectId, User>, id: ObjectId)
    requires KeyedById(users) && EmailsUnique(users) && id in users
    ensures FindByEmail(users, users[id].email) == Some(id)
  {
  }
}
