/**
 * Registration and login. Request validation (the express-validator chain),
 * password hashing and comparison are given to the handlers: the list of
 * validation messages, `hash` for the save hook, and `matches` for
 * `comparePassword`.
 */
module AuthController {
  import opened Wrappers
  import opened Text
  import opened ObjectIds
  import opened UserModel
  import opened Tokens
  import opened Http

  const EmailRegisteredMessage: string := "Email already registered."
  const RegisterServerError: string := "Server error during registration."
  const InvalidCredentialsMessage: string := "Invalid credentials."

  // ------------------------------------------------------------- register

  /**
   * `register`: validation messages first (400), then the e-mail lookup, whose
   * filter the schema's setters normalise (400 when taken), then `User.create`,
   * whose failure is a 500; on success 201 with a token for the new id.
   * `newId` is the fresh id the database assigns.
   */
  function RegisterSpec(s: State, errors: seq<string>, form: SignUp, newId: ObjectId,
                        hash: string -> string, lifetime: Option<string>): (r: Step)
    requires newId !in s.users
    ensures errors != [] ==> r == Step(Reply(400, FieldErrors(errors)), s)
    ensures errors == [] && EmailTaken(s.users, NormalizeEmail(form.email)) ==>
      r == Step(Reply(400, Message(EmailRegisteredMessage)), s)
    ensures r.reply.status == 201 <==>
      errors == [] && !EmailTaken(s.users, NormalizeEmail(form.email)) && CreateUser(form, newId, hash).Ok?
    ensures r.reply.status == 201 ==>
      var u := CreateUser(form, newId, hash).value;
      && r.after.users == s.users[newId := u]
      && r.reply.body == Session(GenerateToken(newId, lifetime), SummaryOf(u))
    ensures r.reply.status != 201 ==> r.after == s
    ensures r.after.courses == s.courses && r.after.caller == s.caller
  {
    if errors != [] then Step(Reply(400, FieldErrors(errors)), s)
    else if EmailTaken(s.users, NormalizeEmail(form.email)) then Step(Reply(400, Message(EmailRegisteredMessage)), s)
    else
      match CreateUser(form, newId, hash)
      case Err(_) => Step(Reply(500, Message(RegisterServerError)), s)
      case Ok(u) => Step(Reply(201, Session(GenerateToken(u.id, lifetime), SummaryOf(u))), s.(users := s.users[newId := u]))
  }

  /** Registration keeps every address unique and every stored user valid. */
  lemma RegisterKeepsStoreValid(s: State, errors: seq<string>, form: SignUp, newId: ObjectId,
                                hash: string -> string, lifetime: Option<string>)
    requires ValidStore(s.users) && newId !in s.users
    ensures ValidStore(RegisterSpec(s, errors, form, newId, hash, lifetime).after.users)
  {
    var r := RegisterSpec(s, errors, form, newId, hash, lifetime);
    if r.reply.status == 201 {
      var u := CreateUser(form, newId, hash).value;
      InsertKeepsStoreValid(s.users, u);
    }
  }

  method Register(db: Db, ex: Exchange, errors: seq<string>, form: SignUp, newId: ObjectId,
                  hash: string -> string, lifetime: Option<string>)
    requires newId !in db.users
    modifies db`users
    modifies ex`reply
    ensures var r := RegisterSpec(old(Snapshot(db, ex)), errors, form, newId, hash, lifetime);
      ex.reply == Some(r.reply) && Snapshot(db, ex) == r.after
  {
    ghost var s := Snapshot(db, ex);
    ghost var r := RegisterSpec(s, errors, form, newId, hash, lifetime);
    if errors != [] {
      ex.reply := Some(Reply(400, FieldErrors(errors)));
      return;
    }
    if EmailTaken(db.users, NormalizeEmail(form.email)) {
      ex.reply := Some(Reply(400, Message(EmailRegisteredMessage)));
      return;
    }
    AccountStep(s, form, newId, hash, lifetime);
    CreateAccount(db, ex, form, newId, hash, lifetime);
    assert db.courses == s.courses && ex.user == s.caller;
    assert db.users == r.after.users;
  }

  /** The `User.create` step of `register`: a 500 when validation fails, else the insert and a 201 with a token. */
  method CreateAccount(db: Db, ex: Exchange, form: SignUp, newId: ObjectId,
                       hash: string -> string, lifetime: Option<string>)
    modifies db`users
    modifies ex`reply
    ensures var created := CreateUser(form, newId, hash);
      if created.Ok? then
        && db.users == old(db.users)[newId := created.value]
        && ex.reply == Some(Reply(201, Session(GenerateToken(newId, lifetime), SummaryOf(created.value))))
      else
        db.users == old(db.users) && ex.reply == Some(Reply(500, Message(RegisterServerError)))
  {
    var created := CreateUser(form, newId, hash);
    if created.Err? {
      ex.reply := Some(Reply(500, Message(RegisterServerError)));
      return;
    }
    var user := created.value;
    db.users := db.users[newId := user];
    ex.reply := Some(Reply(201, Session(GenerateToken(user.id, lifetime), SummaryOf(user))));
  }

  /** What `register` answers once validation passed and the address is free. */
  lemma AccountStep(s: State, form: SignUp, newId: ObjectId, hash: string -> string, lifetime: Option<string>)
    requires newId !in s.users && !EmailTaken(s.users, NormalizeEmail(form.email))
    ensures CreateUser(form, newId, hash).Err? ==>
      RegisterSpec(s, [], form, newId, hash, lifetime) == Step(Reply(500, Message(RegisterServerError)), s)
    ensures CreateUser(form, newId, hash).Ok? ==>
      var u := CreateUser(form, newId, hash).value;
      RegisterSpec(s, [], form, newId, hash, lifetime)
        == Step(Reply(201, Session(GenerateToken(newId, lifetime), SummaryOf(u))), s.(users := s.users[newId := u]))
  {
  }

  // ---------------------------------------------------------------- login

  /**
   * `login`: validation messages first; then the user with the normalised
   * address and a password check. An unknown address and a wrong password get
   * the same 400; success is a 200 with a token for the user's id. Nothing is
   * written.
   */
  ghost function LoginSpec(users: map<ObjectId, User>, errors: seq<string>, email: string, password: string,
                           matches: (string, string) -> bool, lifetime: Option<string>): (r: Reply)
    requires KeyedById(users) && EmailsUnique(users)
    ensures errors != [] ==> r == Reply(400, FieldErrors(errors))
    ensures r.status == 200 <==>
      errors == [] && exists id :: id in users && users[id].email == NormalizeEmail(email)
                                 && matches(password, users[id].password)
    ensures errors == [] && r.status != 200 ==> r == Reply(400, Message(InvalidCredentialsMessage))
    ensures r.status == 200 ==>
      r.body.Session? && r.body.user.id in users
      && r.body.user == SummaryOf(users[r.body.user.id])
      && r.body.token == GenerateToken(r.body.user.id, lifetime)
      && users[r.body.user.id].email == NormalizeEmail(email)
      && matches(password, users[r.body.user.id].password)
  {
    if errors != [] then Reply(400, FieldErrors(errors))
    else
      match FindByEmail(users, NormalizeEmail(email))
      case None => Reply(400, Message(InvalidCredentialsMessage))
      case Some(id) =>
        if !matches(password, users[id].password) then
          Reply(400, Message(InvalidCredentialsMessage))
        else Reply(200, Session(GenerateToken(id, lifetime), SummaryOf(users[id])))
  }

  /**
   * Whether the address is unknown or the password wrong, the reply is the
   * same, so a failed login does not reveal which addresses are registered.
   */
  lemma LoginFailureUniform(users: map<ObjectId, User>, email1: string, password1: string,
                            email2: string, password2: string,
                            matches: (string, string) -> bool, lifetime: Option<string>)
    requires KeyedById(users) && EmailsUnique(users)
    requires !EmailTaken(users, NormalizeEmail(email1))
    requires EmailTaken(users, NormalizeEmail(email2))
    requires forall id | id in users && users[id].email == NormalizeEmail(email2) :: !matches(password2, users[id].password)
    ensures LoginSpec(users, [], email1, password1, matches, lifetime)
         == LoginSpec(users, [], email2, password2, matches, lifetime)
         == Reply(400, Message(InvalidCredentialsMessage))
  {
  }

  /** A registered address with the right password logs in as exactly that user. */
  lemma LoginFindsUser(users: map<ObjectId, User>, id: ObjectId, email: string, password: string,
                       matches: (string, string) -> bool, lifetime: Option<string>)
    requires KeyedById(users) && EmailsUnique(users)
    requires id in users && users[id].email == NormalizeEmail(email) && matches(password, users[id].password)
    ensures var r := LoginSpec(users, [], email, password, matches, lifetime);
      r.status == 200 && r.body.user == SummaryOf(users[id]) && r.body.token == GenerateToken(id, lifetime)
  {
    var r := LoginSpec(users, [], email, password, matches, lifetime);
    var found := r.body.user.id;
    assert users[found].email == users[id].email;
  }

  /**
   * Registering and then logging in with the same address and password gives
   * a token for the new user, provided the password check accepts what the
   * save hook stored.
   */
  lemma RegisterThenLogin(s: State, form: SignUp, newId: ObjectId, hash: string -> string,
                          matches: (string, string) -> bool, lifetime: Option<string>)
    requires ValidStore(s.users) && newId !in s.users
    requires matches(form.password, hash(form.password))
    requires RegisterSpec(s, [], form, newId, hash, lifetime).reply.status == 201
    ensures ValidStore(RegisterSpec(s, [], form, newId, hash, lifetime).after.users)
    ensures var after := RegisterSpec(s, [], form, newId, hash, lifetime).after.users;
      var r := LoginSpec(after, [], form.email, form.password, matches, lifetime);
      r.status == 200 && r.body.user.id == newId && r.body.token.id == newId
  {
    var after := RegisterSpec(s, [], form, newId, hash, lifetime).after.users;
    var u := CreateUser(form, newId, hash).value;
    assert after == s.users[newId := u];
    assert u.email == NormalizeEmail(form.email) && u.password == hash(form.password) && u.id == newId;
    RegisterKeepsStoreValid(s, [], form, newId, hash, lifetime);
    LoginFindsUser(after, newId, form.email, form.password, matches, lifetime);
  }

  method Login(db: Db, ex: Exchange, errors: seq<string>, email: string, password: string,
               matches: (string, string) -> bool, lifetime: Option<string>)
    requires KeyedById(db.users) && EmailsUnique(db.users)
    modifies ex`reply
    ensures ex.reply == Some(LoginSpec(db.users, errors, email, password, matches, lifetime))
  {
    if errors != [] {
      ex.reply := Some(Reply(400, FieldErrors(errors)));
      return;
    }
    var address := NormalizeEmail(email);
    if !EmailTaken(db.users, address) {
      ex.reply := Some(Reply(400, Message(InvalidCredentialsMessage)));
      return;
    }
    var id :| id in db.users && db.users[id].email == address;
    FindByEmailUnique(db.users, id);
    var user := db.users[id];
    if !matches(password, user.password) {
      ex.reply := Some(Reply(400, Message(InvalidCredentialsMessage)));
      return;
    }
    ex.reply := Some(Reply(200, Session(GenerateToken(user.id, lifetime), SummaryOf(user))));
  }
}
