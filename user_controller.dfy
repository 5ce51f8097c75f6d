/**
 * The profile handlers: reading one's own profile, the admin listing of all
 * users without passwords, and the allowlisted self-update.
 */
module UserController {
  import opened Wrappers
  import opened Text
  import opened ObjectIds
  import opened UserModel
  import opened Http

  const AllowedUpdates: seq<string> := ["name"]
  const NameKey: string := "name"

  const NoValidFieldsMessage: string := "No valid fields provided for update."
  const ProfileInvalidMessage: string := "Validation failed during profile update."
  const ProfileServerError: string := "Server error updating profile."

  // -------------------------------------------------------------- getMe

  /** `getMe`: the profile `protect` attached, exactly as it is. */
  function GetMe(user: Option<Profile>): (r: Reply)
    ensures r.status == 200 && r.body.ProfileData? && r.body.profile == user
  {
    Reply(200, ProfileData(user))
  }

  // -------------------------------------------------------- getAllUsers

  /** No id is listed twice. */
  predicate Distinct(ids: seq<ObjectId>) {
    forall i, j :: 0 <= i < j < |ids| ==> ids[i] != ids[j]
  }

  /** A sequence without repetitions has as many elements as its set. */
  lemma {:induction false} DistinctCardinality(ids: seq<ObjectId>)
    requires Distinct(ids)
    ensures |set i | i in ids| == |ids|
  {
    if ids != [] {
      var rest := ids[1..];
      assert Distinct(rest) by {
        forall i, j | 0 <= i < j < |rest| ensures rest[i] != rest[j] {
          assert rest[i] == ids[i + 1] && rest[j] == ids[j + 1];
        }
      }
      DistinctCardinality(rest);
      assert (set i | i in ids) == {ids[0]} + (set i | i in rest);
      assert ids[0] !in rest by {
        forall k | 0 <= k < |rest| ensures rest[k] != ids[0] {
          assert rest[k] == ids[k + 1];
        }
      }
    }
  }

  /**
   * `getAllUsers`: every stored user, in the order `find()` returns them
   * (`order`), projected without the password; `count` is the number listed.
   */
  function GetAllUsers(users: map<ObjectId, User>, order: seq<ObjectId>): (r: Reply)
    requires Distinct(order) && (set i | i in order) == users.Keys
    ensures r.status == 200 && r.body.ProfileList?
    ensures r.body.count == |r.body.profiles| == |order| == |users|
    ensures forall i :: 0 <= i < |order| ==> r.body.profiles[i] == ProfileOf(users[order[i]])
    ensures forall id :: id in users ==> ProfileOf(users[id]) in r.body.profiles
  {
    var profiles := seq(|order|, i requires 0 <= i < |order| => ProfileOf(users[order[i]]));
    assert |users| == |order| by {
      DistinctCardinality(order);
      assert users.Keys == set i | i in order;
    }
    assert forall id :: id in users ==> ProfileOf(users[id]) in profiles by {
      forall id | id in users ensures ProfileOf(users[id]) in profiles {
        var k :| 0 <= k < |order| && order[k] == id;
        assert profiles[k] == ProfileOf(users[id]);
      }
    }
    Reply(200, ProfileList(|profiles|, profiles))
  }

  // ------------------------------------------------------------ updateMe

  /**
   * The `updates` object the `forEach` loop builds from the body's entries:
   * an entry whose key is allowlisted is copied, a later entry overwriting an
   * earlier one.
   */
  function FilterUpdates(body: seq<(string, string)>): (r: map<string, string>)
    ensures forall k :: k in r ==> k in AllowedUpdates && (k, r[k]) in body
    ensures forall k :: k in AllowedUpdates ==> (k in r <==> exists i :: 0 <= i < |body| && body[i].0 == k)
    ensures body != [] && body[|body| - 1].0 in AllowedUpdates ==> r[body[|body| - 1].0] == body[|body| - 1].1
  {
    if body == [] then map[]
    else
      var front := body[..|body| - 1];
      var (key, value) := body[|body| - 1];
      var r := FilterUpdates(front);
      assert forall e :: e in front ==> e in body;
      assert forall i :: 0 <= i < |front| ==> front[i] == body[i];
      if key in AllowedUpdates then r[key := value] else r
  }

  /** Keys outside the allowlist, such as role, email or password, never reach the update. */
  lemma OnlyNameIsCopied(body: seq<(string, string)>)
    ensures FilterUpdates(body).Keys <= {NameKey}
    ensures FilterUpdates(body) == map[] <==> forall i :: 0 <= i < |body| ==> body[i].0 != NameKey
  {
    var r := FilterUpdates(body);
    assert forall k :: k in AllowedUpdates <==> k == NameKey;
    assert NameKey in r <==> exists i :: 0 <= i < |body| && body[i].0 == NameKey;
    if r != map[] {
      var k :| k in r;
      assert k == NameKey;
    }
  }

  /** The `forEach` over `Object.keys(req.body)`, filling `updates`. */
  method CollectUpdates(body: seq<(string, string)>) returns (updates: map<string, string>)
    ensures updates == FilterUpdates(body)
  {
    updates := map[];
    var i := 0;
    while i < |body|
      invariant 0 <= i <= |body|
      invariant updates == FilterUpdates(body[..i])
    {
      var (key, value) := body[i];
      assert body[..i + 1][..i] == body[..i];
      if key in AllowedUpdates {
        updates := updates[key := value];
      }
      i := i + 1;
    }
    assert body[..i] == body;
  }

  /** `Object.assign(req.user, updates)` through the `trim` setter of `name`. */
  function AssignUpdates(p: Profile, updates: map<string, string>): (q: Profile)
    ensures q.id == p.id && q.email == p.email && q.role == p.role && q.enrolledCourses == p.enrolledCourses
    ensures NameKey in updates ==> q.name == Trim(updates[NameKey])
    ensures NameKey !in updates ==> q == p
  {
    if NameKey in updates then p.(name := Trim(updates[NameKey])) else p
  }

  /**
   * `updateMe`: 400 when nothing allowlisted was sent; otherwise assign to
   * `req.user` and save, which runs every validator of the loaded document,
   * so a bad name, an empty e-mail or a role outside the enum is a 400, and
   * fails when the caller's document is gone (500).
   */
  function UpdateMeSpec(s: State, body: seq<(string, string)>): (r: Step)
    ensures FilterUpdates(body) == map[] ==> r == Step(Reply(400, Message(NoValidFieldsMessage)), s)
    ensures r.reply.status == 200 <==>
      FilterUpdates(body) != map[] && s.caller.Some? && s.caller.value.id in s.users
      && ValidName(Trim(FilterUpdates(body)[NameKey]))
      && s.caller.value.email != "" && ValidRole(s.caller.value.role)
    ensures r.reply.status == 200 ==>
      var id := s.caller.value.id;
      var name := Trim(FilterUpdates(body)[NameKey]);
      && r.after.users == s.users[id := s.users[id].(name := name)]
      && r.after.caller == Some(s.caller.value.(name := name))
      && r.reply.body == ProfileData(r.after.caller)
    ensures FilterUpdates(body) != map[] && s.caller.None? ==> r == Step(Reply(500, Message(ProfileServerError)), s)
    ensures FilterUpdates(body) != map[] && s.caller.Some? && !ProfilePassesValidators(AssignUpdates(s.caller.value, FilterUpdates(body))) ==>
      r == Step(Reply(400, Message(ProfileInvalidMessage)), s.(caller := Some(AssignUpdates(s.caller.value, FilterUpdates(body)))))
    ensures (FilterUpdates(body) != map[] && s.caller.Some? && ProfilePassesValidators(AssignUpdates(s.caller.value, FilterUpdates(body)))
      && s.caller.value.id !in s.users) ==>
      r == Step(Reply(500, Message(ProfileServerError)), s.(caller := Some(AssignUpdates(s.caller.value, FilterUpdates(body)))))
    ensures r.reply.status != 200 ==> r.after.users == s.users
    ensures r.after.courses == s.courses
  {
    var updates := FilterUpdates(body);
    if updates == map[] then Step(Reply(400, Message(NoValidFieldsMessage)), s)
    else if s.caller.None? then Step(Reply(500, Message(ProfileServerError)), s)
    else
      OnlyNameIsCopied(body);
      SaveProfileStep(s, AssignUpdates(s.caller.value, updates))
  }

  /**
   * `req.user.save()` after the assignment: `req.user` already holds the
   * assigned profile; the validators of the loaded document run first (400),
   * then the name is written to the stored user, which must still exist (500).
   */
  function SaveProfileStep(s: State, p: Profile): Step {
    var renamed := State(s.users, s.courses, Some(p));
    if !ProfilePassesValidators(p) then Step(Reply(400, Message(ProfileInvalidMessage)), renamed)
    else if p.id !in s.users then Step(Reply(500, Message(ProfileServerError)), renamed)
    else Step(Reply(200, ProfileData(Some(p))), renamed.(users := s.users[p.id := s.users[p.id].(name := p.name)]))
  }

  /** A self-update changes only the caller's name: no role, e-mail, password or enrolment, and no other user. */
  lemma UpdateMeOnlyChangesName(s: State, body: seq<(string, string)>)
    ensures var after := UpdateMeSpec(s, body).after.users;
      && after.Keys == s.users.Keys
      && forall id | id in s.users ::
           && after[id].role == s.users[id].role
           && after[id].email == s.users[id].email
           && after[id].password == s.users[id].password
           && after[id].enrolledCourses == s.users[id].enrolledCourses
           && (s.caller.None? || id != s.caller.value.id ==> after[id] == s.users[id])
  {
  }

  /** However the body is crafted, a self-update cannot make the caller an instructor or an admin. */
  lemma NoSelfPromotion(s: State, body: seq<(string, string)>)
    requires s.caller.Some?
    ensures UpdateMeSpec(s, body).after.caller.Some?
    ensures UpdateMeSpec(s, body).after.caller.value.role == s.caller.value.role
  {
  }

  /**
   * A caller whose loaded document no longer passes its own validators (here
   * a role the enum does not admit) cannot rename itself: the save is refused
   * with 400 and nothing is stored.
   */
  lemma StoredAdminCannotRename(s: State, body: seq<(string, string)>)
    requires s.caller.Some? && s.caller.value.role == Admin
    requires FilterUpdates(body) != map[]
    ensures UpdateMeSpec(s, body).reply == Reply(400, Message(ProfileInvalidMessage))
    ensures UpdateMeSpec(s, body).after.users == s.users
  {
    assert !ValidRole(Admin);
  }

  /** A self-update keeps the user collection valid. */
  lemma UpdateMeKeepsStoreValid(s: State, body: seq<(string, string)>)
    requires ValidStore(s.users)
    ensures ValidStore(UpdateMeSpec(s, body).after.users)
  {
    var r := UpdateMeSpec(s, body);
    if r.reply.status == 200 {
      var id := s.caller.value.id;
      var u := s.users[id];
      var name := Trim(FilterUpdates(body)[NameKey]);
      assert ValidUser(u);
      UpdateKeepsStoreValid(s.users, id, u.(name := name));
    }
  }

  method UpdateMe(db: Db, ex: Exchange, body: seq<(string, string)>)
    modifies db`users
    modifies ex`user, ex`reply
    ensures var r := UpdateMeSpec(old(Snapshot(db, ex)), body);
      ex.reply == Some(r.reply) && Snapshot(db, ex) == r.after
    ensures old(db.Valid()) ==> db.Valid()
  {
    ghost var s := Snapshot(db, ex);
    ghost var r := UpdateMeSpec(s, body);
    if db.Valid() {
      UpdateMeKeepsStoreValid(s, body);
    }
    var updates := CollectUpdates(body);
    if updates == map[] {
      ex.reply := Some(Reply(400, Message(NoValidFieldsMessage)));
      return;
    }
    if ex.user.None? {
      ex.reply := Some(Reply(500, Message(ProfileServerError)));
      return;
    }
    OnlyNameIsCopied(body);
    var p := ex.user.value;
    p := p.(name := Trim(updates[NameKey]));
    assert r == SaveProfileStep(s, p);
    ex.user := Some(p);
    SaveProfile(db, ex);
  }

  /** `req.user.save()`: the handler's reply and write follow `SaveProfileStep`. */
  method SaveProfile(db: Db, ex: Exchange)
    requires ex.user.Some?
    modifies db`users
    modifies ex`reply
    ensures var r := SaveProfileStep(old(Snapshot(db, ex)), old(ex.user.value));
      ex.reply == Some(r.reply) && Snapshot(db, ex) == r.after
  {
    var p := ex.user.value;
    if !ProfilePassesValidators(p) {
      ex.reply := Some(Reply(400, Message(ProfileInvalidMessage)));
      return;
    }
    if p.id !in db.users {
      ex.reply := Some(Reply(500, Message(ProfileServerError)));
      return;
    }
    db.users := db.users[p.id := db.users[p.id].(name := p.name)];
    ex.reply := Some(Reply(200, ProfileData(Some(p))));
  }
}
