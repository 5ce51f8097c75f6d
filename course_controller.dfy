/**
 * The course handlers: listing with filter and pagination, reading one course,
 * creating, updating and deleting with the ownership rule, and enrolling.
 */
module CourseController {
  import opened Wrappers
  import opened Text
  import opened ObjectIds
  import opened UserModel
  import opened CourseModel
  import opened Http

  const InvalidIdMessage: string := "Invalid Course ID format."
  const NotFoundMessage: string := "Course not found."
  const UpdateForbiddenMessage: string := "Forbidden: You are not authorized to update this course."
  const DeleteForbiddenMessage: string := "Forbidden: You are not authorized to delete this course."
  const AlreadyEnrolledMessage: string := "You are already enrolled in this course."
  const EnrolledMessage: string := "Enrolled successfully."
  const DeletedMessage: string := "Course deleted successfully."
  const CreateInvalidMessage: string := "Validation failed."
  const UpdateInvalidMessage: string := "Validation failed during update."
  const ListServerError: string := "Server error retrieving courses."
  const ReadServerError: string := "Server error retrieving course."
  const CreateServerError: string := "Server error creating course."
  const UpdateServerError: string := "Server error updating course."
  const DeleteServerError: string := "Server error deleting course."
  const EnrollServerError: string := "Server error during enrollment."

  const DefaultPage: nat := 1
  const DefaultLimit: nat := 10

  // ---------------------------------------------------------------- listing

  /** A query-string value counts only when present and non-empty (JavaScript truthiness). */
  predicate Supplied(s: Option<string>) {
    s.Some? && s.value != ""
  }

  /** The listing filter: `published` is always required; category and instructor when supplied. */
  datatype Filter = Filter(published: bool, category: Option<string>, instructor: Option<string>)

  /** Whether the database selects a course with this filter (the instructor text is cast to an id). */
  predicate Selects(f: Filter, c: Course) {
    && c.published == f.published
    && (f.category.Some? ==> c.category == f.category.value)
    && (f.instructor.Some? ==> Parse(f.instructor.value) == Some(c.instructor))
  }

  /** The filter `getCourses` builds for the category and instructor of the query. */
  function QueryFilter(category: Option<string>, instructor: Option<string>): (f: Filter)
    ensures f.published
    ensures f.instructor.Some? <==> Supplied(instructor)
    ensures forall c: Course {:trigger Selects(f, c)} :: Selects(f, c) <==>
      && c.published
      && (Supplied(category) ==> c.category == category.value)
      && (Supplied(instructor) ==> Parse(instructor.value) == Some(c.instructor))
  {
    Filter(true, if Supplied(category) then category else None, if Supplied(instructor) then instructor else None)
  }

  /** Builds the filter the way `getCourses` does, adding fields to it one by one. */
  method BuildFilter(category: Option<string>, instructor: Option<string>) returns (filter: Filter)
    ensures filter == QueryFilter(category, instructor)
  {
    filter := Filter(true, None, None);
    if Supplied(category) {
      filter := filter.(category := category);
    }
    if Supplied(instructor) {
      filter := filter.(instructor := instructor);
    }
  }

  /** Page number, page size and skip, each `None` where `parseInt` yields NaN. */
  datatype Pagination = Pagination(page: Option<int>, pageSize: Option<int>, skip: Option<int>)

  /**
   * `parseInt` of a query value; an absent value takes the numeric default,
   * which `parseInt` returns unchanged.
   */
  function NumberParam(s: Option<string>, default: nat): Option<int> {
    match s
    case None => Some(default)
    case Some(t) => ParseInt(t)
  }

  /** `skip = (page - 1) * pageSize` of the parsed numbers; NaN when either is. */
  function PaginationOf(pageNumber: Option<int>, pageSize: Option<int>): (p: Pagination)
    ensures p.page == pageNumber && p.pageSize == pageSize
    ensures p.skip.Some? <==> pageNumber.Some? && pageSize.Some?
    ensures p.skip.Some? ==> p.skip.value == (pageNumber.value - 1) * pageSize.value
  {
    var skip := if pageNumber.Some? && pageSize.Some? then Some((pageNumber.value - 1) * pageSize.value) else None;
    Pagination(pageNumber, pageSize, skip)
  }

  /** `pageSize = parseInt(limit)`, `skip = (parseInt(page) - 1) * pageSize`. */
  function Paginate(page: Option<string>, limit: Option<string>): (p: Pagination)
    ensures p == PaginationOf(p.page, p.pageSize)
    ensures page.None? ==> p.page == Some(DefaultPage)
    ensures limit.None? ==> p.pageSize == Some(DefaultLimit)
    ensures page.Some? ==> p.page == ParseInt(page.value)
    ensures limit.Some? ==> p.pageSize == ParseInt(limit.value)
  {
    PaginationOf(NumberParam(page, DefaultPage), NumberParam(limit, DefaultLimit))
  }

  /** Without page or limit the first ten courses are listed: skip 0, limit 10. */
  lemma DefaultPagination()
    ensures Paginate(None, None) == Pagination(Some(1), Some(10), Some(0))
  {
  }

  /** Page n + 1 starts exactly one page size after page n. */
  lemma NextPageSkip(n: int, size: int)
    ensures PaginationOf(Some(n + 1), Some(size)).skip == Some(PaginationOf(Some(n), Some(size)).skip.value + size)
  {
    assert (n + 1 - 1) * size == (n - 1) * size + size;
  }

  /** The courses of `sorted` (the collection in the order `sort` gives) that the filter and text search select. */
  function Matching(sorted: seq<Course>, f: Filter, search: Option<set<ObjectId>>): (m: seq<Course>)
    ensures |m| <= |sorted|
    ensures forall c :: c in m <==> c in sorted && Selects(f, c) && (search.Some? ==> c.id in search.value)
  {
    if sorted == [] then []
    else
      var c := sorted[0];
      var rest := Matching(sorted[1..], f, search);
      if Selects(f, c) && (search.None? || c.id in search.value) then [c] + rest else rest
  }

  /**
   * The selection keeps the sort order: matching the concatenation of two
   * runs is matching each run in turn, so a course listed before another in
   * `sorted` is listed before it in the result.
   */
  lemma {:induction false} MatchingKeepsOrder(a: seq<Course>, b: seq<Course>, f: Filter, search: Option<set<ObjectId>>)
    ensures Matching(a + b, f, search) == Matching(a, f, search) + Matching(b, f, search)
  {
    if a == [] {
      assert a + b == b;
    } else {
      assert (a + b)[0] == a[0];
      assert (a + b)[1..] == a[1..] + b;
      MatchingKeepsOrder(a[1..], b, f, search);
    }
  }

  /** The number of documents a `limit(n)` lets through: MongoDB reads a negative limit as its magnitude. */
  function Magnitude(limit: int): nat {
    if limit < 0 then -limit else limit
  }

  /**
   * MongoDB's `skip(s).limit(n)`: nothing past the end, everything from the
   * skip on when the limit is 0 or reaches the end, else exactly |n| elements.
   */
  function Window<T>(s: seq<T>, skip: nat, limit: int): (w: seq<T>)
    ensures |w| <= |s|
    ensures skip >= |s| ==> w == []
    ensures skip < |s| && (limit == 0 || skip + Magnitude(limit) >= |s|) ==> w == s[skip..]
    ensures skip < |s| && limit != 0 && skip + Magnitude(limit) < |s| ==> w == s[skip..skip + Magnitude(limit)]
  {
    var rest := if skip <= |s| then s[skip..] else [];
    var n := Magnitude(limit);
    if n == 0 || n >= |rest| then rest else rest[..n]
  }

  /** Two consecutive pages of size n are the page of size 2n: paging neither skips nor repeats a course. */
  lemma PagesTile<T>(s: seq<T>, skip: nat, n: nat)
    requires n > 0
    ensures Window(s, skip, n) + Window(s, skip + n, n) == Window(s, skip, 2 * n)
  {
    if skip + n <= |s| {
      assert s[skip..][..n] + s[skip + n..] == s[skip..];
      if 2 * n < |s| - skip {
        assert s[skip..][..n] + s[skip + n..][..n] == s[skip..][..2 * n];
      }
    }
  }

  /** The result `getCourses` assembles, or the failure of its query. */
  datatype Listing = Listing(total: nat, page: Option<int>, limit: Option<int>, courses: seq<Course>) | ListingFailed

  /** `search` for the query: the ids the text index matches, when `q` is supplied. */
  function Search(q: Option<string>, hits: set<ObjectId>): Option<set<ObjectId>> {
    if Supplied(q) then Some(hits) else None
  }

  /** A text search can only narrow the selection. */
  lemma {:induction false} SearchNarrows(sorted: seq<Course>, f: Filter, hits: set<ObjectId>)
    ensures |Matching(sorted, f, Some(hits))| <= |Matching(sorted, f, None)|
  {
    if sorted != [] {
      SearchNarrows(sorted[1..], f, hits);
    }
  }

  /**
   * `countDocuments(filter)` as written: `filter` never receives the text
   * condition, so the search is ignored and the total can only over-count.
   */
  function ListingTotalAsWritten(sorted: seq<Course>, f: Filter, search: Option<set<ObjectId>>): (n: nat)
    ensures n >= ListingTotal(sorted, f, search)
    ensures search.None? ==> n == ListingTotal(sorted, f, search)
  {
    match search
    case None => |Matching(sorted, f, None)|
    case Some(hits) =>
      SearchNarrows(sorted, f, hits);
      |Matching(sorted, f, None)|
  }

  /** The total the pagination metadata is meant to give: how many courses the search selects. */
  function ListingTotal(sorted: seq<Course>, f: Filter, search: Option<set<ObjectId>>): nat {
    |Matching(sorted, f, search)|
  }

  /**
   * The query of `getCourses`: an instructor that is not an id, a negative
   * skip or a NaN page or limit makes it fail; otherwise one window of the
   * selected courses and the total.
   */
  function ListCourses(sorted: seq<Course>, f: Filter, search: Option<set<ObjectId>>, p: Pagination): (l: Listing)
    ensures l.Listing? ==> |l.courses| <= l.total
    ensures l.Listing? ==> forall c :: c in l.courses ==> Selects(f, c) && (search.Some? ==> c.id in search.value)
    ensures l.Listing? ==> l.page == p.page && l.limit == p.pageSize
    ensures l.Listing? <==>
      && (f.instructor.Some? ==> Parse(f.instructor.value).Some?)
      && p.pageSize.Some? && p.skip.Some? && p.skip.value >= 0
    ensures l.Listing? ==> l.total == ListingTotal(sorted, f, search)
    ensures l.Listing? ==> l.courses == Window(Matching(sorted, f, search), p.skip.value, p.pageSize.value)
  {
    if f.instructor.Some? && Parse(f.instructor.value).None? then ListingFailed
    else if p.pageSize.None? || p.skip.None? || p.skip.value < 0 then ListingFailed
    else
      var m := Matching(sorted, f, search);
      var w := Window(m, p.skip.value, p.pageSize.value);
      assert forall c :: c in w ==> c in m by {
        var rest := if p.skip.value <= |m| then m[p.skip.value..] else [];
        assert forall c :: c in rest ==> c in m;
      }
      Listing(ListingTotal(sorted, f, search), p.page, p.pageSize, w)
  }

  /** With `limit=0` one page holds every selected course, so its count is the total. */
  lemma UnlimitedPageCountsTotal(sorted: seq<Course>, f: Filter, search: Option<set<ObjectId>>)
    requires f.instructor.Some? ==> Parse(f.instructor.value).Some?
    ensures var l := ListCourses(sorted, f, search, Pagination(Some(1), Some(0), Some(0)));
      l.Listing? && |l.courses| == l.total
  {
  }

  /**
   * As written, the total ignores the text search: with two published courses
   * and a search matching one, a page without limit lists one course but
   * reports a total of two.
   */
  lemma TotalAsWrittenIgnoresSearch(a: Course, b: Course)
    requires a.published && b.published && a.id != b.id
    ensures var f := Filter(true, None, None);
      var l := ListCourses([a, b], f, Some({a.id}), Pagination(Some(1), Some(0), Some(0)));
      l.Listing? && |l.courses| == l.total == 1 && ListingTotalAsWritten([a, b], f, Some({a.id})) == 2
  {
    var f := Filter(true, None, None);
    assert Matching([b], f, Some({a.id})) == [];
    assert Matching([a, b], f, Some({a.id})) == [a];
    assert Matching([b], f, None) == [b];
  }

  /** The response of `getCourses`: 200 with the page and its metadata, or 500 when the query failed. */
  function ListingReply(l: Listing): (r: Reply)
    ensures r.status == 200 <==> l.Listing?
    ensures r.status == 500 <==> l.ListingFailed?
    ensures l.Listing? ==> r.body.CourseList? && r.body.courses == l.courses && r.body.total == l.total
  {
    match l
    case ListingFailed => Reply(500, Message(ListServerError))
    case Listing(total, page, limit, courses) => Reply(200, CourseList(|courses|, total, page, limit, courses))
  }

  /** The query parameters of `GET /api/courses`. */
  datatype ListingQuery = ListingQuery(
    q: Option<string>,
    category: Option<string>,
    instructor: Option<string>,
    page: Option<string>,
    limit: Option<string>)

  /**
   * `getCourses`. `sorted` is the collection in the order the `sort` parameter
   * gives and `hits` the ids the text index matches for `q`.
   */
  method GetCourses(ex: Exchange, query: ListingQuery, sorted: seq<Course>, hits: set<ObjectId>)
    modifies ex`reply
    ensures ex.reply.Some? && (ex.reply.value.status == 200 || ex.reply.value.status == 500)
    ensures ex.reply.value.status == 200 ==>
      var b := ex.reply.value.body;
      && b.CourseList? && b.count == |b.courses| <= b.total
      && b.page == Paginate(query.page, query.limit).page
      && b.limit == Paginate(query.page, query.limit).pageSize
      && forall c :: c in b.courses ==> c.published && (Supplied(query.category) ==> c.category == query.category.value)
    ensures ex.reply == Some(ListingReply(ListCourses(
      sorted, QueryFilter(query.category, query.instructor), Search(query.q, hits), Paginate(query.page, query.limit))))
  {
    var filter := BuildFilter(query.category, query.instructor);
    var pagination := Paginate(query.page, query.limit);
    var listing := ListCourses(sorted, filter, Search(query.q, hits), pagination);
    ex.reply := Some(ListingReply(listing));
  }

  // ------------------------------------------------------- single course

  /** Validate the id, then look the course up. */
  datatype Lookup = BadId | Missing | Found(course: Course)

  function FindCourse(courses: map<ObjectId, Course>, rawId: string): (l: Lookup)
    ensures l == BadId <==> !IsValid(rawId)
    ensures l == Missing <==> IsValid(rawId) && Parse(rawId).value !in courses
    ensures l.Found? ==> Parse(rawId).value in courses && l.course == courses[Parse(rawId).value]
  {
    match Parse(rawId)
    case None => BadId
    case Some(id) => if id in courses then Found(courses[id]) else Missing
  }

  /** `getCourse`: 400 for a malformed id, 404 for an unknown one, else the course, published or not. */
  function GetCourse(courses: map<ObjectId, Course>, rawId: string): (r: Reply)
    ensures r.status == 400 <==> !IsValid(rawId)
    ensures r.status == 404 <==> IsValid(rawId) && Parse(rawId).value !in courses
    ensures r.status == 200 ==> r.body == CourseData(courses[Parse(rawId).value])
    ensures r.status in {200, 400, 404}
  {
    match FindCourse(courses, rawId)
    case BadId => Reply(400, Message(InvalidIdMessage))
    case Missing => Reply(404, Message(NotFoundMessage))
    case Found(c) => Reply(200, CourseData(c))
  }

  // ------------------------------------------------------------- ownership

  /** The ownership rule of update and delete: an admin, or the course's own instructor. */
  predicate MayModify(caller: Profile, c: Course) {
    caller.role == Admin || c.instructor == caller.id
  }

  /** Since no valid user is an admin, only a course's instructor may change it. */
  lemma OnlyOwnerMayModify(users: map<ObjectId, User>, id: ObjectId, c: Course)
    requires ValidStore(users) && id in users
    ensures MayModify(ProfileOf(users[id]), c) <==> c.instructor == id
  {
    assert ValidUser(users[id]);
  }

  // -------------------------------------------------------------- creation

  /**
   * `createCourse`: the course belongs to the caller whatever the body says.
   * `newId` is the fresh id the database assigns.
   */
  function CreateCourseSpec(s: State, body: CourseInput, newId: ObjectId): (r: Step)
    requires newId !in s.courses
    ensures r.reply.status == 201 <==> r.after.courses != s.courses
    ensures r.reply.status == 201 ==>
      && s.caller.Some? && r.reply.body.CourseData?
      && r.after.courses == s.courses[newId := r.reply.body.course]
      && r.reply.body.course.instructor == s.caller.value.id
      && r.reply.body.course.id == newId && ValidCourse(r.reply.body.course)
      && !TitleTaken(s.courses, r.reply.body.course.title, newId)
    ensures r.reply.status == 201 <==>
      && s.caller.Some? && BuildCourse(body, s.caller.value.id, newId).Ok?
      && !TitleTaken(s.courses, BuildCourse(body, s.caller.value.id, newId).value.title, newId)
    ensures r.reply.status == 201 ==> r.reply.body == CourseData(BuildCourse(body, s.caller.value.id, newId).value)
    ensures s.caller.None? ==> r == Step(Reply(500, Message(CreateServerError)), s)
    ensures s.caller.Some? && BuildCourse(body, s.caller.value.id, newId).Err? ==>
      r == Step(Reply(400, Message(CreateInvalidMessage)), s)
    ensures
      (&& s.caller.Some? && BuildCourse(body, s.caller.value.id, newId).Ok?
       && TitleTaken(s.courses, BuildCourse(body, s.caller.value.id, newId).value.title, newId))
      ==> r == Step(Reply(500, Message(CreateServerError)), s)
    ensures r.after.users == s.users && r.after.caller == s.caller
  {
    if s.caller.None? then Step(Reply(500, Message(CreateServerError)), s)
    else
      match BuildCourse(body, s.caller.value.id, newId)
      case Err(_) => Step(Reply(400, Message(CreateInvalidMessage)), s)
      case Ok(c) =>
        if TitleTaken(s.courses, c.title, newId) then Step(Reply(500, Message(CreateServerError)), s)
        else
          assert s.courses[newId := c] != s.courses by { assert newId in s.courses[newId := c]; }
          Step(Reply(201, CourseData(c)), s.(courses := s.courses[newId := c]))
  }

  /** Creating a course keeps the catalogue valid: the new course is valid and its title unused. */
  lemma CreateKeepsCatalogueValid(s: State, body: CourseInput, newId: ObjectId)
    requires ValidCatalogue(s.courses) && newId !in s.courses
    ensures ValidCatalogue(CreateCourseSpec(s, body, newId).after.courses)
  {
  }

  method CreateCourse(db: Db, ex: Exchange, body: CourseInput, newId: ObjectId)
    requires newId !in db.courses
    modifies db
    modifies ex`reply
    ensures var r := CreateCourseSpec(old(Snapshot(db, ex)), body, newId);
      ex.reply == Some(r.reply) && Snapshot(db, ex) == r.after
    ensures old(db.Valid()) ==> db.Valid()
  {
    if db.Valid() {
      CreateKeepsCatalogueValid(Snapshot(db, ex), body, newId);
    }
    if ex.user.None? {
      ex.reply := Some(Reply(500, Message(CreateServerError)));
      return;
    }
    var built := BuildCourse(body, ex.user.value.id, newId);
    if built.Err? {
      ex.reply := Some(Reply(400, Message(CreateInvalidMessage)));
      return;
    }
    var c := built.value;
    if TitleTaken(db.courses, c.title, newId) {
      ex.reply := Some(Reply(500, Message(CreateServerError)));
      return;
    }
    db.courses := db.courses[newId := c];
    ex.reply := Some(Reply(201, CourseData(c)));
  }

  // ---------------------------------------------------------------- update

  /** `updateCourse`: id check, lookup, ownership, then the validated update of the addressed course. */
  function UpdateCourseSpec(s: State, rawId: string, body: CourseInput): (r: Step)
    ensures !IsValid(rawId) ==> r == Step(Reply(400, Message(InvalidIdMessage)), s)
    ensures FindCourse(s.courses, rawId) == Missing ==> r == Step(Reply(404, Message(NotFoundMessage)), s)
    ensures r.reply.status == 200 <==>
      && FindCourse(s.courses, rawId).Found? && s.caller.Some?
      && MayModify(s.caller.value, FindCourse(s.courses, rawId).course)
      && ApplyUpdate(FindCourse(s.courses, rawId).course, body).Ok?
      && !TitleTaken(s.courses, ApplyUpdate(FindCourse(s.courses, rawId).course, body).value.title, Parse(rawId).value)
    ensures r.reply.status == 200 ==>
      var updated := ApplyUpdate(FindCourse(s.courses, rawId).course, body).value;
      r.reply.body == CourseData(updated) && r.after.courses == s.courses[Parse(rawId).value := updated]
    ensures FindCourse(s.courses, rawId).Found? && s.caller.None? ==> r == Step(Reply(500, Message(UpdateServerError)), s)
    ensures FindCourse(s.courses, rawId).Found? && s.caller.Some? && !MayModify(s.caller.value, FindCourse(s.courses, rawId).course) ==>
      r == Step(Reply(403, Message(UpdateForbiddenMessage)), s)
    ensures (FindCourse(s.courses, rawId).Found? && s.caller.Some? && MayModify(s.caller.value, FindCourse(s.courses, rawId).course)
      && ApplyUpdate(FindCourse(s.courses, rawId).course, body).Err?) ==>
      r == Step(Reply(400, Message(UpdateInvalidMessage)), s)
    ensures (FindCourse(s.courses, rawId).Found? && s.caller.Some? && MayModify(s.caller.value, FindCourse(s.courses, rawId).course)
      && ApplyUpdate(FindCourse(s.courses, rawId).course, body).Ok?
      && TitleTaken(s.courses, ApplyUpdate(FindCourse(s.courses, rawId).course, body).value.title, Parse(rawId).value)) ==>
      r == Step(Reply(500, Message(UpdateServerError)), s)
    ensures r.reply.status != 200 ==> r.after == s
    ensures r.after.users == s.users && r.after.caller == s.caller
  {
    match FindCourse(s.courses, rawId)
    case BadId => Step(Reply(400, Message(InvalidIdMessage)), s)
    case Missing => Step(Reply(404, Message(NotFoundMessage)), s)
    case Found(c) =>
      var id := Parse(rawId).value;
      if s.caller.None? then Step(Reply(500, Message(UpdateServerError)), s)
      else if !MayModify(s.caller.value, c) then Step(Reply(403, Message(UpdateForbiddenMessage)), s)
      else
        match ApplyUpdate(c, body)
        case Err(_) => Step(Reply(400, Message(UpdateInvalidMessage)), s)
        case Ok(updated) =>
          if TitleTaken(s.courses, updated.title, id) then Step(Reply(500, Message(UpdateServerError)), s)
          else Step(Reply(200, CourseData(updated)), s.(courses := s.courses[id := updated]))
  }

  /** A caller who is neither admin nor the instructor gets 403 and the course stays as it was. */
  lemma UpdateByOtherForbidden(s: State, rawId: string, body: CourseInput)
    requires FindCourse(s.courses, rawId).Found? && s.caller.Some?
    requires !MayModify(s.caller.value, FindCourse(s.courses, rawId).course)
    ensures UpdateCourseSpec(s, rawId, body) == Step(Reply(403, Message(UpdateForbiddenMessage)), s)
  {
  }

  /** Only the addressed course changes, and a valid catalogue stays valid. */
  lemma UpdateKeepsCatalogueValid(s: State, rawId: string, body: CourseInput)
    requires ValidCatalogue(s.courses)
    ensures var r := UpdateCourseSpec(s, rawId, body);
      && ValidCatalogue(r.after.courses)
      && r.after.courses.Keys == s.courses.Keys
      && forall id | id in s.courses && Parse(rawId) != Some(id) :: r.after.courses[id] == s.courses[id]
  {
    var r := UpdateCourseSpec(s, rawId, body);
    if r.reply.status == 200 {
      var id := Parse(rawId).value;
      var c := s.courses[id];
      assert ValidCourse(c) && c.id == id;
      var updated := ApplyUpdate(c, body).value;
      assert r.after.courses == s.courses[id := updated];
      assert ValidCourse(updated) && updated.id == id;
    }
  }

  method UpdateCourse(db: Db, ex: Exchange, rawId: string, body: CourseInput)
    modifies db
    modifies ex`reply
    ensures var r := UpdateCourseSpec(old(Snapshot(db, ex)), rawId, body);
      ex.reply == Some(r.reply) && Snapshot(db, ex) == r.after
    ensures old(db.Valid()) ==> db.Valid()
  {
    ghost var s := Snapshot(db, ex);
    ghost var r := UpdateCourseSpec(s, rawId, body);
    if db.Valid() {
      UpdateKeepsCatalogueValid(s, rawId, body);
    }
    var id := Parse(rawId);
    if id.None? {
      ex.reply := Some(Reply(400, Message(InvalidIdMessage)));
      return;
    }
    if id.value !in db.courses {
      ex.reply := Some(Reply(404, Message(NotFoundMessage)));
      return;
    }
    var course := db.courses[id.value];
    if ex.user.None? {
      ex.reply := Some(Reply(500, Message(UpdateServerError)));
      return;
    }
    var isAuthorized := ex.user.value.role == Admin || course.instructor == ex.user.value.id;
    if !isAuthorized {
      ex.reply := Some(Reply(403, Message(UpdateForbiddenMessage)));
      return;
    }
    var updated := ApplyUpdate(course, body);
    if updated.Err? {
      ex.reply := Some(Reply(400, Message(UpdateInvalidMessage)));
      return;
    }
    if TitleTaken(db.courses, updated.value.title, id.value) {
      ex.reply := Some(Reply(500, Message(UpdateServerError)));
      return;
    }
    db.courses := db.courses[id.value := updated.value];
    ex.reply := Some(Reply(200, CourseData(updated.value)));
    assert db.users == s.users && ex.user == s.caller;
    assert db.courses == r.after.courses;
  }

  // ---------------------------------------------------------------- delete

  /** `deleteCourse`: the same checks as update, then the course is removed. */
  function DeleteCourseSpec(s: State, rawId: string): (r: Step)
    ensures !IsValid(rawId) ==> r == Step(Reply(400, Message(InvalidIdMessage)), s)
    ensures FindCourse(s.courses, rawId) == Missing ==> r == Step(Reply(404, Message(NotFoundMessage)), s)
    ensures r.reply.status == 200 <==>
      FindCourse(s.courses, rawId).Found? && s.caller.Some? && MayModify(s.caller.value, FindCourse(s.courses, rawId).course)
    ensures r.reply.status == 200 ==> r == Step(Reply(200, Message(DeletedMessage)), s.(courses := s.courses - {Parse(rawId).value}))
    ensures FindCourse(s.courses, rawId).Found? && s.caller.None? ==> r == Step(Reply(500, Message(DeleteServerError)), s)
    ensures FindCourse(s.courses, rawId).Found? && s.caller.Some? && !MayModify(s.caller.value, FindCourse(s.courses, rawId).course) ==>
      r == Step(Reply(403, Message(DeleteForbiddenMessage)), s)
    ensures r.reply.status != 200 ==> r.after == s
    ensures r.after.users == s.users && r.after.caller == s.caller
  {
    match FindCourse(s.courses, rawId)
    case BadId => Step(Reply(400, Message(InvalidIdMessage)), s)
    case Missing => Step(Reply(404, Message(NotFoundMessage)), s)
    case Found(c) =>
      if s.caller.None? then Step(Reply(500, Message(DeleteServerError)), s)
      else if !MayModify(s.caller.value, c) then Step(Reply(403, Message(DeleteForbiddenMessage)), s)
      else Step(Reply(200, Message(DeletedMessage)), s.(courses := s.courses - {Parse(rawId).value}))
  }

  /** Removing a course from a valid catalogue leaves it valid. */
  lemma RemoveKeepsCatalogueValid(courses: map<ObjectId, Course>, id: ObjectId)
    requires ValidCatalogue(courses)
    ensures ValidCatalogue(courses - {id})
  {
    var after := courses - {id};
    forall a | a in after
      ensures after[a].id == a && ValidCourse(after[a])
    {
      assert after[a] == courses[a];
    }
    forall a, b | a in after && b in after && a != b
      ensures after[a].title != after[b].title
    {
      assert after[a] == courses[a] && after[b] == courses[b];
    }
  }

  /** Deleting removes at most the addressed course and keeps the catalogue valid. */
  lemma DeleteKeepsCatalogueValid(s: State, rawId: string)
    requires ValidCatalogue(s.courses)
    ensures var after := DeleteCourseSpec(s, rawId).after.courses;
      ValidCatalogue(after) && after.Keys <= s.courses.Keys
      && forall id | id in s.courses && Parse(rawId) != Some(id) :: id in after && after[id] == s.courses[id]
  {
    var r := DeleteCourseSpec(s, rawId);
    if r.reply.status == 200 {
      RemoveKeepsCatalogueValid(s.courses, Parse(rawId).value);
    }
  }

  method DeleteCourse(db: Db, ex: Exchange, rawId: string)
    modifies db
    modifies ex`reply
    ensures var r := DeleteCourseSpec(old(Snapshot(db, ex)), rawId);
      ex.reply == Some(r.reply) && Snapshot(db, ex) == r.after
  {
    var id := Parse(rawId);
    if id.None? {
      ex.reply := Some(Reply(400, Message(InvalidIdMessage)));
      return;
    }
    if id.value !in db.courses {
      ex.reply := Some(Reply(404, Message(NotFoundMessage)));
      return;
    }
    var course := db.courses[id.value];
    if ex.user.None? {
      ex.reply := Some(Reply(500, Message(DeleteServerError)));
      return;
    }
    var isAuthorized := ex.user.value.role == Admin || course.instructor == ex.user.value.id;
    if !isAuthorized {
      ex.reply := Some(Reply(403, Message(DeleteForbiddenMessage)));
      return;
    }
    db.courses := db.courses - {id.value};
    ex.reply := Some(Reply(200, Message(DeletedMessage)));
  }

  // ------------------------------------------------------------- enrolment

  /**
   * `enrollCourse`: refuses a caller already listed; otherwise pushes the
   * caller onto the course and saves it, then pushes the course onto the
   * caller and saves the caller. Each `save()` first runs every validator of
   * the loaded document (500 when one fails); the caller's save also fails
   * once its document is gone, after the course was written.
   */
  function EnrollSpec(s: State, rawId: string): (r: Step)
    ensures !IsValid(rawId) ==> r == Step(Reply(400, Message(InvalidIdMessage)), s)
    ensures FindCourse(s.courses, rawId) == Missing ==> r == Step(Reply(404, Message(NotFoundMessage)), s)
    ensures r.reply == Reply(400, Message(AlreadyEnrolledMessage)) <==>
      FindCourse(s.courses, rawId).Found? && s.caller.Some?
      && s.caller.value.id in FindCourse(s.courses, rawId).course.studentsEnrolled
    ensures r.reply == Reply(400, Message(AlreadyEnrolledMessage)) ==> r.after == s
    ensures r.reply.status == 200 <==>
      FindCourse(s.courses, rawId).Found? && s.caller.Some? && s.caller.value.id in s.users
      && s.caller.value.id !in FindCourse(s.courses, rawId).course.studentsEnrolled
      && CoursePassesValidators(FindCourse(s.courses, rawId).course) && ProfilePassesValidators(s.caller.value)
    ensures
      (&& FindCourse(s.courses, rawId).Found? && s.caller.Some?
       && s.caller.value.id !in FindCourse(s.courses, rawId).course.studentsEnrolled
       && !CoursePassesValidators(FindCourse(s.courses, rawId).course))
      ==> r == Step(Reply(500, Message(EnrollServerError)), s)
    ensures r.reply.status == 200 ==>
      var id := Parse(rawId).value;
      var c := s.courses[id];
      var p := s.caller.value;
      && r.after.courses == s.courses[id := c.(studentsEnrolled := c.studentsEnrolled + [p.id])]
      && r.after.users == s.users[p.id := s.users[p.id].(enrolledCourses := s.users[p.id].enrolledCourses + [id])]
      && r.after.caller == Some(p.(enrolledCourses := p.enrolledCourses + [id]))
  {
    match FindCourse(s.courses, rawId)
    case BadId => Step(Reply(400, Message(InvalidIdMessage)), s)
    case Missing => Step(Reply(404, Message(NotFoundMessage)), s)
    case Found(c) =>
      var id := Parse(rawId).value;
      if s.caller.None? then Step(Reply(500, Message(EnrollServerError)), s)
      else
        var p := s.caller.value;
        if p.id in c.studentsEnrolled then Step(Reply(400, Message(AlreadyEnrolledMessage)), s)
        else if !CoursePassesValidators(c) then Step(Reply(500, Message(EnrollServerError)), s)
        else
          var courses := s.courses[id := c.(studentsEnrolled := c.studentsEnrolled + [p.id])];
          var caller := Some(p.(enrolledCourses := p.enrolledCourses + [id]));
          if !ProfilePassesValidators(p) || p.id !in s.users then Step(Reply(500, Message(EnrollServerError)), State(s.users, courses, caller))
          else
            var u := s.users[p.id];
            var users := s.users[p.id := u.(enrolledCourses := u.enrolledCourses + [id])];
            Step(Reply(200, Message(EnrolledMessage)), State(users, courses, caller))
  }

  /**
   * A caller whose loaded document fails its own validators (a role outside
   * the enum) is refused with 500 only after the course was saved: the course
   * lists the caller while the caller's stored document does not list the course.
   */
  lemma StoredAdminEnrollIsHalfDone(s: State, rawId: string)
    requires FindCourse(s.courses, rawId).Found? && CoursePassesValidators(FindCourse(s.courses, rawId).course)
    requires s.caller.Some? && s.caller.value.role == Admin
    requires s.caller.value.id !in FindCourse(s.courses, rawId).course.studentsEnrolled
    ensures var r := EnrollSpec(s, rawId);
      var id := Parse(rawId).value;
      && r.reply == Reply(500, Message(EnrollServerError))
      && r.after.users == s.users
      && s.caller.value.id in r.after.courses[id].studentsEnrolled
  {
    assert !ValidRole(Admin);
  }

  /** Enrolment never lists a student twice in a course that listed none twice. */
  lemma EnrollKeepsStudentsDistinct(s: State, rawId: string)
    requires FindCourse(s.courses, rawId).Found?
    requires NoDuplicates(FindCourse(s.courses, rawId).course.studentsEnrolled)
    ensures var r := EnrollSpec(s, rawId);
      var id := Parse(rawId).value;
      id in r.after.courses && NoDuplicates(r.after.courses[id].studentsEnrolled)
  {
  }

  /** A second enrolment of the same caller is refused and changes nothing. */
  lemma EnrollTwiceRefused(s: State, rawId: string)
    requires EnrollSpec(s, rawId).reply.status == 200
    ensures var s2 := EnrollSpec(s, rawId).after;
      EnrollSpec(s2, rawId) == Step(Reply(400, Message(AlreadyEnrolledMessage)), s2)
  {
    var id := Parse(rawId).value;
    var s2 := EnrollSpec(s, rawId).after;
    assert s.caller.value.id in s2.courses[id].studentsEnrolled;
  }

  /** Replacing a course by one with the same id, title and validity keeps the catalogue valid. */
  lemma ReplaceKeepsCatalogueValid(courses: map<ObjectId, Course>, id: ObjectId, c: Course)
    requires ValidCatalogue(courses) && id in courses
    requires c.id == id && c.title == courses[id].title && ValidCourse(c)
    ensures ValidCatalogue(courses[id := c])
  {
    var after := courses[id := c];
    forall a, b | a in after && b in after && a != b
      ensures after[a].title != after[b].title
    {
      assert after[a].title == courses[a].title && after[b].title == courses[b].title;
    }
  }

  /** Enrolment keeps both collections valid. */
  lemma EnrollKeepsStoreValid(s: State, rawId: string)
    requires ValidStore(s.users) && ValidCatalogue(s.courses)
    ensures ValidStore(EnrollSpec(s, rawId).after.users) && ValidCatalogue(EnrollSpec(s, rawId).after.courses)
  {
    var r := EnrollSpec(s, rawId);
    var l := FindCourse(s.courses, rawId);
    if l.Found? && s.caller.Some? && s.caller.value.id !in l.course.studentsEnrolled && CoursePassesValidators(l.course) {
      var id := Parse(rawId).value;
      var c := s.courses[id];
      var pid := s.caller.value.id;
      var c2 := c.(studentsEnrolled := c.studentsEnrolled + [pid]);
      assert r.after.courses == s.courses[id := c2];
      ReplaceKeepsCatalogueValid(s.courses, id, c2);
      if pid in s.users && ProfilePassesValidators(s.caller.value) {
        var u := s.users[pid];
        assert r.after.users == s.users[pid := u.(enrolledCourses := u.enrolledCourses + [id])];
        UpdateKeepsStoreValid(s.users, pid, u.(enrolledCourses := u.enrolledCourses + [id]));
      }
    }
  }

  method EnrollCourse(db: Db, ex: Exchange, rawId: string)
    modifies db
    modifies ex`user, ex`reply
    ensures var r := EnrollSpec(old(Snapshot(db, ex)), rawId);
      ex.reply == Some(r.reply) && Snapshot(db, ex) == r.after
  {
    var id := Parse(rawId);
    if id.None? {
      ex.reply := Some(Reply(400, Message(InvalidIdMessage)));
      return;
    }
    if id.value !in db.courses {
      ex.reply := Some(Reply(404, Message(NotFoundMessage)));
      return;
    }
    var course := db.courses[id.value];
    if ex.user.None? {
      ex.reply := Some(Reply(500, Message(EnrollServerError)));
      return;
    }
    var caller := ex.user.value;
    if caller.id in course.studentsEnrolled {
      ex.reply := Some(Reply(400, Message(AlreadyEnrolledMessage)));
      return;
    }
    if !CoursePassesValidators(course) {
      ex.reply := Some(Reply(500, Message(EnrollServerError)));
      return;
    }
    course := course.(studentsEnrolled := course.studentsEnrolled + [caller.id]);
    db.courses := db.courses[id.value := course];
    caller := caller.(enrolledCourses := caller.enrolledCourses + [id.value]);
    ex.user := Some(caller);
    if !ProfilePassesValidators(caller) || caller.id !in db.users {
      ex.reply := Some(Reply(500, Message(EnrollServerError)));
      return;
    }
    var stored := db.users[caller.id];
    db.users := db.users[caller.id := stored.(enrolledCourses := stored.enrolledCourses + [id.value])];
    ex.reply := Some(Reply(200, Message(EnrolledMessage)));
  }
}
