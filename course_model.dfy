/**
 * The Course schema and its embedded Lesson schema: validity rules, the
 * `trim` setters, defaults, and the two ways a course document is written,
 * `Course.create` (every path validated) and `findByIdAndUpdate` with
 * `runValidators` (only the paths in the update validated).
 */
module CourseModel {
  import opened Wrappers
  import opened Text
  import opened ObjectIds

  const Categories: seq<string> :=
    ["Development", "Design", "Marketing", "Business", "IT & Software", "Personal Development"]
  const MaxTitleLength: nat := 150
  const MaxDescriptionLength: nat := 1000
  const MaxLessonTitleLength: nat := 100
  const MinDurationMinutes: real := 1.0

  datatype Lesson = Lesson(title: Option<string>, content: Option<string>, durationMinutes: real)

  datatype Course = Course(
    id: ObjectId,
    title: string,
    description: string,
    instructor: ObjectId,
    price: real,
    category: string,
    imageUrl: Option<string>,
    lessons: seq<Lesson>,
    studentsEnrolled: seq<ObjectId>,
    published: bool)

  /** A lesson as a request body gives it: any field may be missing. */
  datatype LessonInput = LessonInput(title: Option<string>, content: Option<string>, durationMinutes: Option<real>)

  /** The course fields of a request body; a missing field is `None`. */
  datatype CourseInput = CourseInput(
    title: Option<string>,
    description: Option<string>,
    instructor: Option<ObjectId>,
    price: Option<real>,
    category: Option<string>,
    imageUrl: Option<string>,
    lessons: Option<seq<LessonInput>>,
    studentsEnrolled: Option<seq<ObjectId>>,
    published: Option<bool>)

  /** The schema paths a validation error can name. */
  datatype CoursePath =
    | TitlePath | DescriptionPath | PricePath | CategoryPath
    | LessonTitlePath(index: nat) | LessonDurationPath(index: nat)

  /** title: required, trimmed, at most 150 characters. */
  predicate ValidTitle(t: string) {
    Trimmed(t) && 0 < |t| <= MaxTitleLength
  }

  /** description: required, at most 1000 characters (not trimmed). */
  predicate ValidDescription(d: string) {
    0 < |d| <= MaxDescriptionLength
  }

  /** price: at least 0. */
  predicate ValidPrice(p: real) {
    p >= 0.0
  }

  /** category: one of the six listed categories. */
  predicate ValidCategory(c: string) {
    c in Categories
  }

  /** A lesson: an optional trimmed title of at most 100 characters and a duration of at least one minute. */
  predicate ValidLesson(l: Lesson) {
    && (l.title.Some? ==> Trimmed(l.title.value) && |l.title.value| <= MaxLessonTitleLength)
    && l.durationMinutes >= MinDurationMinutes
  }

  predicate ValidCourse(c: Course) {
    && ValidTitle(c.title)
    && ValidDescription(c.description)
    && ValidPrice(c.price)
    && ValidCategory(c.category)
    && (forall i :: 0 <= i < |c.lessons| ==> ValidLesson(c.lessons[i]))
  }

  /**
   * What `save()` checks again on a course it loaded: every path's validators
   * (required, lengths, bounds, the enum), but not the `trim` setters, which
   * run only when a value is assigned.
   */
  predicate CoursePassesValidators(c: Course) {
    && 0 < |c.title| <= MaxTitleLength
    && ValidDescription(c.description)
    && ValidPrice(c.price)
    && ValidCategory(c.category)
    && (forall i :: 0 <= i < |c.lessons| ==> LessonPassesValidators(c.lessons[i]))
  }

  predicate LessonPassesValidators(l: Lesson) {
    && (l.title.Some? ==> |l.title.value| <= MaxLessonTitleLength)
    && l.durationMinutes >= MinDurationMinutes
  }

  /** A course the schema admits passes the validators a later `save()` runs. */
  lemma ValidCoursePassesValidators(c: Course)
    requires ValidCourse(c)
    ensures CoursePassesValidators(c)
  {
    forall i | 0 <= i < |c.lessons|
      ensures LessonPassesValidators(c.lessons[i])
    {
      assert ValidLesson(c.lessons[i]);
    }
  }

  /** The course collection: keyed by id, every course valid, no title used twice (the unique index). */
  predicate ValidCatalogue(courses: map<ObjectId, Course>) {
    && (forall id | id in courses :: courses[id].id == id && ValidCourse(courses[id]))
    && (forall a, b | a in courses && b in courses && a != b :: courses[a].title != courses[b].title)
  }

  function TrimOption(s: Option<string>): Option<string> {
    match s
    case None => None
    case Some(t) => Some(Trim(t))
  }

  predicate LessonTitleOk(l: LessonInput) {
    l.title.None? || |Trim(l.title.value)| <= MaxLessonTitleLength
  }

  predicate LessonDurationOk(l: LessonInput) {
    l.durationMinutes.Some? && l.durationMinutes.value >= MinDurationMinutes
  }

  /** The lesson paths that fail, numbered by their position in the array. */
  function LessonErrors(ls: seq<LessonInput>): set<CoursePath> {
    (set i | 0 <= i < |ls| && !LessonTitleOk(ls[i]) :: LessonTitlePath(i))
    + (set i | 0 <= i < |ls| && !LessonDurationOk(ls[i]) :: LessonDurationPath(i))
  }

  function BuildLesson(l: LessonInput): (r: Lesson)
    requires LessonTitleOk(l) && LessonDurationOk(l)
    ensures ValidLesson(r)
    ensures r.title.Some? <==> l.title.Some?
    ensures l.title.Some? ==> r.title.value == Trim(l.title.value)
    ensures r.content == l.content && r.durationMinutes == l.durationMinutes.value
  {
    Lesson(TrimOption(l.title), l.content, l.durationMinutes.value)
  }

  function BuildLessons(ls: seq<LessonInput>): (r: seq<Lesson>)
    requires LessonErrors(ls) == {}
    ensures |r| == |ls| && forall i :: 0 <= i < |r| ==> ValidLesson(r[i])
    ensures forall i :: 0 <= i < |r| ==> LessonTitleOk(ls[i]) && LessonDurationOk(ls[i]) && r[i] == BuildLesson(ls[i])
  {
    assert forall i :: 0 <= i < |ls| ==> LessonTitleOk(ls[i]) && LessonDurationOk(ls[i]) by {
      forall i | 0 <= i < |ls| ensures LessonTitleOk(ls[i]) && LessonDurationOk(ls[i]) {
        assert LessonTitlePath(i) !in LessonErrors(ls) && LessonDurationPath(i) !in LessonErrors(ls);
      }
    }
    seq(|ls|, i requires 0 <= i < |ls| =>
      assert LessonTitlePath(i) !in LessonErrors(ls) && LessonDurationPath(i) !in LessonErrors(ls);
      BuildLesson(ls[i]))
  }

  /** The paths that fail when the given fields are written; a path that is not written is not checked. */
  function UpdateErrors(input: CourseInput): set<CoursePath> {
    (if input.title.None? || ValidTitle(Trim(input.title.value)) then {} else {TitlePath})
    + (if input.description.None? || ValidDescription(input.description.value) then {} else {DescriptionPath})
    + (if input.price.None? || ValidPrice(input.price.value) then {} else {PricePath})
    + (if input.category.None? || ValidCategory(input.category.value) then {} else {CategoryPath})
    + (if input.lessons.None? then {} else LessonErrors(input.lessons.value))
  }

  /** Every path the update names passes its validators. */
  predicate UpdatePathsValid(input: CourseInput) {
    && (input.title.None? || ValidTitle(Trim(input.title.value)))
    && (input.description.None? || ValidDescription(input.description.value))
    && (input.price.None? || ValidPrice(input.price.value))
    && (input.category.None? || ValidCategory(input.category.value))
    && (input.lessons.None? || LessonErrors(input.lessons.value) == {})
  }

  /** No path fails exactly when every named path passes. */
  lemma UpdateErrorsNone(input: CourseInput)
    ensures UpdateErrors(input) == {} <==> UpdatePathsValid(input)
  {
    if UpdatePathsValid(input) {
      assert UpdateErrors(input) == {};
    } else if input.title.Some? && !ValidTitle(Trim(input.title.value)) {
      assert TitlePath in UpdateErrors(input);
    } else if input.description.Some? && !ValidDescription(input.description.value) {
      assert DescriptionPath in UpdateErrors(input);
    } else if input.price.Some? && !ValidPrice(input.price.value) {
      assert PricePath in UpdateErrors(input);
    } else if input.category.Some? && !ValidCategory(input.category.value) {
      assert CategoryPath in UpdateErrors(input);
    } else {
      var e :| e in LessonErrors(input.lessons.value);
      assert e in UpdateErrors(input);
    }
  }

  /** On creation the required paths must be present as well. */
  function CreateErrors(input: CourseInput): set<CoursePath> {
    UpdateErrors(input)
    + (if input.title.Some? then {} else {TitlePath})
    + (if input.description.Some? then {} else {DescriptionPath})
    + (if input.category.Some? then {} else {CategoryPath})
  }

  /**
   * `Course.create({ ...body, instructor })`: the caller's id replaces any
   * instructor in the body; price defaults to 0, published to false, the
   * arrays to empty.
   */
  function BuildCourse(input: CourseInput, instructor: ObjectId, id: ObjectId): (r: Result<Course, set<CoursePath>>)
    ensures r.Ok? <==> CreateErrors(input) == {}
    ensures r.Err? ==> r.error == CreateErrors(input) && r.error != {}
    ensures r.Ok? ==> ValidCourse(r.value) && r.value.id == id && r.value.instructor == instructor
    ensures r.Ok? ==> r.value.price == (if input.price.Some? then input.price.value else 0.0)
    ensures r.Ok? ==> r.value.published == (input.published == Some(true))
    ensures r.Ok? ==> r.value.studentsEnrolled == (if input.studentsEnrolled.Some? then input.studentsEnrolled.value else [])
    ensures r.Ok? ==> r.value.title == Trim(input.title.value) && r.value.description == input.description.value
    ensures r.Ok? ==> r.value.category == input.category.value && r.value.imageUrl == input.imageUrl
    ensures r.Ok? && input.lessons.None? ==> r.value.lessons == []
    ensures r.Ok? && input.lessons.Some? ==> r.value.lessons == BuildLessons(input.lessons.value)
  {
    var errors := CreateErrors(input);
    if errors != {} then Err(errors)
    else
      Ok(Course(
        id,
        Trim(input.title.value),
        input.description.value,
        instructor,
        if input.price.Some? then input.price.value else 0.0,
        input.category.value,
        input.imageUrl,
        if input.lessons.Some? then BuildLessons(input.lessons.value) else [],
        if input.studentsEnrolled.Some? then input.studentsEnrolled.value else [],
        if input.published.Some? then input.published.value else false))
  }

  /** Whatever instructor the body names, the stored course belongs to the caller. */
  lemma CreateIgnoresBodyInstructor(input: CourseInput, other: Option<ObjectId>, caller: ObjectId, id: ObjectId)
    ensures BuildCourse(input.(instructor := other), caller, id) == BuildCourse(input, caller, id)
  {
  }

  /**
   * The document `findByIdAndUpdate` writes once the update passed its
   * validators: each path the body names takes the sent value through its
   * setter (`trim` for the title, the lesson schema for lessons), every other
   * path keeps its value.
   */
  function UpdatedCourse(c: Course, input: CourseInput): (u: Course)
    requires UpdatePathsValid(input)
    ensures u.id == c.id
    ensures input.title.None? ==> u.title == c.title
    ensures input.description.None? ==> u.description == c.description
    ensures input.instructor.None? ==> u.instructor == c.instructor
    ensures input.price.None? ==> u.price == c.price
    ensures input.category.None? ==> u.category == c.category
    ensures input.imageUrl.None? ==> u.imageUrl == c.imageUrl
    ensures input.lessons.None? ==> u.lessons == c.lessons
    ensures input.studentsEnrolled.None? ==> u.studentsEnrolled == c.studentsEnrolled
    ensures input.published.None? ==> u.published == c.published
    ensures input.title.Some? ==> u.title == Trim(input.title.value) && ValidTitle(u.title)
    ensures input.description.Some? ==> u.description == input.description.value
    ensures input.instructor.Some? ==> u.instructor == input.instructor.value
    ensures input.price.Some? ==> u.price == input.price.value
    ensures input.category.Some? ==> u.category == input.category.value
    ensures input.imageUrl.Some? ==> u.imageUrl == input.imageUrl
    ensures input.lessons.Some? ==> u.lessons == BuildLessons(input.lessons.value)
    ensures input.studentsEnrolled.Some? ==> u.studentsEnrolled == input.studentsEnrolled.value
    ensures input.published.Some? ==> u.published == input.published.value
  {
    Course(
      c.id,
      Chosen(TrimOption(input.title), c.title),
      Chosen(input.description, c.description),
      Chosen(input.instructor, c.instructor),
      Chosen(input.price, c.price),
      Chosen(input.category, c.category),
      if input.imageUrl.Some? then input.imageUrl else c.imageUrl,
      if input.lessons.Some? then BuildLessons(input.lessons.value) else c.lessons,
      Chosen(input.studentsEnrolled, c.studentsEnrolled),
      Chosen(input.published, c.published))
  }

  /** The value a path takes: the one sent, if any, else the one it has. */
  function Chosen<T>(sent: Option<T>, kept: T): T {
    if sent.Some? then sent.value else kept
  }

  /**
   * `findByIdAndUpdate(id, body, { runValidators: true })`: the written paths
   * are validated and, when all pass, set; every other path keeps its value,
   * so a valid course stays valid.
   */
  function ApplyUpdate(c: Course, input: CourseInput): (r: Result<Course, set<CoursePath>>)
    ensures r.Ok? <==> UpdateErrors(input) == {}
    ensures r.Err? ==> r.error == UpdateErrors(input) && r.error != {}
    ensures r.Ok? ==> r.value == UpdatedCourse(c, input)
    ensures r.Ok? && ValidCourse(c) ==> ValidCourse(r.value)
  {
    var errors := UpdateErrors(input);
    UpdateErrorsNone(input);
    if errors != {} then Err(errors)
    else Ok(UpdatedCourse(c, input))
  }

  const EmptyInput: CourseInput := CourseInput(None, None, None, None, None, None, None, None, None)

  /** An update that names no path leaves the course as it was. */
  lemma EmptyUpdateIsIdentity(c: Course)
    ensures ApplyUpdate(c, EmptyInput) == Ok(c)
  {
  }

  /** An update body may name a new instructor, handing the course over. */
  lemma UpdateCanTransferOwnership(c: Course, newOwner: ObjectId)
    ensures ApplyUpdate(c, EmptyInput.(instructor := Some(newOwner))) == Ok(c.(instructor := newOwner))
  {
  }

  predicate TitleTaken(courses: map<ObjectId, Course>, title: string, except: ObjectId) {
    exists id | id in courses :: id != except && courses[id].title == title
  }

  /** A course with no student listed twice. */
  predicate NoDuplicates(s: seq<ObjectId>) {
    forall i, j :: 0 <= i < j < |s| ==> s[i] != s[j]
  }
}
