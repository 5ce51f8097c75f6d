# Course marketplace API: access control and request decisions

This project models the core of a small course-marketplace REST backend
built on Express and Mongoose. The core has these parts:

- Users register and log in. The server issues a bearer token holding the user's id.
- The `protect` middleware turns the `Authorization` header into `req.user`.
- The `authorize(...roles)` middleware admits only the listed roles.
- Instructors create and edit courses. Students enrol in them. Anyone can browse the published catalogue with filters, search and pagination.

The model describes what each handler and guard decides, which status and
body it sends, and what it writes to the `users` and `courses` collections:

- Handlers that write are `method`s over a `Db` (the collections as maps keyed by ObjectId) and an `Exchange` (`req.user`, the response, the `next` calls).
- Each of those methods is proved against a specification function from a `State` to a `Step` (reply and new state).
- The lemmas prove what the API promises:
  - only owners or admins change a course;
  - a self-update can never change a role;
  - a student can never be enrolled twice;
  - a failed login does not reveal whether the address exists;
  - registration followed by login yields a token for the new id;
  - every route reaches its handler only through its guards.

Modules:

- `Wrappers`, `Text` (trim, lower-case, `split(' ')`, `parseInt`), `ObjectIds` (`isValid`), `Tokens` (`jwt.sign` payload and lifetime): helpers.
- `UserModel`, `CourseModel`: the two Mongoose schemas. They cover the validators, the trim and lowercase setters, the defaults, the validators a later `save()` runs again on a loaded document, and the invariants of a valid collection: ids are keys, documents are valid, e-mails and titles are unique.
- `Http`: the reply datatypes, the `Exchange` and `Db` classes, and `State`/`Step`.
- `AuthMiddleware`: `protect` and `authorize`.
- `CourseController`, `UserController`, `AuthController`: the handlers.
- `Pipeline`: Express's middleware chain and route dispatch.
- `CourseRoutes`, `UserRoutes`: the two routers' tables, and what each route guarantees.

## Model

| member | source | states |
|---|---|---|
| ObjectIds.Parse | controllers/courseController.js:62-64 | `isValid` accepts exactly the 24-hex-digit strings, and the id they denote is their lower-case form |
| ObjectIds.ParseOwnText | controllers/courseController.js:62-64 | the text of a stored id is a valid id that denotes itself |
| Text.Trim | models/User.js:12 | the result of the `trim` setter has no surrounding white space and is no longer than the input |
| Text.TrimKeepsCore | models/User.js:12 | `trim` keeps exactly the block of the input after its leading white space, and only white space follows that block; with `Trim`'s own contract this fixes the result |
| Text.TrimIdempotent | models/User.js:12 | trimming twice is trimming once |
| Text.TrimLowerCommute | models/User.js:19-20 | the `lowercase` and `trim` setters commute |
| Text.JoinSplit | middleware/auth.js:11 | `split(' ')` loses nothing: joining its pieces gives the string back |
| Text.SplitPiecesSeparatorFree | middleware/auth.js:11 | no piece of `split(' ')` contains a space |
| Text.SecondPiece | middleware/auth.js:11 | after `Bearer ` the second piece is the text up to the next space |
| Text.ParseShow | controllers/courseController.js:27-28 | `parseInt` reads back every decimal numeral |
| Tokens.GenerateToken | controllers/authController.js:6-10 | the token payload is the user's id, and the lifetime is the configured one or the default |
| Tokens.DefaultExpiry | controllers/authController.js:8-9 | when no lifetime is configured, or it is empty, tokens live `7d` |
| UserModel.NormalizeEmail | models/User.js:15-21 | a stored address is trimmed and lower-case |
| UserModel.NormalizeEmailIdempotent | models/User.js:19-20 | normalising a stored address changes nothing |
| UserModel.NormalizeEmailIgnoresCase | models/User.js:19-20 | addresses differing in case or surrounding blanks are the same account |
| UserModel.ValidUser | models/User.js:8-33 | a stored user has a trimmed name of 1 to 100 characters, a non-empty trimmed lower-case address and a role from the enum |
| UserModel.ValidStore | models/User.js:18 | the collection is keyed by id, every user in it is valid, and no address is used twice |
| UserModel.ValidUserPassesValidators | models/User.js:8-33 | a user the schema admits passes every validator `save()` runs again on its loaded document |
| UserModel.NoValidAdmin | models/User.js:28-33 | the role enum has no `admin`, so no valid user is an admin |
| UserModel.CreateUser | models/User.js:8-38 | `User.create` succeeds exactly when no validator fails. On success the user is valid, with the trimmed name, the normalised address, the requested role or `student`, the hashed password and no enrolments. On failure it reports exactly the failing paths |
| UserModel.SignUpErrorsNone | models/User.js:8-33 | a sign-up fails on no path exactly when the trimmed name, the normalised address, the password length and the role each pass their validators |
| UserModel.CreateUserTakesRole | models/User.js:28-33 | a sign-up that no validator rejects is created, with the role it asked for (trimmed), or `student` without one |
| UserModel.CreateUserRoles | models/User.js:28-33 | without a role the account is a student; asking for `admin` fails validation on `role` |
| UserModel.SelfServiceInstructor | models/User.js:28-33 | anyone can register as an instructor by sending `role: "instructor"` |
| UserModel.UpdateKeepsStoreValid | models/User.js:15-21 | replacing a user by a valid one with the same id and address keeps the collection valid |
| UserModel.InsertKeepsStoreValid | models/User.js:18 | inserting a valid user whose address is free keeps ids keyed, users valid and addresses unique |
| UserModel.FindByEmail | controllers/authController.js:69 | `findOne({ email })` finds a user exactly when the address is taken, and the user has that address |
| UserModel.FindByEmailUnique | models/User.js:18 | with unique addresses, the lookup by a user's address finds that user |
| CourseModel.BuildLesson | models/Course.js:14-29 | a lesson that passed validation is valid (trimmed title of at most 100 characters, duration at least 1). Its title is the sent title trimmed, or absent when none was sent; its content and duration are the sent ones |
| CourseModel.BuildLessons | models/Course.js:66 | every lesson of a validated list is valid, none is dropped, and the lesson at each position is built from the sent lesson at that position |
| CourseModel.ValidCourse | models/Course.js:32-74 | a stored course has a trimmed title of 1 to 150 characters, a description of 1 to 1000, a price of at least 0, a listed category and valid lessons |
| CourseModel.ValidCatalogue | models/Course.js:33-38 | the collection is keyed by id, every course in it is valid, and no title is used twice |
| CourseModel.ValidCoursePassesValidators | models/Course.js:32-74 | a course the schema admits passes every validator `save()` runs again on its loaded document |
| CourseModel.BuildCourse | models/Course.js:32-74 | a new course is valid exactly when no validator fails. It has the given id and instructor, the trimmed title, the sent description, category, image and lessons (through the lesson schema, none when absent); price defaults to 0, `published` to false and the student list to empty. A failure reports exactly the failing paths |
| CourseModel.CreateIgnoresBodyInstructor | controllers/courseController.js:86 | `createCourse` overwrites any `instructor` in the body with the caller |
| CourseModel.UpdateErrorsNone | controllers/courseController.js:122-129 | an update fails validation on no path exactly when every path it names passes its validator |
| CourseModel.UpdatedCourse | controllers/courseController.js:122-129 | every path the update names takes the sent value through its setter (`trim` for the title, the lesson schema for lessons); every other path, and the id, keep their values |
| CourseModel.ApplyUpdate | controllers/courseController.js:122-129 | an update validates only the paths it sends and fails with exactly the failing ones; when none fails the document is the updated course, and a valid course stays valid |
| CourseModel.EmptyUpdateIsIdentity | controllers/courseController.js:122-129 | an empty update changes nothing |
| CourseModel.UpdateCanTransferOwnership | controllers/courseController.js:122-129 | an update may set `instructor`: the owner can hand the course to anyone |
| AuthMiddleware.ExtractToken | middleware/auth.js:8-12 | a token exists exactly when the header starts with `Bearer ` followed by a non-space; the token is that space-free word |
| AuthMiddleware.TokenIsSecondPiece | middleware/auth.js:11 | the extracted token is `authorization.split(' ')[1]` |
| AuthMiddleware.Authenticate | middleware/auth.js:8-53 | the caller is authenticated exactly when the token verifies and its id is stored, and then it is that user without password. No token means `MissingToken`. A verified id that is not stored means `UserNotFound`. With a token, a `JsonWebTokenError` is exactly `InvalidToken`, a `TokenExpiredError` exactly `ExpiredToken`, and any other error exactly `AuthError` |
| AuthMiddleware.AuthReply | middleware/auth.js:13-53 | every rejection is a message; it is a 500 for an internal error and a 401 otherwise |
| AuthMiddleware.AuthRepliesDistinct | middleware/auth.js:13-53 | each rejection has its own message, and all are 401 except the internal error, a 500 |
| AuthMiddleware.NoTokenNoLookup | middleware/auth.js:13-18 | without a token neither the verifier nor the database is consulted |
| AuthMiddleware.RemovedUserRefused | middleware/auth.js:28-31 | a still-valid token of a deleted user is refused with "User not found" |
| AuthMiddleware.AuthenticatedNotAdmin | middleware/auth.js:22-34 | in a valid collection an authenticated caller has a schema role, never `admin` |
| AuthMiddleware.Protect | middleware/auth.js:4-54 | on success it sets `req.user` and calls `next` once, sending nothing. Otherwise it sends the outcome's reply and leaves `req.user` and `next` alone |
| AuthMiddleware.Authorize | middleware/auth.js:56-74 | 401 without `req.user`. It passes exactly when the role is listed, and answers 403 naming the role otherwise |
| AuthMiddleware.AdminOnlyGuardRejectsAll | middleware/auth.js:66-71 | `authorize('admin')` refuses every valid user with 403 |
| Pipeline.Run | routes/courses.js:24 | a chain reaches its handler only if every stage passed. After `protect` there is a user, the one the request's token names. After `authorize(roles)` that user's role is listed. After the uploader there was no upload error |
| Pipeline.ProtectFirst | middleware/auth.js:13-53 | a chain that starts with `protect` answers an unauthenticated request with `protect`'s own rejection |
| Pipeline.Dispatch | routes/courses.js:21-34 | there is no route exactly when the verb and path are not in the table; otherwise the route's own handler runs |
| UserRoutes.RoutesWellFormed | routes/users.js:13-19 | every user route ends in exactly one handler |
| CourseRoutes.RoutesWellFormed | routes/courses.js:21-34 | every course route ends in exactly one handler |
| CourseRoutes.PublicReads | routes/courses.js:21-28 | listing and reading courses need no login |
| CourseRoutes.CreateGuarded | routes/courses.js:24 | `POST /` reaches `createCourse` only with an authenticated instructor or admin and no upload error |
| CourseRoutes.CreateOnlyByInstructor | routes/courses.js:24 | with valid users, `createCourse` is reached exactly by authenticated instructors without an upload error |
| CourseRoutes.UnauthenticatedNeverUploads | routes/courses.js:24 | an unauthenticated request is answered by `protect` before the uploader runs |
| CourseRoutes.StudentCannotCreate | routes/courses.js:24 | a student gets 403 from `authorize` |
| CourseRoutes.UpdateNeedsOnlyLogin | routes/courses.js:29 | `PUT /:id` checks login but no role; ownership is left to the handler |
| CourseRoutes.EnrollGuarded | routes/courses.js:32-34 | enrolment is reached only by an authenticated student or admin |
| CourseRoutes.EnrollOnlyStudents | routes/courses.js:32-34 | with valid users, exactly authenticated students reach `enrollCourse` |
| CourseRoutes.DeleteUnreachable | routes/courses.js:21-34 | no route is mounted for `deleteCourse`, so every DELETE finds no route |
| UserRoutes.MeRequiresLogin | routes/users.js:13-14 | `GET /me` needs login, and then returns the caller's own profile |
| UserRoutes.UpdateMeRequiresLogin | routes/users.js:13-15 | `PUT /me` needs login and runs `updateMe` for the authenticated caller |
| UserRoutes.ListGuarded | routes/users.js:18-19 | `GET /` reaches `getAllUsers` only for an authenticated admin |
| UserRoutes.AdminListUnreachable | routes/users.js:18-19 | with valid users no request reaches `getAllUsers`: the answer is always 401, 403 or 500 |
| CourseController.QueryFilter | controllers/courseController.js:13-21 | the filter selects published courses, and adds the category and instructor only when they are supplied as non-empty strings |
| CourseController.BuildFilter | controllers/courseController.js:13-21 | adding the fields one by one builds exactly that filter |
| CourseController.PaginationOf | controllers/courseController.js:27-28 | `skip` is `(page - 1) * pageSize`, and is NaN exactly when the page or the page size is |
| CourseController.Paginate | controllers/courseController.js:11-28 | page and page size are `parseInt` of the query values, with the numeric defaults 1 and 10, and `skip` follows from them |
| CourseController.DefaultPagination | controllers/courseController.js:11 | without parameters the first 10 courses are returned |
| CourseController.NextPageSkip | controllers/courseController.js:28 | page n + 1 starts exactly one page size after page n |
| CourseController.Matching | controllers/courseController.js:14-23 | a course is matched exactly when it is in the catalogue, passes the filter, and is a search hit when there is a search |
| CourseController.MatchingKeepsOrder | controllers/courseController.js:23-37 | the selection keeps the sort order: matching two runs of the sorted catalogue in turn is matching their concatenation |
| CourseController.Window | controllers/courseController.js:35-37 | nothing when `skip` is past the end; everything from `skip` on when the limit is 0 or reaches the end; otherwise exactly the next `abs(limit)` elements from `skip` |
| CourseController.PagesTile | controllers/courseController.js:35-37 | two consecutive pages of n are one page of 2n: paging loses and repeats nothing |
| CourseController.SearchNarrows | controllers/courseController.js:16-18 | a text search never increases the number of matches |
| CourseController.ListingTotalAsWritten | controllers/courseController.js:31 | the total as counted never undercounts, and equals the true total without a search |
| CourseController.TotalAsWrittenIgnoresSearch | controllers/courseController.js:31 | with a search matching one of two published courses, one course is listed but the total is 2 |
| CourseController.ListCourses | controllers/courseController.js:9-51 | the query fails exactly on an instructor that is not an id (cast error), a non-numeric page or limit, or a negative skip. Otherwise the total is the number of courses the filter and search select, the page is the window of `skip` and `limit` over them, and page and limit are echoed |
| CourseController.UnlimitedPageCountsTotal | controllers/courseController.js:31-45 | without a limit the page holds exactly `total` courses |
| CourseController.ListingReply | controllers/courseController.js:40-50 | 200 with the page and its total exactly for a listing, 500 exactly for a failed query |
| CourseController.GetCourses | controllers/courseController.js:9-51 | the reply is the listing of the query's filter, search and pagination. It is 200 or 500; on 200 `count` is the page's length, at most `total`, and only published courses of the asked category are listed |
| CourseController.FindCourse | controllers/courseController.js:59-70 | an invalid id, a missing course and a found course are told apart exactly |
| CourseController.GetCourse | controllers/courseController.js:59-77 | 400 exactly for an invalid id, 404 exactly for a missing course, otherwise 200 with that course |
| CourseController.MayModify | controllers/courseController.js:116-119 | an admin, or the course's own instructor, may change a course |
| CourseController.OnlyOwnerMayModify | controllers/courseController.js:116-119 | for a valid stored user, the ownership test passes exactly for the course's instructor |
| CourseController.CreateCourseSpec | controllers/courseController.js:84-97 | 201 exactly when there is a caller, the course validates and its title is free; the body is then the course `Course.create` builds, owned by the caller, inserted under the new id. A validation failure is 400, a missing caller or a taken title (the unique index) 500, and those change nothing |
| CourseController.CreateCourse | controllers/courseController.js:84-97 | the handler sends the reply and leaves the collections as `CreateCourseSpec` decides, and keeps a valid database valid |
| CourseController.CreateKeepsCatalogueValid | models/Course.js:32-74 | creating a course keeps the catalogue valid |
| CourseController.UpdateCourseSpec | controllers/courseController.js:104-138 | 400 for an invalid id, 404 for a missing course, 500 without a caller, 403 for a caller who is neither admin nor the instructor. For a permitted caller, a failed validation is the 400 of a ValidationError and a taken title is the 500 of the unique index. 200 exactly when the caller may modify the course, the update validates and the title stays unique. Then only that course changes; otherwise nothing changes |
| CourseController.UpdateByOtherForbidden | controllers/courseController.js:116-119 | a non-owner who is not admin gets 403 and nothing changes |
| CourseController.UpdateKeepsCatalogueValid | controllers/courseController.js:122-129 | an update keeps the catalogue valid |
| CourseController.UpdateCourse | controllers/courseController.js:104-139 | the handler sends the reply and leaves the collections as `UpdateCourseSpec` decides, and keeps a valid database valid |
| CourseController.DeleteCourseSpec | controllers/courseController.js:146-172 | 400 for an invalid id, 404 for a missing course, 500 without a caller, 403 for a caller who is neither admin nor the instructor. 200 exactly for the owner or an admin, with the deletion message, and then only that course is removed; otherwise nothing changes |
| CourseController.RemoveKeepsCatalogueValid | controllers/courseController.js:165 | removing a course keeps the catalogue valid |
| CourseController.DeleteKeepsCatalogueValid | controllers/courseController.js:165 | a delete keeps the catalogue valid |
| CourseController.DeleteCourse | controllers/courseController.js:146-172 | the handler sends the reply and leaves the collections as `DeleteCourseSpec` decides |
| CourseController.EnrollSpec | controllers/courseController.js:178-210 | 400 for an invalid id, 404 for a missing course, 400 exactly when already enrolled. A loaded course that fails its validators is a 500 before anything is written. 200 exactly when the caller is stored, not yet listed, and both loaded documents pass their validators; then the caller is appended to the course and the course to the caller |
| CourseController.StoredAdminEnrollIsHalfDone | controllers/courseController.js:197-208 | a caller whose stored role is outside the enum gets a 500 after the course was saved: the course lists the caller, the caller's document does not list the course |
| CourseController.EnrollKeepsStudentsDistinct | controllers/courseController.js:192-198 | enrolment never lists a student twice |
| CourseController.EnrollTwiceRefused | controllers/courseController.js:192-194 | enrolling again right after an enrolment is refused |
| CourseController.ReplaceKeepsCatalogueValid | controllers/courseController.js:197-198 | saving a valid course under its id with its title unique keeps the catalogue valid |
| CourseController.EnrollKeepsStoreValid | controllers/courseController.js:197-202 | enrolment keeps both collections valid |
| CourseController.EnrollCourse | controllers/courseController.js:178-210 | the handler sends the reply, and leaves the collections and `req.user` as `EnrollSpec` decides |
| UserController.GetMe | controllers/userController.js:9-18 | 200 with exactly the profile `protect` attached |
| UserController.DistinctCardinality | controllers/userController.js:25-39 | a list without repetitions has as many ids as its set |
| UserController.GetAllUsers | controllers/userController.js:25-39 | every stored user is listed once, without password, in `find()` order, and `count` is the number of users |
| UserController.FilterUpdates | controllers/userController.js:48-55 | only allowlisted keys are copied, each with a value from the body. A key is present exactly when the body has it, and the last occurrence wins |
| UserController.OnlyNameIsCopied | controllers/userController.js:48-60 | the update holds at most `name`, and it is empty exactly when the body has no `name` |
| UserController.CollectUpdates | controllers/userController.js:48-55 | the `forEach` loop builds exactly the filtered updates |
| UserController.AssignUpdates | controllers/userController.js:63 | `Object.assign` changes only the name, trimmed by its setter |
| UserController.UpdateMeSpec | controllers/userController.js:47-79 | 400 when nothing allowlisted was sent; 500 without a caller. After the assignment to `req.user`, a profile that fails its validators is the 400 of a ValidationError, and a caller whose document is gone is the 500. 200 exactly when the trimmed name validates, the rest of the loaded caller passes its validators (address present, role in the enum) and the caller is stored; then only the caller's name changes. Otherwise no user changes |
| UserController.StoredAdminCannotRename | controllers/userController.js:63-76 | a caller whose stored role is outside the enum fails `save()` validation: 400, and no user changes |
| UserController.UpdateMeOnlyChangesName | controllers/userController.js:47-79 | a self-update never changes a role, address, password, enrolment or any other user |
| UserController.NoSelfPromotion | controllers/userController.js:48-55 | however the body is crafted, the caller's role stays the same |
| UserController.UpdateMeKeepsStoreValid | controllers/userController.js:63-64 | a self-update keeps the user collection valid |
| UserController.SaveProfile | controllers/userController.js:63-77 | `req.user.save()` runs the loaded caller's validators first (400), then needs the stored user (500), and then writes only the name and answers 200 with the profile |
| UserController.UpdateMe | controllers/userController.js:47-79 | the handler sends the reply and leaves the users and `req.user` as `UpdateMeSpec` decides, and keeps a valid database valid |
| AuthController.RegisterSpec | controllers/authController.js:18-51 | validation messages give 400 and a taken normalised address gives 400. 201 exactly when neither happens and `User.create` validates, and then the user is added under the new id and receives a token for it. Otherwise nothing changes |
| AuthController.AccountStep | controllers/authController.js:33-50 | once validation passed and the address is free, `register` answers 500 when `User.create` fails and otherwise 201 with a token for the inserted user |
| AuthController.CreateAccount | controllers/authController.js:33-50 | the `User.create` step inserts the created user under the new id and answers 201 with its token and summary, or answers 500 and writes nothing |
| AuthController.Register | controllers/authController.js:18-51 | the handler sends the reply and leaves the users as `RegisterSpec` decides |
| AuthController.RegisterKeepsStoreValid | controllers/authController.js:29-33 | registration keeps ids keyed, users valid and addresses unique |
| AuthController.LoginSpec | controllers/authController.js:59-99 | 200 exactly when a user has the normalised address and the password matches, and then the token and summary are that user's. Every other failure is the same 400 |
| AuthController.LoginFailureUniform | controllers/authController.js:71-81 | an unknown address and a wrong password get the identical reply |
| AuthController.LoginFindsUser | controllers/authController.js:69-93 | a registered address with its password logs in as exactly that user |
| AuthController.RegisterThenLogin | controllers/authController.js:18-93 | after a successful registration, logging in with the same address and password gives a token for the new user |
| AuthController.Login | controllers/authController.js:59-99 | the handler sends exactly the reply `LoginSpec` decides |

## Left out

- Token signing and checking (`jwt.sign`, `jwt.verify`) are parameters. The verifier is a function from the token text to a verdict: malformed, expired, failed or an id. The signature, the secret and the clock are not modelled.
- Password hashing and comparison (`bcrypt`) are parameters: `hash` for the pre-save hook, `matches` for `comparePassword`. The salt rounds from `middleware/userMeddleware.js` are not modelled.
- The image uploader (`middleware/imgUpload.js`) appears only as its outcome: no file or an accepted file, or an error sent to Express's default handler as a 500. File storage is not modelled. `imageUrl` is whatever the body sends: `BuildCourse` and `UpdatedCourse` copy it, and no handler sets it from the uploaded file.
- Request validation by express-validator in `routes/auth.js` is not part of this model. The handlers receive its list of messages as a parameter.
- `sort`, `populate` and the text index's matching are parameters. `GetCourses` receives the catalogue already sorted and the set of ids matching the search.
- Query parameters that are arrays are not modelled: every query parameter is a string or absent. Profile, sign-up and login bodies carry strings.
- Course bodies arrive already cast to the schema's types: a number for `price`, a boolean for `published`, ids for `instructor` and `studentsEnrolled`, a list of lessons. A value Mongoose would have to cast or cannot cast is not modelled. Examples are `price: "abc"`, an `instructor` that is not an id, or `lessons` sent as a multipart string. In the source such a value is a ValidationError (400) on create, and a CastError (500) from `findByIdAndUpdate` on update.
- CreateCourseSpec, CreateCourse: a body `_id` is not modelled. `Course.create({ ...req.body, instructor })` (controllers/courseController.js:86) would use it as the new course's id. The model takes a fresh `newId` that is not in the catalogue, so a body naming a taken id, which the source answers with a duplicate-key error and a 500, cannot be expressed.
- ObjectId: only the 24-hex-character form of `isValid` is modelled, not the 12-byte string form. A stored id is its lower-case text.
- Case folding covers ASCII letters only: `toLowerCase` on other scripts is not modelled. White space for `trim` is JavaScript's full set (the ASCII blanks, no-break space, the Unicode space separators, line and paragraph separators and the byte-order mark).
- ValidName, ValidTitle, LessonTitleOk, SignUpErrors: a length counts characters (Unicode scalar values), while JavaScript counts UTF-16 code units. A name, title or password with characters outside the Basic Multilingual Plane is longer in the source than in the model, so a `maxlength` or `minlength` bound can differ for such text.
- ParseInt, Paginate: `parseInt` returns a double. The model's integers are unbounded, so digits beyond 2^53 are not rounded, and a `skip` too large for the driver, which fails the query with a 500, is not modelled.
- Timestamps (`createdAt`, `updatedAt`) and the default `-createdAt` sort key are not modelled.
- Concurrency is not modelled. The unique checks before a write (`User.findOne`, the title index) are taken to run without interleaving requests, so a race between two registrations is out of scope.
- Admin users cannot arise through the API: the schema enum excludes `admin`. The guards that admit `admin` are modelled, and the lemmas show which routes are then unreachable.
- `GetCourses`: a non-numeric `page` or `limit` makes the query fail (500) instead of being passed to the driver as `NaN`.
- GetCourses, ListCourses: `total` is the number of courses the filter and the search select (`ListingTotal`), the corrected count of the finding below. As written, the handler reports `countDocuments(filter)`, which ignores the search (`ListingTotalAsWritten`).
- `CourseController.Window`: a negative limit is taken by its absolute value and 0 means no limit, as the MongoDB driver does. Mongoose's own error text is not modelled.
- `UserController.UpdateMeSpec`: it models `req.user` as the document that `save()` writes. Only `name` can be sent, so only the name is written back.
- Database failures, such as a lost connection, are not modelled. In the source they reach the `catch` blocks (for example the 500 of `login`, controllers/authController.js:95-98). The model produces a 500 only where the handler's own inputs cause it: a cast error, a failed `save()` or the unique index.
- Error messages carried by `err.message` in 500 replies are not modelled. A 500 reply carries the handler's fixed message only.
- `deleteCourse` is modelled in full, but no route mounts it (`CourseRoutes.DeleteUnreachable`).

## Findings

| source | as written | input that shows it | evidently intended | confidence | as-written member | corrected member |
|---|---|---|---|---|---|---|
| controllers/courseController.js:31 | `total` is `countDocuments(filter)`, and `filter` never receives the `$text` condition added to the query at line 17 | `GET /api/courses?q=x` with two published courses, only one matching `x`: `count` is 1 but `total` is 2 | `total` counts the courses the search and the filter select together | not executed | CourseController.ListingTotalAsWritten | CourseController.ListCourses |
