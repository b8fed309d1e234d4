# Bootcamps API core, in Dafny

A model of the decision logic of the Node.js/Express/Mongoose "bootcamps" REST API. The Dafny project covers these parts:

- **The list-query builder** of `middleware/advancedResults.js` (`query.dfy`, `operators.dfy`, `listing.dfy`):
  - it strips the reserved keys;
  - it serializes the filter as JSON and rewrites `gt|gte|lt|lte|in` with the regular expression's word-boundary semantics;
  - it builds the select and sort strings;
  - it parses page and limit with `parseInt(...) || default`;
  - it computes the page window and the envelope with its `next`/`prev` links.
- **The central error translator** of `middleware/error.js` (`errors.dfy`). It maps an error's shape to a status and a message, with `success: false`.
- **The Mongoose schemas** of `models/User.js`, `models/Bootcamp.js` and `models/Course.js` (`schema.dfy`, `user_model.dfy`, `bootcamp_model.dfy`, `course_model.dfy`):
  - the `required`, `maxlength`, `minlength`, `match`, `enum`, `min` and `max` validators, with one message per failing path (the order of the entries is not modelled; see "Left out");
  - trimming and defaults;
  - the unique indexes;
  - the save hooks: password hashing, slug and geocoding;
  - the cascade-remove hook and the `courses` virtual.
- **The store** (`store.dfy`): users as a sequence in natural order, because `findOne` returns the first match, and bootcamps and courses as maps from ObjectId to record. An identifier that is not 24 hex digits is a CastError; any other identifier is looked up in its lower-case form.
- **The handlers** of `controllers/auth.js`, `controllers/bootcamps.js` and `controllers/courses.js` (`auth.dfy`, `bootcamps.dfy`, `courses.dfy`). Each is a pure function from the store and the request to an outcome and a new store.
- **The route table** of `routes/bootcamps.js` (`routes.dfy`): registration order, first-match dispatch, and the `protect`/`authorize` gates composed with the handlers.

Crypto is passed in as functions: bcrypt's hash and compare, and SHA-256. Random tokens, salts, the time, new identifiers, the geocoder, the email outcome and environment variables are parameters.

`UserModel.HashHook` and `BootcampModel.StreetKey` select between two behaviours:
- the code as written: `EverySave` and `Stree`;
- the evidently intended behaviour: `WhenModified` and `Street`.

The handlers take the choice as a parameter. See "Findings".

## Model

| member | source | states |
|---|---|---|
| Errors.Translate | middleware/error.js:3-28 | Every reply has `success: false`. A ValidationError gives 400 with one message per entry. Otherwise code 11000 gives 400 "Duplicate field value.". Otherwise a CastError gives 404 naming the value. Otherwise the status is the copied one, 500 when it is absent or 0. The message is the copied one, or "Server Error" when it is absent or empty. A later rule overrides an earlier one. |
| Errors.CastMessageNamesValue | middleware/error.js:8-11 | A CastError gives 404, and its message contains the offending value. |
| Errors.ErrorResponseReply | middleware/error.js:4-27 | A handler's error with a non-zero status gets that status, whether or not the copy `{ ...err }` keeps its message. A kept non-empty message is sent as is; a lost one becomes "Server Error". |
| Errors.BareErrorIsServerError | middleware/error.js:24-27 | An error with neither status nor message gives 500 "Server Error". |
| Errors.Rejected | middleware/error.js:24-27 | A handler's rejection reaches the client with the status the handler chose. |
| Query.Strip | middleware/advancedResults.js:6-12 | No field left in the filter has a reserved key. Every field left comes from the query. Every field of the query with another key is kept. |
| Query.StripLookup | middleware/advancedResults.js:6-12 | After stripping, a reserved key is absent and any other key has the value it had in the query. |
| Query.UnescapeEscape | middleware/advancedResults.js:15-24 | `JSON.parse` recovers every string that `JSON.stringify` escaped. |
| Operators.FirstMatchIsFirst | middleware/advancedResults.js:18-21 | The alternative the engine takes at a position is the first, in the order `gt|gte|lt|lte|in`, that matches there and is followed by a word boundary. |
| Operators.ReplaceIsMarkWords | middleware/advancedResults.js:18-21 | The global replace equals an independent reference on every text. The reference prefixes `$` to each maximal run of word characters that is exactly `gt`, `gte`, `lt`, `lte` or `in`, and leaves everything else unchanged. |
| Operators.PunctuationUnchanged | middleware/advancedResults.js:18-21 | Text without word characters passes through the rewrite unchanged. |
| Query.RewriteStringify | middleware/advancedResults.js:15-21 | Rewriting the serialized filter is the same as rewriting each key and string value on its own. The JSON structure is untouched. |
| Listing.FilterIsRewrittenQuery | middleware/advancedResults.js:6-24 | For a query of plain keys and values, the filter is the stringified, stripped query with each key and value rewritten on its own, in keys and values alike. |
| Query.RewriteExample | middleware/advancedResults.js:18-21 | In `averageCost[lte]=10000` the key `lte` becomes `$lte`. |
| Query.FieldNameKept | middleware/advancedResults.js:18-21 | The field name `averageCost` is left as it is. |
| Query.ContainedNamesUntouched | middleware/advancedResults.js:18-21 | Words that merely contain an operator name (`gtex`, `lint`) are untouched. |
| Listing.FieldList | middleware/advancedResults.js:27-35 | An absent or empty `select`/`sort` asks for nothing. A nested object throws. Otherwise the value has each comma replaced by a space. |
| Text.TrimIsCore | models/Bootcamp.js:11 | `trim: true` removes white space from both ends and nothing else. The stored value is a slice of the input with only white space before and after it. |
| Text.TrimEmSpace | models/Bootcamp.js:11 | The trim also removes Unicode space separators, such as the em space and the ideographic space. |
| Text.TrimTwice | models/Bootcamp.js:11 | Trimming is idempotent, so a stored name passes the setter again unchanged. |
| Text.SplitJoin | middleware/advancedResults.js:28 | `split(',').join(' ')` replaces each comma by a space and changes nothing else. |
| Listing.PlanOptions | middleware/advancedResults.js:27-43 | The projection and order are the comma-to-space forms of `select` and `sort`. Without `sort` the order is `-createdAt`. |
| Listing.BuildPlan | middleware/advancedResults.js:6-43 | The plan fails exactly when `select` or `sort` is an object. Otherwise it carries the rewritten filter and the population asked for. |
| Listing.PageDefault | middleware/advancedResults.js:46 | A missing, non-numeric or zero `page` is 1. Any other parsed number is kept. |
| Listing.LimitDefault | middleware/advancedResults.js:47 | A missing, non-numeric or zero `limit` is 5. Any other parsed number is kept. |
| Text.ParseIntDigits | middleware/advancedResults.js:46-47 | `parseInt` of a run of digits followed by a non-digit is the value of the digits. |
| Listing.Window | middleware/advancedResults.js:51 | The page holds the matches from index `skip` on, at most `limit` of them, in order. |
| Listing.AdvancedResults | middleware/advancedResults.js:1-79 | The envelope has `success: true`, `count` equal to the number of items, and the items of the page window (at most `limit` of them). Its links are decided against the whole-collection count. A negative skip is rejected by the database. |
| Listing.PagesTile | middleware/advancedResults.js:48-51 | Pages 1..n laid end to end are the first `n*limit` matches: no match is skipped or repeated. |
| Listing.SecondPageOfTwo | middleware/advancedResults.js:46-69 | `limit=2&page=2` over five documents returns the 3rd and 4th, with `prev = {1, 2}` and `next = {3, 2}`. |
| Listing.WrittenNextSpurious | middleware/advancedResults.js:50-63 | As written, a filter matching 3 of 10 documents gets a `next` link on page 1 that leads to an empty page. |
| Listing.AdvancedResultsMatched | middleware/advancedResults.js:50-63 | The corrected builder decides the links against the number of matching documents. |
| Listing.MatchedNextIffMore | middleware/advancedResults.js:58-63 | With the corrected count and a positive page and limit, `next` is present iff the next page is non-empty. |
| Listing.NegativeLimitAlwaysNext | middleware/advancedResults.js:47-63 | With `limit=-3` the first page still runs, and even when nothing matches it offers `next = {2, -3}`. |
| Listing.WrittenNextCovers | middleware/advancedResults.js:50-63 | Whenever the corrected builder offers `next`, the builder as written offers it too. |
| UserModel.Failures | models/User.js:5-29 | The validation entries are empty iff all of these hold: the name is present; the email is present and matches; the role is `publisher` or `user`; the password is present with at least 6 characters. A missing password and a rejected email are each reported. |
| UserModel.CheckMeanings | models/User.js:10-29 | Each path's check fails exactly for the values its validators reject. The first failing validator supplies the message. |
| UserModel.RoleEnum | models/User.js:19-23 | `admin` is not an accepted role. The default role `user` is accepted. |
| UserModel.EmailMessageSpeaksOfPhone | models/User.js:14-17 | A rejected email is reported with the schema's message, which speaks of a phone number. |
| UserModel.Create | models/User.js:5-44 | Creation succeeds iff validation passes and no stored user has the email or the identifier. The failure is a ValidationError or a duplicate key. The new user comes last, with the role defaulted to `user`, the password hashed and no reset fields. |
| UserModel.CreateKeepsUnique | models/User.js:10-13 | Creation keeps emails and identifiers unique. |
| UserModel.HashPassword | models/User.js:39-44 | The declared hook rejects exactly when there is no password in memory, and otherwise writes the hash of that password. A guarded hook rejects only for an assigned but absent password, and does nothing when none was assigned. Whatever a hook writes is the hash of the in-memory password. |
| UserModel.Save | models/User.js:39-44 | A save rewrites only the saved user and keeps its identifier and reset fields as the document holds them. Under the declared hook a successful save stores the hash of the in-memory password. Under the guarded hook an unmodified password is stored as loaded, and a modified one is stored hashed. |
| UserModel.CreatedUserChecks | models/User.js:60-62 | After creation with password p, `checkPassword(p)` holds. With bcrypt comparing the first 72 UTF-8 bytes, `checkPassword(q)` holds exactly for the q that share those bytes with p. |
| UserModel.SaveRehashes | models/User.js:39-44 | As declared, saving a user loaded with its hash hashes the hash again. When that hash is 60 ASCII characters, as bcrypt's are, the original password then no longer checks, because no other text has the same 72-byte key. `UserModel.RehashingCrypto` exhibits a crypto that meets these assumptions. |
| UserModel.GuardedSaveKeepsHash | models/User.js:39-44 | With a hook that hashes only a modified password, the same save leaves the store as it was, and the password still checks. |
| BootcampModel.Failures | models/Bootcamp.js:5-101 | The validation entries of a new bootcamp are empty iff the draft is valid. Valid means: the trimmed name is present with at most 50 characters; the description is present with at most 500; the website and email, when non-empty, match; the phone has at most 20 characters; every career is one of the six; the rating lies in [1, 10]; the user is present. |
| BootcampModel.ChecksPassIffValid | models/Bootcamp.js:5-101 | Every path check passes exactly when the draft is valid. |
| BootcampModel.Create | models/Bootcamp.js:5-137 | The order is: validation, then the geocoder (a failed lookup throws), then the unique indexes on `_id` and `name`. The stored bootcamp has the trimmed name, the slug of that name, the geocoded location and no address. Its defaults are photo "no-photo.jpg" and four false flags. |
| BootcampModel.CreateConforms | models/Bootcamp.js:7-101 | Every created bootcamp satisfies the schema's bounds, and its website and email match their patterns. |
| BootcampModel.CreateKeepsNamesUnique | models/Bootcamp.js:7-13 | Creation keeps bootcamp names unique. |
| BootcampModel.StreetDropped | models/Bootcamp.js:126 | As written, the geocoded street is never stored. |
| BootcampModel.StreetKept | models/Bootcamp.js:120-131 | With the schema's key the street is stored, and the created bootcamp is otherwise the same. |
| BootcampModel.UpdateFailures | controllers/bootcamps.js:76-79 | Update validators report only the paths the body sets. |
| BootcampModel.Apply | controllers/bootcamps.js:76-79 | An update writes every schema path the body carries, `slug`, `location` and `user` included, and trims a new name. Every path the body leaves out keeps its stored value. The identifier never changes. |
| BootcampModel.Update | controllers/bootcamps.js:76-79 | An update fails with the update validators' entries or a name clash with another bootcamp. Otherwise it is the body applied to the stored bootcamp. |
| BootcampModel.UpdateConforms | controllers/bootcamps.js:76-79 | An update that passes its validators keeps a conforming bootcamp conforming, bounds and patterns alike. |
| BootcampModel.RenameKeepsSlug | models/Bootcamp.js:114-117 | `findByIdAndUpdate` runs no save hook. A renamed bootcamp keeps its old slug unless the body itself sets `slug`. |
| CourseModel.Failures | models/Course.js:3-44 | The validation entries of a new course are empty iff these are all present: title (trimmed), description, weeks, tuition, a `minSkills` among `beg`/`int`/`adv`, bootcamp and user. An unknown skill is reported with the enum message. |
| CourseModel.CheckMeanings | models/Course.js:3-44 | Each path's check fails exactly for the values its validators reject. |
| CourseModel.Create | models/Course.js:3-44 | Creation succeeds iff the draft is valid and the identifier is free. `scholarshipAvailable` defaults to false and `weeks` is stored as text. |
| CourseModel.CreateConforms | models/Course.js:3-44 | Every created course satisfies the schema. |
| CourseModel.UpdateFailures | controllers/courses.js:94-97 | Update validators report only the paths the body sets. |
| CourseModel.Apply | controllers/courses.js:94-97 | An update writes every path the body carries and trims a new title. Every path the body leaves out keeps its stored value, so `bootcamp` and `user` change only when the body sets them. The identifier never changes. |
| CourseModel.Update | controllers/courses.js:94-97 | An update fails exactly when a set path is invalid. Otherwise it is the body applied to the stored course. |
| CourseModel.UpdateConforms | controllers/courses.js:94-97 | An update that passes its validators keeps a conforming course conforming. |
| Store.FindById | controllers/bootcamps.js:22-23 | `findById` fails with a CastError exactly for a string that is not 24 hex digits. Otherwise it finds the record stored under the lower-case form. |
| Store.FindStored | controllers/bootcamps.js:22-23 | A stored identifier finds its own record. |
| Store.FirstUser | controllers/auth.js:41 | `findOne` returns the first user in natural order that satisfies the condition, or none when no user does. |
| Store.CoursesPartition | models/Bootcamp.js:147-152 | Two bootcamps never share a course, and every course belongs to its own bootcamp's virtual. |
| Store.RemoveBootcamp | models/Bootcamp.js:140-144 | Removing a bootcamp removes it and no other bootcamp, leaves users alone, and changes no remaining course. |
| Store.RemoveCascades | models/Bootcamp.js:140-144 | The courses removed are exactly the bootcamp's. Its virtual is then empty and every other bootcamp's is unchanged. Referential integrity and well-formed keys are preserved. |
| Store.RemoveCount | models/Bootcamp.js:140-144 | The number of courses drops by exactly the bootcamp's course count. |
| Store.PutCourseVirtual | models/Bootcamp.js:147-152 | A new course joins its bootcamp's virtual and no other. |
| Auth.Register | controllers/auth.js:14-25 | A failed create leaves the store and reports the error. Otherwise the new user is stored and answered with a token for it. |
| Auth.RegisterThenLogin | controllers/auth.js:14-52 | After a successful registration, logging in with the same email and password gives 200 and a token for the new account. |
| Auth.Login | controllers/auth.js:32-52 | A missing email or password gives 400 before any lookup. An unknown email gives 401 "Invalid credentials". For the first user with the email, login succeeds iff `checkPassword` holds, and then answers with that user's token. |
| Auth.LoginFailuresAlike | controllers/auth.js:41-49 | An unknown email and a wrong password give the identical reply: 401 "Invalid credentials", or 401 "Server Error" for both if the translator's copy loses the message. |
| Auth.Logout | controllers/auth.js:59-69 | Logout always answers 200 with `data: {}` and changes nothing. The token cookie is overwritten with "none" for ten seconds. |
| Auth.ForgotPassword | controllers/auth.js:91-134 | An unknown email gives 404 with no change. Success means 200 "Email sent", and only when the email went out. |
| Auth.ForgotPasswordRollsBack | controllers/auth.js:110-133 | With the guarded hook: when the email goes out, the hashed token and its expiry are stored. When it does not, both fields are cleared and the answer is 500. No other user and no password changes. |
| Auth.ForgotPasswordAlwaysFails | controllers/auth.js:117-128 | With the hook as declared, every request for a stored email ends in 500 "Server Error" with nothing stored. |
| Auth.ResetPassword | controllers/auth.js:141-164 | Reset succeeds iff some user's stored token equals the hash of the raw token, with an expiry strictly after now, and the new password passes validation. It then stores the hashed new password, clears both reset fields, changes no other user, and answers with a token. Any failure changes nothing, and no match gives 400 "Invalid token". |
| Auth.ResetNeedsLiveToken | controllers/auth.js:143-156 | A successful reset implies a user held the hashed token with an unexpired expiry. |
| Auth.ResetReplayFails | controllers/auth.js:158-161 | Replaying the raw token after a successful reset gives 400 and changes nothing, at any later time and with any password. |
| Auth.AdminResetRejected | controllers/auth.js:158-161 | An admin holding a live token still cannot reset: the save validates the role, and the answer is a 400 ValidationError. |
| Bootcamps.GetById | controllers/bootcamps.js:21-29 | A malformed identifier gives 404. A well-formed identifier of no bootcamp gives 500, because the handler throws a bare Error. Otherwise the answer is 200 with the bootcamp. |
| Bootcamps.Create | controllers/bootcamps.js:36-58 | The created bootcamp's `user` is the actor's id, whatever the body says. Creation fails with 400 iff the actor already owns a bootcamp and is not an admin. Success is 201 with the bootcamp stored. Failures change nothing. |
| Bootcamps.CreateOnePerUser | controllers/bootcamps.js:41-51 | A non-admin's successful create is their first, and afterwards they own exactly the new bootcamp. An admin is never refused for owning bootcamps. |
| Bootcamps.Authorized | controllers/bootcamps.js:66-74 | A missing bootcamp gives 404. An actor who is neither owner nor admin also gets 404, not 403. Success names the stored key. |
| Bootcamps.Update | controllers/bootcamps.js:65-85 | After the lookup and the ownership check, the update answers 200 with the updated bootcamp. Every failure leaves the store as it was. |
| Bootcamps.Delete | controllers/bootcamps.js:92-109 | After the lookup and the ownership check, the bootcamp is removed with its courses, and the answer is 200 with `data: {}`. Otherwise nothing changes. |
| Bootcamps.AddPhoto | controllers/bootcamps.js:150-198 | After the lookup and the ownership check, the upload is checked in order: no files (400), a files object without `file` (TypeError), a mimetype without "image" (400), a size above `MAX_FILE_SIZE` (400). On success the name `photo_<id><ext>` is stored as the photo and returned as `data`. Failures change nothing. |
| Bootcamps.EnvNumber | controllers/bootcamps.js:173 | An unset variable compares as NaN and a blank one as 0. A decimal integer with an optional sign and surrounding white space reads as its value. Any other text is NaN. |
| Bootcamps.SizeLimitEdges | controllers/bootcamps.js:173-177 | With `MAX_FILE_SIZE` unset every size passes. With it empty every non-empty file is refused. |
| Bootcamps.NegativeLimitRefusesAll | controllers/bootcamps.js:173-177 | With `MAX_FILE_SIZE` set to "-5", every upload is refused, an empty file included. |
| Bootcamps.BaseNameIsLastSegment | controllers/bootcamps.js:180 | The base name is the last run of the name without '/' that only slashes follow. It starts the name or follows a '/'. It is empty only when the name is nothing but slashes. |
| Bootcamps.Ext | controllers/bootcamps.js:180 | The extension is empty, or a '.' followed by text with no '.' or '/'. |
| Bootcamps.ExtOfPlainName | controllers/bootcamps.js:180 | For a name without '/', the extension runs from the last '.' to the end. It is empty when there is no '.' or when that '.' is the first character. |
| Bootcamps.ExtExamples | controllers/bootcamps.js:180 | `photo.jpg` has extension `.jpg`. |
| Bootcamps.ExtLastDotWins | controllers/bootcamps.js:180 | `archive.tar.gz` has extension `.gz`. |
| Bootcamps.ExtOfDotFile | controllers/bootcamps.js:180 | `.bashrc` has no extension. |
| Bootcamps.PhotoNameShape | controllers/bootcamps.js:180 | The stored name is "photo_", then the bootcamp's id, then the original extension. |
| Courses.GetCourses | controllers/courses.js:13-19 | The nested listing holds exactly the courses whose `bootcamp` is the parameter, and `count` is their number. A malformed parameter gives 404. |
| Courses.NestedIsVirtual | controllers/courses.js:13-19 | The nested listing of a stored identifier is that bootcamp's `courses` virtual. |
| Courses.GetCourse | controllers/courses.js:30-47 | A missing course gives 404. A found course is answered with 200 and no `count` field. |
| Courses.AddCourse | controllers/courses.js:54-75 | The new course's `bootcamp` is the route parameter and its `user` the actor, whatever the body says. A missing bootcamp gives 404, and an actor who is neither its owner nor admin also gets 404; then no course is created. Success is 200 with the course stored. |
| Courses.AddCourseKeepsReferences | controllers/courses.js:54-75 | Adding a course keeps every course pointing at a stored bootcamp. The new course joins its bootcamp's virtual. |
| Courses.Authorized | controllers/courses.js:85-92 | A missing course gives 404. An actor who is neither the course's `user` nor admin also gets 404. |
| Courses.UpdateCourse | controllers/courses.js:82-103 | After the lookup and the ownership check, the update answers 200 with the updated course. Failures change nothing. |
| Courses.UpdateMayOrphan | controllers/courses.js:94-97 | An update may point a course at a bootcamp that does not exist, which breaks referential integrity. |
| Courses.DeleteCourse | controllers/courses.js:110-128 | A successful delete removes only that course and answers 200 with `data: {}`. Otherwise nothing changes. |
| Routes.Dispatch | routes/bootcamps.js:19-33 | A request reaches the first registered entry that matches it. A `router.use` entry matches a prefix; a route matches the whole path and its verb. |
| Routes.GateCheck | routes/bootcamps.js:25 | `protect` refuses a request without a caller with 401. `authorize` then refuses a role outside its list with 403. |
| Routes.Serve | routes/bootcamps.js:19-33 | An unmatched request gets the framework's 404. A gate refusal is 401 or 403. A handler runs only for the entry dispatch picked. |
| Routes.RadiusUnreachable | routes/bootcamps.js:27-32 | No request, whatever its verb and path, is dispatched to the radius handler. |
| Routes.RadiusIsGetById | routes/bootcamps.js:27-32 | `GET /radius` is answered by get-by-id, for the id "radius", with 404, and changes nothing. |
| Routes.BootcampRemovalNeedsAdmin | routes/bootcamps.js:29 | Whatever the request, if a stored bootcamp disappears then the caller is an admin. |
| Routes.PublisherNeverDeletes | routes/bootcamps.js:29 | A publisher's `DELETE /:id` is refused with 403, even for their own bootcamp. |
| Routes.CreateGate | routes/bootcamps.js:23-25 | `POST /` reaches the create handler iff the caller is an authenticated admin or publisher. Otherwise the answer is 401 or 403. |
| Routes.UpdateGate | routes/bootcamps.js:31 | `PUT /:id` reaches the update handler iff the caller is an authenticated admin or publisher. |
| Routes.PhotoGate | routes/bootcamps.js:33 | `PUT /:id/photo` needs a caller of any role. Ownership is left to the handler. |
| Routes.ListingPublic | routes/bootcamps.js:26 | `GET /` goes to the listing whoever asks. |
| Routes.CoursesMounted | routes/bootcamps.js:20-21 | Every verb under `/:bootcampId/courses` goes to the course router, which is registered first. |

## Left out

- I/O and foreign code:
  - The database, bcrypt, SHA-256, JWT signing and verification, random token generation, the geocoding service and SMTP are left out.
  - Their results are parameters.
  - Signing a token is reduced to its payload and lifetime.
- `middleware/auth.js` is not part of this model.
  - `protect` and `authorize` are modelled by their contract: no caller gives 401; a role outside the list gives 403.
  - The caller that a token resolves to is a request parameter.
  - `GET /me` (`getMe`) is therefore not modelled.
- `getResetPasswordToken` is not defined in `models/User.js`.
  - As that file stands, the call at `controllers/auth.js:98` throws a TypeError, and every forgot-password request for a stored email ends in 500 "Server Error".
  - The model supplies the method the handler expects: the stored token is the SHA-256 of the raw token, and the expiry is a parameter.
- `Errors.ErrorResponseReply`: `utils/errorResponse.js` is not part of this model, and whether an `ErrorResponse`'s `message` survives the object spread at `middleware/error.js:4` depends on that class.
  - The handlers' outcomes keep the message in the copy, and the message texts their contracts name rest on that.
  - `Errors.ErrorResponseReply` and `Auth.LoginFailuresAlike` also state the reply for a lost message: the same status, with "Server Error".
- The geocoding radius search (`getBootcampsWithinRadius`, `controllers/bootcamps.js:116-143`) is left out: it calls an external service and does floating-point arithmetic. Its `units` parameter is read but never used, and the route is unreachable anyway (`Routes.RadiusUnreachable`).
- The listing handlers themselves are delegated to `Listing`:
  - `getBootcamps`, and `getCourses` outside the nested route, only send `res.advancedResults`.
  - Population of `courses` and `bootcamp` is an option of the plan, not a join.
- The nested course route also runs the listing middleware before `getCourses`; a `select` or `sort` object therefore rejects there as well. The model treats the two separately.
- The course router's own routes (`routes/courses.js`) are entered through `Routes.CoursesMounted` and modelled as the `Courses` handlers. A path the course router does not handle falls back to the framework's 404.
- `Courses.GetCourse` returns the course with its `bootcamp` identifier, not the populated name and description.
- `Courses.GetCourses` returns the nested listing as a map, without the database's natural order.
- ObjectIds given as 12-character strings are treated as malformed. Mongoose would accept them as raw bytes.
- Type casting of body fields is left out, except `weeks`, which is kept as text:
  - numbers and booleans arrive typed;
  - an array or object where a string is expected is not modelled.
- `Listing.AdvancedResults` leaves out three behaviours:
  - query values that arrive as arrays (a repeated key): only string and nested-object values are modelled;
  - unhandled rejections of the middleware, which is not wrapped in the async handler; a rejection is returned as a failure;
  - rejections of the filter by the database: `find` is total, so a value that fails to cast to the field's type (`?averageCost=abc`) or a top-level operator MongoDB refuses (`?in=x` becomes `$in`) is not a failure in the model.
- Lengths are counted in characters rather than UTF-16 code units. The reset token's expiry is an integer, and the time is a parameter. The `createdAt` fields are not modelled.
- JavaScript numbers are doubles; the model uses unbounded integers and exact reals. Rounding is therefore not modelled for `parseInt` results above 2^53, the skip `(page - 1) * limit`, `MAX_FILE_SIZE` and file sizes, or for `averageRating`, `averageCost` and `tuition`.
- `BootcampModel.Failures` (and the other `Failures`): the model lists the entries of a ValidationError in the schema's path order, one per path. Mongoose collects them by path state instead: required paths left unset, then the paths the body set, in the order it set them. For `careers`, Mongoose checks the enum on each element as its own path `careers.N`, giving one entry per bad element. The model gives one entry, for the first bad element, with the path `careers`. Whether the entries are empty is unaffected.
- The translator hands the list of entries to `ErrorResponse`, and the model sends that list as `error`. Turning it into text is up to `utils/errorResponse.js`: an `Error` constructor given the array would join the entries with commas.
- `Listing.FilterIsRewrittenQuery` (and `Query.Stringify`): keys are serialized in the query's order. `JSON.stringify`, and the copy `{ ...req.query }` before it, put integer-like keys such as `1` first, in ascending order. A query with such keys therefore gets a differently ordered filter string, with the same keys and values.
- Mongoose 5 semantics of an array `required`: an absent `careers` becomes `[]`, which passes.
- `Bootcamps.EnvNumber`: hexadecimal, binary, octal, exponent, fractional and `Infinity` forms of `MAX_FILE_SIZE` are treated as NaN, although `Number` reads them. Unset and blank values, and decimal integers with or without a sign, are modelled exactly.
- `Bootcamps.Ext` follows `path.parse` for names without '/', which is what an upload's file name is. For a path, it takes the extension of the base name, which differs from Node's posix `parse` on absolute names such as "/.." (Node gives ".").
- `Bootcamps.AddPhoto`: `file.mv` is not awaited. A failed move calls `next` after the response has been sent, so the outcome modelled is the 200 the client receives.
- `Routes.Dispatch`:
  - paths are given as already-split segments, so trailing slashes and percent-decoding are not modelled;
  - `GET` routes also answering `HEAD` is not modelled.
- `UserModel.SignedToken` does not model expiry arithmetic or the cookie options.
- `findOne({ email: undefined })`, in forgot-password without an email, is treated as matching no user.
- `Listing.MatchedNextIffMore` is stated for a positive page and limit only. A negative limit gets a `next` link whatever the count (`Listing.NegativeLimitAlwaysNext`).
- `BootcampModel.Apply` does not model the `enum: ['Point']` validator on `location.type`, because the model's location has no `type` field. A `createdAt` in the body is not modelled either.
- `UserModel.Bcrypt` idealizes bcrypt: two texts with different 72-byte keys never match the same hash. `UserModel.Correct` asks only that a hash accepts the text it was made from.

## Findings

| source | as written | input that shows it | evidently intended | confidence | as-written member | corrected member |
|---|---|---|---|---|---|---|
| models/User.js:39-44 | The save hook hashes `this.password` on every save. `forgotPassword` loads the user without the password and then saves it. | Latent while `getResetPasswordToken` is missing, because the call at `controllers/auth.js:98` throws first. Once that method exists, as the model supplies it: any forgot-password request for a stored email hands bcrypt `undefined` at the save of `controllers/auth.js:117`, and again at 128, so the answer is 500 and nothing is stored. | Hash only a password modified since loading, so the reset token is stored, or rolled back, as the handler intends. | medium, not executed | Auth.ForgotPasswordAlwaysFails | Auth.ForgotPasswordRollsBack |
| models/Bootcamp.js:126 | The geocoding hook writes the street under `stree`, which the schema does not declare. | Any create whose address geocodes to a place with a street name: the stored location has no street. | Write `street: loc[0].streetName`. | high, not executed | BootcampModel.StreetDropped | BootcampModel.StreetKept |
| middleware/advancedResults.js:50 | `next` is decided against `model.countDocuments()`, the whole collection. | `?housing=true` matching 3 of 10 documents: page 1 offers `next = {2, 5}`, and page 2 is empty. | Compare with the number of documents matching the filter. | medium, not executed | Listing.WrittenNextSpurious | Listing.MatchedNextIffMore |
