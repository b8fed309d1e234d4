/** The course handlers of controllers/courses.js: the nested listing of one bootcamp's courses, get,
    add, update and delete. */
module Courses {
  import opened Wrappers
  import opened Store
  import opened Errors
  import CourseModel

  const NotAuthorized := "The user is not authorized"

  function NoBootcamp(id: string): string {
    "No bootcamp with id " + id
  }

  function CourseNotFound(id: string): string {
    "Course with id " + id + " not found"
  }

  /** The message of update and delete, with its trailing space. */
  function NoCourse(id: string): string {
    "No Course with id " + id + " "
  }

  /** A listing's body: `count` is absent when the handler reads the length of something that has none. */
  datatype Listed<T> = Listed(count: Option<nat>, data: T)

  /** `getCourses` under `/bootcamps/:bootcampId/courses`: `Course.find({ bootcamp: bootcampId })`. */
  function GetCourses(db: Db, bootcampId: string): (r: Outcome<Listed<map<Id, Course>>>)
    ensures !IsObjectId(bootcampId) ==> r == Err(CastError(bootcampId)) && r.Status() == 404
    ensures IsObjectId(bootcampId) ==> r.Ok? && r.status == 200
    ensures r.Ok? ==> && (forall k :: k in r.data.data <==> k in db.courses && db.courses[k].bootcamp == Canonical(bootcampId))
                      && (forall k :: k in r.data.data ==> r.data.data[k] == db.courses[k])
                      && r.data.count == Some(|r.data.data|)
  {
    if !IsObjectId(bootcampId) then Err(CastError(bootcampId))
    else
      var found := CoursesOf(db, Canonical(bootcampId));
      Ok(200, Listed(Some(|found|), found))
  }

  /** The nested listing is the bootcamp's `courses` virtual. */
  lemma NestedIsVirtual(db: Db, bootcampId: Id)
    requires IsCanonical(bootcampId)
    ensures GetCourses(db, bootcampId) == Ok(200, Listed(Some(|CoursesOf(db, bootcampId)|), CoursesOf(db, bootcampId)))
  {
    CanonicalFixed(bootcampId);
  }

  /** `getCourse`: 404 when no course has the id; the body's `count` reads the length of a single
      document, which is undefined, so the field is absent. */
  function GetCourse(db: Db, courseId: string): (r: Outcome<Listed<Course>>)
    ensures r.Err? ==> r.Status() == 404
    ensures IsObjectId(courseId) && Canonical(courseId) !in db.courses ==>
              r == Err(ErrorResponse(CourseNotFound(courseId), 404))
    ensures r.Ok? <==> IsObjectId(courseId) && Canonical(courseId) in db.courses
    ensures r.Ok? ==> r == Ok(200, Listed(None, db.courses[Canonical(courseId)]))
  {
    match FindById(db.courses, courseId)
    case Failure(e) => Err(e)
    case Success(None) => Err(ErrorResponse(CourseNotFound(courseId), 404))
    case Success(Some(c)) => Ok(200, Listed(None, c))
  }

  /** `addCourse`: the course's `bootcamp` is the route parameter and its `user` the actor, whatever the
      body says; the bootcamp must exist and belong to the actor unless the actor is an admin; the answer
      is 200. The cast stores the parameter in canonical form. */
  function AddCourse(db: Db, actor: Actor, bootcampId: string, body: CourseModel.Draft, id: Id)
    : (r: Response<Course>)
    ensures r.outcome.Err? ==> r.db == db
    ensures !IsObjectId(bootcampId) ==> r.outcome == Err(CastError(bootcampId))
    ensures IsObjectId(bootcampId) && Canonical(bootcampId) !in db.bootcamps ==>
              r.outcome == Err(ErrorResponse(NoBootcamp(bootcampId), 404))
    ensures IsObjectId(bootcampId) && Canonical(bootcampId) in db.bootcamps
            && !OwnerOrAdmin(actor, db.bootcamps[Canonical(bootcampId)].user) ==>
              r.outcome == Err(ErrorResponse(NotAuthorized, 404))
    ensures r.outcome.Ok? ==> && IsObjectId(bootcampId) && Canonical(bootcampId) in db.bootcamps
                              && OwnerOrAdmin(actor, db.bootcamps[Canonical(bootcampId)].user)
                              && r.outcome.status == 200
                              && r.outcome.data.bootcamp == Canonical(bootcampId)
                              && r.outcome.data.user == actor.id
                              && r.outcome.data.id == id && id !in db.courses
                              && r.db == PutCourse(db, r.outcome.data)
  {
    match FindById(db.bootcamps, bootcampId)
    case Failure(e) => Response(Err(e), db)
    case Success(None) => Response(Err(ErrorResponse(NoBootcamp(bootcampId), 404)), db)
    case Success(Some(b)) =>
      if !OwnerOrAdmin(actor, b.user) then Response(Err(ErrorResponse(NotAuthorized, 404)), db)
      else
        var draft := body.(bootcamp := Some(Canonical(bootcampId)), user := Some(actor.id));
        match CourseModel.Create(db.courses, draft, id)
        case Failure(e) => Response(Err(e), db)
        case Success(c) => Response(Ok(200, c), PutCourse(db, c))
  }

  /** Adding a course keeps every course pointing at a stored bootcamp, and the new course appears in
      its bootcamp's `courses` and nowhere else. */
  lemma AddCourseKeepsReferences(db: Db, actor: Actor, bootcampId: string, body: CourseModel.Draft, id: Id)
    requires CoursesReferenceBootcamps(db)
    requires AddCourse(db, actor, bootcampId, body, id).outcome.Ok?
    ensures var r := AddCourse(db, actor, bootcampId, body, id);
              && CoursesReferenceBootcamps(r.db)
              && CoursesOf(r.db, Canonical(bootcampId)) == CoursesOf(db, Canonical(bootcampId))[id := r.outcome.data]
  {
    var r := AddCourse(db, actor, bootcampId, body, id);
    PutCourseVirtual(db, r.outcome.data);
  }

  /** Locating the course and checking the actor against the course's `user`, shared by update and
      delete. */
  function Authorized(db: Db, actor: Actor, courseId: string): (r: Result<Id, ErrorValue>)
    ensures r.Failure? ==> Outcome<Empty>.Err(r.error).Status() == 404
    ensures r.Success? <==> IsObjectId(courseId) && Canonical(courseId) in db.courses
                            && OwnerOrAdmin(actor, db.courses[Canonical(courseId)].user)
    ensures r.Success? ==> r.value == Canonical(courseId)
    ensures IsObjectId(courseId) && Canonical(courseId) !in db.courses ==>
              r == Failure(ErrorResponse(NoCourse(courseId), 404))
    ensures IsObjectId(courseId) && Canonical(courseId) in db.courses
            && !OwnerOrAdmin(actor, db.courses[Canonical(courseId)].user) ==>
              r == Failure(ErrorResponse(NotAuthorized, 404))
  {
    match FindById(db.courses, courseId)
    case Failure(e) => Failure(e)
    case Success(None) => Failure(ErrorResponse(NoCourse(courseId), 404))
    case Success(Some(c)) =>
      if !OwnerOrAdmin(actor, c.user) then Failure(ErrorResponse(NotAuthorized, 404))
      else Success(Canonical(courseId))
  }

  /** `updateCourse`: `findByIdAndUpdate` with the body and update validators. */
  function UpdateCourse(db: Db, actor: Actor, courseId: string, body: CourseModel.Draft): (r: Response<Course>)
    ensures Authorized(db, actor, courseId).Failure? ==> r == Response(Err(Authorized(db, actor, courseId).error), db)
    ensures r.outcome.Err? ==> r.db == db
    ensures r.outcome.Ok? ==> && Authorized(db, actor, courseId).Success?
                              && var k := Canonical(courseId);
                              && r.outcome == Ok(200, CourseModel.Apply(db.courses[k], body))
                              && r.db == PutCourse(db, r.outcome.data)
  {
    match Authorized(db, actor, courseId)
    case Failure(e) => Response(Err(e), db)
    case Success(k) =>
      match CourseModel.Update(db.courses, k, body)
      case Failure(e) => Response(Err(e), db)
      case Success(c) => Response(Ok(200, c), PutCourse(db, c))
  }

  /** An update may move a course to any bootcamp identifier, stored or not: nothing checks that the
      new `bootcamp` exists. */
  lemma UpdateMayOrphan(db: Db, actor: Actor, courseId: string, body: CourseModel.Draft)
    requires KeysAreIds(db)
    requires UpdateCourse(db, actor, courseId, body).outcome.Ok?
    requires body.bootcamp.Some? && body.bootcamp.value !in db.bootcamps
    ensures !CoursesReferenceBootcamps(UpdateCourse(db, actor, courseId, body).db)
  {
    var r := UpdateCourse(db, actor, courseId, body);
    var k := Canonical(courseId);
    assert r.db.courses[k].bootcamp == body.bootcamp.value;
  }

  /** `deleteCourse`: `course.remove()`, which removes that course alone; 200 with empty data. */
  function DeleteCourse(db: Db, actor: Actor, courseId: string): (r: Response<Empty>)
    ensures Authorized(db, actor, courseId).Failure? ==> r == Response(Err(Authorized(db, actor, courseId).error), db)
    ensures r.outcome.Ok? <==> Authorized(db, actor, courseId).Success?
    ensures r.outcome.Ok? ==> && r.outcome == Ok(200, Empty)
                              && r.db.users == db.users && r.db.bootcamps == db.bootcamps
                              && r.db.courses.Keys == db.courses.Keys - {Canonical(courseId)}
                              && forall k :: k in r.db.courses ==> r.db.courses[k] == db.courses[k]
  {
    match Authorized(db, actor, courseId)
    case Failure(e) => Response(Err(e), db)
    case Success(k) => Response(Ok(200, Empty), RemoveCourse(db, k))
  }
}
