/** The database as an immutable value: the three collections, lookup by identifier with Mongoose's
    cast to ObjectId, the cascade the Bootcamp model's `remove` hook performs, and the reverse
    lookup behind its `courses` virtual. */
module Store {
  import opened Wrappers
  import Errors

  /** An ObjectId in its canonical text form: 24 lower-case hexadecimal digits. */
  type Id = string

  predicate IsHexDigit(c: char) {
    '0' <= c <= '9' || 'a' <= c <= 'f' || 'A' <= c <= 'F'
  }

  /** Whether a route parameter casts to an ObjectId: 24 hexadecimal digits in either case. */
  predicate IsObjectId(s: string) {
    |s| == 24 && forall i :: 0 <= i < |s| ==> IsHexDigit(s[i])
  }

  function LowerHex(c: char): char {
    if 'A' <= c <= 'F' then (c - 'A' + 'a') as char else c
  }

  /** The identifier a cast ObjectId prints as: its digits in lower case. */
  function Canonical(s: string): (r: Id)
    ensures |r| == |s|
    ensures forall i :: 0 <= i < |s| ==> r[i] == LowerHex(s[i])
  {
    if s == [] then [] else [LowerHex(s[0])] + Canonical(s[1..])
  }

  /** Whether an identifier is already in canonical form. */
  predicate IsCanonical(id: Id) {
    IsObjectId(id) && forall i :: 0 <= i < |id| ==> !('A' <= id[i] <= 'F')
  }

  /** The embedded `location` of a bootcamp. The schema's sub-path is `street`. */
  datatype Location = Location(
    coordinates: seq<real>,  // [longitude, latitude]
    formattedAddress: string,
    street: Option<string>,
    city: string,
    state: string,
    zipCode: string,
    country: string)

  datatype Bootcamp = Bootcamp(
    id: Id,
    name: string,
    slug: string,
    description: string,
    website: Option<string>,
    phone: Option<string>,
    email: Option<string>,
    address: Option<string>,
    location: Option<Location>,
    careers: seq<string>,
    averageRating: Option<real>,
    averageCost: Option<real>,
    photo: string,
    housing: bool,
    jobAssistance: bool,
    jobGuarantee: bool,
    acceptGi: bool,
    user: Id)

  datatype Course = Course(
    id: Id,
    title: string,
    description: string,
    weeks: string,
    tuition: real,
    minSkills: string,
    scholarshipAvailable: bool,
    bootcamp: Id,
    user: Id)

  /** A stored user. `password` is the stored bcrypt hash; the reset fields are absent until a
      reset is requested. */
  datatype User = User(
    id: Id,
    name: string,
    email: string,
    role: string,
    password: string,
    resetToken: Option<string>,
    resetExpire: Option<int>)

  /** The three collections. Users keep their natural (insertion) order, because `findOne` returns
      the first match in that order. */
  datatype Db = Db(users: seq<User>, bootcamps: map<Id, Bootcamp>, courses: map<Id, Course>)

  /** What a handler leaves behind: the outcome it sends and the database after it. */
  datatype Response<T> = Response(outcome: Errors.Outcome<T>, db: Db)

  /** The `data: {}` of a response. */
  datatype Empty = Empty

  /** The authenticated user a protected route attaches to the request: its id and role. */
  datatype Actor = Actor(id: Id, role: string)

  const Admin := "admin"

  /** The handlers' ownership rule: the record's owner, or an admin. */
  predicate OwnerOrAdmin(actor: Actor, owner: Id) {
    actor.id == owner || actor.role == Admin
  }

  /** Each record is stored under its own identifier. */
  predicate KeysAreIds(db: Db) {
    && (forall k :: k in db.bootcamps ==> db.bootcamps[k].id == k)
    && (forall k :: k in db.courses ==> db.courses[k].id == k)
  }

  /** Every course refers to a stored bootcamp. */
  predicate CoursesReferenceBootcamps(db: Db) {
    forall k :: k in db.courses ==> db.courses[k].bootcamp in db.bootcamps
  }

  /** `Model.findById(id)`: a parameter that does not cast to an ObjectId raises a CastError; otherwise
      the record stored under the cast identifier, if any. */
  function FindById<T>(m: map<Id, T>, id: string): (r: Result<Option<T>, Errors.ErrorValue>)
    ensures r.Failure? <==> !IsObjectId(id)
    ensures r.Failure? ==> r.error == Errors.CastError(id)
    ensures r.Success? ==> (r.value.Some? <==> Canonical(id) in m)
    ensures r.Success? && r.value.Some? ==> r.value.value == m[Canonical(id)]
  {
    if !IsObjectId(id) then Failure(Errors.CastError(id))
    else if Canonical(id) in m then Success(Some(m[Canonical(id)]))
    else Success(None)
  }

  /** A canonical identifier is its own cast. */
  lemma CanonicalFixed(id: Id)
    requires IsCanonical(id)
    ensures Canonical(id) == id
  {
    assert forall i :: 0 <= i < |id| ==> Canonical(id)[i] == id[i];
  }

  /** A stored record is found by its own identifier, and a malformed identifier is answered 404 by
      the error translator rather than "not found" by the handler. */
  lemma FindStored<T>(m: map<Id, T>, id: Id)
    requires IsCanonical(id)
    ensures id in m ==> FindById(m, id) == Success(Some(m[id]))
    ensures id !in m ==> FindById(m, id) == Success(None)
  {
    CanonicalFixed(id);
  }

  /** The `courses` virtual: the courses whose `bootcamp` is the given identifier. */
  function CoursesOf(db: Db, bootcamp: Id): (r: map<Id, Course>)
    ensures forall k :: k in r <==> k in db.courses && db.courses[k].bootcamp == bootcamp
    ensures forall k :: k in r ==> r[k] == db.courses[k]
  {
    map k | k in db.courses && db.courses[k].bootcamp == bootcamp :: db.courses[k]
  }

  /** The courses of distinct bootcamps are disjoint, and together they are all the courses. */
  lemma CoursesPartition(db: Db, a: Id, b: Id)
    ensures a != b ==> CoursesOf(db, a).Keys !! CoursesOf(db, b).Keys
    ensures forall k :: k in db.courses ==> k in CoursesOf(db, db.courses[k].bootcamp)
  {
  }

  /** `bootcamp.remove()`: the `remove` hook deletes the bootcamp's courses, then the bootcamp goes. */
  function RemoveBootcamp(db: Db, id: Id): (r: Db)
    ensures r.users == db.users
    ensures r.bootcamps == db.bootcamps - {id}
    ensures r.courses.Keys <= db.courses.Keys
    ensures forall k :: k in r.courses ==> r.courses[k] == db.courses[k]
  {
    Db(db.users, db.bootcamps - {id}, map k | k in db.courses && db.courses[k].bootcamp != id :: db.courses[k])
  }

  /** The cascade removes exactly the bootcamp's courses: afterwards it has none, every other bootcamp
      keeps exactly the courses it had, and no course is left pointing at a missing bootcamp. */
  lemma RemoveCascades(db: Db, id: Id)
    ensures forall k :: k in RemoveBootcamp(db, id).courses <==> k in db.courses && k !in CoursesOf(db, id)
    ensures CoursesOf(RemoveBootcamp(db, id), id) == map[]
    ensures forall b :: b != id ==> CoursesOf(RemoveBootcamp(db, id), b) == CoursesOf(db, b)
    ensures CoursesReferenceBootcamps(db) ==> CoursesReferenceBootcamps(RemoveBootcamp(db, id))
    ensures KeysAreIds(db) ==> KeysAreIds(RemoveBootcamp(db, id))
  {
    var r := RemoveBootcamp(db, id);
    forall b | b != id ensures CoursesOf(r, b) == CoursesOf(db, b) {
      assert CoursesOf(r, b).Keys == CoursesOf(db, b).Keys;
    }
  }

  /** The number of courses left is the number before, less the bootcamp's. */
  lemma RemoveCount(db: Db, id: Id)
    ensures |RemoveBootcamp(db, id).courses| == |db.courses| - |CoursesOf(db, id)|
  {
    var r := RemoveBootcamp(db, id);
    assert db.courses.Keys == r.courses.Keys + CoursesOf(db, id).Keys;
    assert r.courses.Keys !! CoursesOf(db, id).Keys;
    SplitSize(db.courses.Keys, r.courses.Keys, CoursesOf(db, id).Keys);
  }

  /** A set split into two disjoint parts has their sizes' sum as its size. */
  lemma SplitSize(whole: set<Id>, kept: set<Id>, gone: set<Id>)
    requires whole == kept + gone && kept !! gone
    ensures |whole| == |kept| + |gone|
  {
  }

  /** Storing a course under its identifier. */
  function PutCourse(db: Db, c: Course): (r: Db)
    ensures r.users == db.users && r.bootcamps == db.bootcamps
    ensures r.courses == db.courses[c.id := c]
  {
    db.(courses := db.courses[c.id := c])
  }

  /** A new course joins its bootcamp's `courses` and no other bootcamp's. */
  lemma PutCourseVirtual(db: Db, c: Course)
    requires c.id !in db.courses
    ensures CoursesOf(PutCourse(db, c), c.bootcamp) == CoursesOf(db, c.bootcamp)[c.id := c]
    ensures forall b :: b != c.bootcamp ==> CoursesOf(PutCourse(db, c), b) == CoursesOf(db, b)
  {
    var r := PutCourse(db, c);
    assert CoursesOf(r, c.bootcamp).Keys == CoursesOf(db, c.bootcamp).Keys + {c.id};
    forall b | b != c.bootcamp ensures CoursesOf(r, b) == CoursesOf(db, b) {
      assert CoursesOf(r, b).Keys == CoursesOf(db, b).Keys;
    }
  }

  /** Removing one course: no other record changes. */
  function RemoveCourse(db: Db, id: Id): (r: Db)
    ensures r.users == db.users && r.bootcamps == db.bootcamps
    ensures r.courses == db.courses - {id}
  {
    db.(courses := db.courses - {id})
  }

  /** Storing a bootcamp under its identifier. */
  function PutBootcamp(db: Db, b: Bootcamp): (r: Db)
    ensures r.users == db.users && r.courses == db.courses
    ensures r.bootcamps == db.bootcamps[b.id := b]
  {
    db.(bootcamps := db.bootcamps[b.id := b])
  }

  /** `findOne(condition)` on users: the first user in natural order that satisfies it. */
  function FirstUser(users: seq<User>, p: User -> bool): (r: Option<nat>)
    ensures r.Some? ==> r.value < |users| && p(users[r.value])
                         && forall j :: 0 <= j < r.value ==> !p(users[j])
    ensures r.None? <==> forall j :: 0 <= j < |users| ==> !p(users[j])
  {
    if users == [] then None
    else if p(users[0]) then Some(0)
    else
      match FirstUser(users[1..], p)
      case None => None
      case Some(i) => Some(i + 1)
  }

  /** Replacing the user at a position: every other user is unchanged. */
  function SetUser(users: seq<User>, i: nat, u: User): (r: seq<User>)
    requires i < |users|
    ensures |r| == |users| && r[i] == u
    ensures forall j :: 0 <= j < |users| && j != i ==> r[j] == users[j]
  {
    users[i := u]
  }
}
