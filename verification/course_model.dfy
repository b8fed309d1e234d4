/** The Course model of models/Course.js: required fields, the `minSkills` enum, the default of
    `scholarshipAvailable`, and updates with update validators. */
module CourseModel {
  import opened Wrappers
  import opened Store
  import Schema
  import Errors
  import Text

  const Skills: seq<string> := ["beg", "int", "adv"]

  const TitleRequired := "Please add a course Title."
  const DescriptionRequired := "Please add a course Description."
  const WeeksRequired := "Please add number of weeks."
  const TuitionRequired := "Please add a Tuition cost."
  const SkillsRequired := "Please add min Skills required."
  const BootcampRequired := "Add bootcamp related to this course."
  const UserRequired := "Add User related to this course."

  /** The fields a create or an update receives. `weeks` is a String path, so a number in the body
      arrives here as its text. */
  datatype Draft = Draft(
    title: Option<string>,
    description: Option<string>,
    weeks: Option<string>,
    tuition: Option<real>,
    minSkills: Option<string>,
    scholarshipAvailable: Option<bool>,
    bootcamp: Option<Id>,
    user: Option<Id>)

  /** `trim: true` on `title`. */
  function TrimmedTitle(d: Draft): (r: Option<string>)
    ensures r.None? <==> d.title.None?
    ensures r.Some? ==> r.value == Text.Trim(d.title.value)
  {
    if d.title.Some? then Some(Text.Trim(d.title.value)) else None
  }

  /** A course the schema accepts, stated path by path. */
  predicate Valid(d: Draft) {
    && Schema.Present(TrimmedTitle(d))
    && Schema.Present(d.description)
    && Schema.Present(d.weeks)
    && d.tuition.Some?
    && Schema.Present(d.minSkills) && d.minSkills.value in Skills
    && Schema.Present(d.bootcamp)
    && Schema.Present(d.user)
  }

  /** The check of each path in schema order; `only` restricts validation to the paths a draft sets. */
  function PathChecks(d: Draft, only: bool): (r: seq<Option<string>>)
    ensures |r| == 7
  {
    [ if only && d.title.None? then None else Schema.Required(TrimmedTitle(d), TitleRequired),
      if only && d.description.None? then None else Schema.Required(d.description, DescriptionRequired),
      if only && d.weeks.None? then None else Schema.Required(d.weeks, WeeksRequired),
      if only || d.tuition.Some? then None else Some(TuitionRequired),
      if only && d.minSkills.None? then None
      else Schema.FirstFailure([Schema.Required(d.minSkills, SkillsRequired), Schema.Enum(d.minSkills, Skills, "minSkills")]),
      if only && d.bootcamp.None? then None else Schema.Required(d.bootcamp, BootcampRequired),
      if only && d.user.None? then None else Schema.Required(d.user, UserRequired) ]
  }

  /** What each path's check means on a whole draft. */
  lemma CheckMeanings(d: Draft)
    ensures var checks := PathChecks(d, false);
              && (checks[0].None? <==> Schema.Present(TrimmedTitle(d)))
              && (checks[1].None? <==> Schema.Present(d.description))
              && (checks[2].None? <==> Schema.Present(d.weeks))
              && (checks[3].None? <==> d.tuition.Some?)
              && (checks[4].None? <==> Schema.Present(d.minSkills) && d.minSkills.value in Skills)
              && (checks[5].None? <==> Schema.Present(d.bootcamp))
              && (checks[6].None? <==> Schema.Present(d.user))
              && (d.minSkills.Some? && d.minSkills.value != "" && d.minSkills.value !in Skills ==>
                    checks[4] == Some(Schema.EnumMessage(d.minSkills.value, "minSkills")))
  {
    Schema.FirstOfTwo(Schema.Required(d.minSkills, SkillsRequired), Schema.Enum(d.minSkills, Skills, "minSkills"));
  }

  /** The entries of the ValidationError a create raises: none exactly when the draft is valid. */
  function Failures(d: Draft): (r: seq<string>)
    ensures r == [] <==> Valid(d)
    ensures d.minSkills.Some? && d.minSkills.value != "" && d.minSkills.value !in Skills ==>
              Schema.EnumMessage(d.minSkills.value, "minSkills") in r
  {
    var checks := PathChecks(d, false);
    CheckMeanings(d);
    assert (forall i :: 0 <= i < |checks| ==> checks[i].None?) <==>
             checks[0].None? && checks[1].None? && checks[2].None? && checks[3].None?
             && checks[4].None? && checks[5].None? && checks[6].None?;
    Schema.Failures(checks)
  }

  /** `Course.create(draft)`: validation, then the insert; `scholarshipAvailable` defaults to false. */
  function Create(courses: map<Id, Course>, d: Draft, id: Id): (r: Result<Course, Errors.ErrorValue>)
    ensures !Valid(d) ==> r == Failure(Errors.ValidationError(Failures(d)))
    ensures r.Success? <==> Valid(d) && id !in courses
    ensures r.Success? ==> var c := r.value;
              && c.id == id && c.title == Text.Trim(d.title.value) && c.description == d.description.value
              && c.weeks == d.weeks.value && c.tuition == d.tuition.value && c.minSkills == d.minSkills.value
              && c.scholarshipAvailable == d.scholarshipAvailable.GetOr(false)
              && c.bootcamp == d.bootcamp.value && c.user == d.user.value
  {
    var failures := Failures(d);
    if failures != [] then Failure(Errors.ValidationError(failures))
    else if id in courses then Failure(Errors.DuplicateKey())
    else
      Success(Course(id, TrimmedTitle(d).value, d.description.value, d.weeks.value, d.tuition.value,
                     d.minSkills.value, d.scholarshipAvailable.GetOr(false), d.bootcamp.value, d.user.value))
  }

  /** A stored course satisfies every constraint of the schema. */
  predicate Conforms(c: Course) {
    && c.title != "" && c.title == Text.Trim(c.title)
    && c.description != "" && c.weeks != ""
    && c.minSkills in Skills
    && c.bootcamp != "" && c.user != ""
  }

  lemma CreateConforms(courses: map<Id, Course>, d: Draft, id: Id)
    requires Create(courses, d, id).Success?
    ensures Conforms(Create(courses, d, id).value)
  {
    Text.TrimTwice(d.title.value);
  }

  /** The entries of the ValidationError an update raises: only the paths the update sets are checked. */
  function UpdateFailures(d: Draft): (r: seq<string>)
    ensures forall m :: m in r <==> exists i :: 0 <= i < 7 && PathChecks(d, true)[i] == Some(m)
  {
    Schema.Failures(PathChecks(d, true))
  }

  /** The fields an update sets, written over a stored course: every path the body carries takes the
      body's value (a title trimmed), and every other path keeps the stored one. */
  function Apply(c: Course, d: Draft): (r: Course)
    ensures r.id == c.id
    ensures r.bootcamp == d.bootcamp.GetOr(c.bootcamp) && r.user == d.user.GetOr(c.user)
    ensures d.title.Some? ==> r.title == Text.Trim(d.title.value)
    ensures d.title.None? ==> r.title == c.title
    ensures d.description.Some? ==> r.description == d.description.value
    ensures d.description.None? ==> r.description == c.description
    ensures d.weeks.Some? ==> r.weeks == d.weeks.value
    ensures d.weeks.None? ==> r.weeks == c.weeks
    ensures d.tuition.Some? ==> r.tuition == d.tuition.value
    ensures d.tuition.None? ==> r.tuition == c.tuition
    ensures d.minSkills.Some? ==> r.minSkills == d.minSkills.value
    ensures d.minSkills.None? ==> r.minSkills == c.minSkills
    ensures d.scholarshipAvailable.Some? ==> r.scholarshipAvailable == d.scholarshipAvailable.value
    ensures d.scholarshipAvailable.None? ==> r.scholarshipAvailable == c.scholarshipAvailable
  {
    Course(
      c.id,
      if d.title.Some? then Text.Trim(d.title.value) else c.title,
      d.description.GetOr(c.description),
      d.weeks.GetOr(c.weeks),
      d.tuition.GetOr(c.tuition),
      d.minSkills.GetOr(c.minSkills),
      d.scholarshipAvailable.GetOr(c.scholarshipAvailable),
      d.bootcamp.GetOr(c.bootcamp),
      d.user.GetOr(c.user))
  }

  /** `findByIdAndUpdate(id, body, { new: true, runValidators: true })` on a stored course. */
  function Update(courses: map<Id, Course>, id: Id, d: Draft): (r: Result<Course, Errors.ErrorValue>)
    requires id in courses
    ensures r.Failure? <==> UpdateFailures(d) != []
    ensures r.Failure? ==> r.error == Errors.ValidationError(UpdateFailures(d))
    ensures r.Success? ==> r.value == Apply(courses[id], d)
  {
    var failures := UpdateFailures(d);
    if failures != [] then Failure(Errors.ValidationError(failures)) else Success(Apply(courses[id], d))
  }

  /** An update that passes its validators keeps a conforming course conforming. */
  lemma UpdateConforms(courses: map<Id, Course>, id: Id, d: Draft)
    requires id in courses && Conforms(courses[id])
    requires Update(courses, id, d).Success?
    ensures Conforms(Update(courses, id, d).value)
  {
    var checks := PathChecks(d, true);
    assert forall i :: 0 <= i < 7 ==> checks[i].None?;
    assert checks[1].None? && checks[2].None? && checks[5].None? && checks[6].None?;
    if d.title.Some? {
      assert checks[0].None?;
      Text.TrimTwice(d.title.value);
    }
    if d.minSkills.Some? {
      Schema.FirstOfTwo(Schema.Required(d.minSkills, SkillsRequired), Schema.Enum(d.minSkills, Skills, "minSkills"));
      assert checks[4].None?;
    }
  }
}
