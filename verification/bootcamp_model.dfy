/** The Bootcamp model of models/Bootcamp.js: its validators and defaults, the two `save` hooks that
    set the slug and the geocoded location, and `findByIdAndUpdate` with update validators, which
    runs no `save` hook.

    The two regular expressions of the schema, `slugify` and the geocoding service are parameters. */
module BootcampModel {
  import opened Wrappers
  import opened Store
  import Schema
  import Errors
  import Text

  const Careers: seq<string> :=
    ["Web Development", "Mobile Development", "UI/UX", "Data Science", "Business", "Other"]

  /** Every entry names one of the careers the schema's enum admits. */
  predicate KnownCareers(careers: seq<string>) {
    forall i :: 0 <= i < |careers| ==> careers[i] in Careers
  }

  const MaxName: nat := 50
  const MaxDescription: nat := 500
  const MaxPhone: nat := 20
  const MinRating: real := 1.0
  const MaxRating: real := 10.0
  const DefaultPhoto := "no-photo.jpg"

  const NameRequired := "Please add a name."
  const NameTooLong := "Name can not be more than 50 chars."
  const DescriptionRequired := "Please add a description"
  const DescriptionTooLong := "Description can not be more than 500 chars"
  const WebsiteMismatch := "Please enter a valid website"
  const PhoneTooLong := "Phone can not be more than 20 chars."
  /** The schema gives the email pattern the phone message. */
  const EmailMismatch := "Phone can not be more than 20 chars."
  const RatingTooLow := "Rating must be at least 1."
  const RatingTooHigh := "Rating can not be more than 10."

  /** The schema's two regular expressions, as predicates. */
  datatype Patterns = Patterns(isWebsite: string -> bool, isEmail: string -> bool)

  /** The fields a create or an update receives; an absent field is `None`. A body may carry any
      schema path, `slug` and `location` included: a create's hooks overwrite both, an update writes
      them as given. */
  datatype Draft = Draft(
    name: Option<string>,
    slug: Option<string>,
    description: Option<string>,
    website: Option<string>,
    phone: Option<string>,
    email: Option<string>,
    address: Option<string>,
    location: Option<Location>,
    careers: Option<seq<string>>,
    averageRating: Option<real>,
    averageCost: Option<real>,
    photo: Option<string>,
    housing: Option<bool>,
    jobAssistance: Option<bool>,
    jobGuarantee: Option<bool>,
    acceptGi: Option<bool>,
    user: Option<Id>)

  /** `trim: true` on `name`: the value is trimmed when it is set, before any validator sees it. */
  function TrimmedName(d: Draft): (r: Option<string>)
    ensures r.None? <==> d.name.None?
    ensures r.Some? ==> r.value == Text.Trim(d.name.value)
  {
    if d.name.Some? then Some(Text.Trim(d.name.value)) else None
  }

  /** A bootcamp the schema accepts, stated path by path. */
  predicate Valid(d: Draft, pat: Patterns) {
    var name := TrimmedName(d);
    && Schema.Present(name) && |name.value| <= MaxName
    && Schema.Present(d.description) && |d.description.value| <= MaxDescription
    && (!Schema.Present(d.website) || pat.isWebsite(d.website.value))
    && (d.phone.None? || |d.phone.value| <= MaxPhone)
    && (!Schema.Present(d.email) || pat.isEmail(d.email.value))
    && (d.careers.None? || KnownCareers(d.careers.value))
    && (d.averageRating.None? || MinRating <= d.averageRating.value <= MaxRating)
    && Schema.Present(d.user)
  }

  /** The check of each path in schema order; `only` restricts validation to the paths a draft sets,
      as update validators do. `careers` is never reported missing: an absent array is stored as the
      empty array, which `required` accepts. */
  function PathChecks(d: Draft, pat: Patterns, only: bool): (r: seq<Option<string>>)
    ensures |r| == 8
  {
    var name := TrimmedName(d);
    [ if only && d.name.None? then None
      else Schema.FirstFailure([Schema.Required(name, NameRequired), Schema.MaxLength(name, MaxName, NameTooLong)]),
      if only && d.description.None? then None
      else Schema.FirstFailure([Schema.Required(d.description, DescriptionRequired),
                                Schema.MaxLength(d.description, MaxDescription, DescriptionTooLong)]),
      Schema.Match(d.website, pat.isWebsite, WebsiteMismatch),
      Schema.MaxLength(d.phone, MaxPhone, PhoneTooLong),
      Schema.Match(d.email, pat.isEmail, EmailMismatch),
      Schema.EnumEach(d.careers.GetOr([]), Careers, "careers"),
      Schema.FirstFailure([Schema.Min(d.averageRating, MinRating, RatingTooLow),
                           Schema.Max(d.averageRating, MaxRating, RatingTooHigh)]),
      if only && d.user.None? then None else Schema.Required(d.user, Schema.RequiredMessage("user")) ]
  }

  /** Every path's check passes exactly when the draft is valid. */
  lemma ChecksPassIffValid(d: Draft, pat: Patterns)
    ensures (forall i :: 0 <= i < 8 ==> PathChecks(d, pat, false)[i].None?) <==> Valid(d, pat)
  {
    Schema.AllOfEight(PathChecks(d, pat, false));
    BoundedPathsMeanings(d, pat);
    OtherPathsMeanings(d, pat);
  }

  /** What the checks with a single validator reject. */
  lemma OtherPathsMeanings(d: Draft, pat: Patterns)
    ensures var c := PathChecks(d, pat, false);
      && (c[2].None? <==> !Schema.Present(d.website) || pat.isWebsite(d.website.value))
      && (c[3].None? <==> d.phone.None? || |d.phone.value| <= MaxPhone)
      && (c[4].None? <==> !Schema.Present(d.email) || pat.isEmail(d.email.value))
      && (c[5].None? <==> d.careers.None? || KnownCareers(d.careers.value))
      && (c[7].None? <==> Schema.Present(d.user))
  {
  }

  /** What the checks with two validators reject. */
  lemma BoundedPathsMeanings(d: Draft, pat: Patterns)
    ensures var c := PathChecks(d, pat, false);
      var name := TrimmedName(d);
      && (c[0].None? <==> Schema.Present(name) && |name.value| <= MaxName)
      && (c[1].None? <==> Schema.Present(d.description) && |d.description.value| <= MaxDescription)
      && (c[6].None? <==> d.averageRating.None? || MinRating <= d.averageRating.value <= MaxRating)
  {
    var c := PathChecks(d, pat, false);
    TwoValidators(Schema.Required(TrimmedName(d), NameRequired),
                  Schema.MaxLength(TrimmedName(d), MaxName, NameTooLong), c[0]);
    TwoValidators(Schema.Required(d.description, DescriptionRequired),
                  Schema.MaxLength(d.description, MaxDescription, DescriptionTooLong), c[1]);
    TwoValidators(Schema.Min(d.averageRating, MinRating, RatingTooLow),
                  Schema.Max(d.averageRating, MaxRating, RatingTooHigh), c[6]);
  }

  lemma TwoValidators(a: Option<string>, b: Option<string>, c: Option<string>)
    requires c == Schema.FirstFailure([a, b])
    ensures c.None? <==> a.None? && b.None?
  {
    Schema.FirstOfTwo(a, b);
  }

  /** The entries of the ValidationError a create raises: none exactly when the draft is valid. */
  function Failures(d: Draft, pat: Patterns): (r: seq<string>)
    ensures r == [] <==> Valid(d, pat)
  {
    ChecksPassIffValid(d, pat);
    Schema.Failures(PathChecks(d, pat, false))
  }

  /** The first result of `geocoder.geocode(address)`. */
  datatype Place = Place(
    longitude: real,
    latitude: real,
    formattedAddress: string,
    streetName: string,
    city: string,
    stateCode: string,
    zipcode: string,
    countryCode: string)

  /** The geocoding service: the first result for an address, or `None` when the call fails or finds
      nothing (reading `loc[0]` then throws). */
  type Geocoder = Option<string> -> Option<Place>

  /** Which key the geocoding hook writes the street under: `stree`, as models/Bootcamp.js has it,
      which the schema does not know and therefore drops, or the schema's `street`. */
  datatype StreetKey = Stree | Street

  /** The `location` the geocoding hook builds from a place. */
  function LocationOf(key: StreetKey, p: Place): (l: Location)
    ensures l.coordinates == [p.longitude, p.latitude]
    ensures l.formattedAddress == p.formattedAddress && l.city == p.city && l.state == p.stateCode
            && l.zipCode == p.zipcode && l.country == p.countryCode
    ensures key == Stree ==> l.street.None?
    ensures key == Street ==> l.street == Some(p.streetName)
  {
    Location([p.longitude, p.latitude], p.formattedAddress,
             if key == Street then Some(p.streetName) else None,
             p.city, p.stateCode, p.zipcode, p.countryCode)
  }

  /** `Bootcamp.create(draft)`: validation; then the slug hook; then the geocoding hook, which replaces
      the address by a location; then the insert, which the unique indexes on `_id` and `name` can
      reject. Defaults fill the absent fields. `id` is the identifier the driver assigns. */
  function Create(bootcamps: map<Id, Bootcamp>, d: Draft, id: Id, pat: Patterns, slugify: string -> string,
                  geocode: Geocoder, key: StreetKey): (r: Result<Bootcamp, Errors.ErrorValue>)
    ensures !Valid(d, pat) ==> r == Failure(Errors.ValidationError(Failures(d, pat)))
    ensures Valid(d, pat) && geocode(d.address).None? ==> r == Failure(Errors.Thrown("TypeError"))
    ensures r.Success? <==>
              && Valid(d, pat) && geocode(d.address).Some?
              && id !in bootcamps
              && forall k :: k in bootcamps ==> bootcamps[k].name != TrimmedName(d).value
    ensures r.Success? ==> var b := r.value;
              && b.id == id && b.name == Text.Trim(d.name.value) && b.slug == slugify(b.name)
              && b.user == d.user.value
              && b.address.None? && b.location == Some(LocationOf(key, geocode(d.address).value))
              && b.careers == d.careers.GetOr([])
              && b.photo == d.photo.GetOr(DefaultPhoto)
              && b.housing == d.housing.GetOr(false) && b.jobAssistance == d.jobAssistance.GetOr(false)
              && b.jobGuarantee == d.jobGuarantee.GetOr(false) && b.acceptGi == d.acceptGi.GetOr(false)
  {
    var failures := Failures(d, pat);
    if failures != [] then Failure(Errors.ValidationError(failures))
    else
      var name := TrimmedName(d).value;
      var slug := slugify(name);
      match geocode(d.address)
      case None => Failure(Errors.Thrown("TypeError"))
      case Some(place) =>
        if id in bootcamps || exists k :: k in bootcamps && bootcamps[k].name == name then
          Failure(Errors.DuplicateKey())
        else
          Success(Bootcamp(
            id, name, slug, d.description.value, d.website, d.phone, d.email,
            None, Some(LocationOf(key, place)),
            d.careers.GetOr([]), d.averageRating, d.averageCost,
            d.photo.GetOr(DefaultPhoto),
            d.housing.GetOr(false), d.jobAssistance.GetOr(false), d.jobGuarantee.GetOr(false), d.acceptGi.GetOr(false),
            d.user.value))
  }

  /** The website and the email, when set and non-empty, match the schema's patterns. */
  predicate MatchesPatterns(b: Bootcamp, pat: Patterns) {
    && (b.website.None? || b.website.value == "" || pat.isWebsite(b.website.value))
    && (b.email.None? || b.email.value == "" || pat.isEmail(b.email.value))
  }

  /** The length, enum and range bounds of the schema and its required paths. */
  predicate WithinBounds(b: Bootcamp) {
    && b.name != "" && |b.name| <= MaxName && b.name == Text.Trim(b.name)
    && b.description != "" && |b.description| <= MaxDescription
    && (b.phone.None? || |b.phone.value| <= MaxPhone)
    && KnownCareers(b.careers)
    && (b.averageRating.None? || MinRating <= b.averageRating.value <= MaxRating)
    && b.user != ""
  }

  /** A stored bootcamp satisfies every constraint of the schema. */
  predicate Conforms(b: Bootcamp, pat: Patterns) {
    WithinBounds(b) && MatchesPatterns(b, pat)
  }

  lemma CreateConforms(bootcamps: map<Id, Bootcamp>, d: Draft, id: Id, pat: Patterns, slugify: string -> string,
                       geocode: Geocoder, key: StreetKey)
    requires Create(bootcamps, d, id, pat, slugify, geocode, key).Success?
    ensures Conforms(Create(bootcamps, d, id, pat, slugify, geocode, key).value, pat)
  {
    Text.TrimTwice(d.name.value);
  }

  /** Names stay unique across the collection. */
  predicate UniqueNames(bootcamps: map<Id, Bootcamp>) {
    forall a, b :: a in bootcamps && b in bootcamps && a != b ==> bootcamps[a].name != bootcamps[b].name
  }

  lemma CreateKeepsNamesUnique(bootcamps: map<Id, Bootcamp>, d: Draft, id: Id, pat: Patterns,
                               slugify: string -> string, geocode: Geocoder, key: StreetKey)
    requires UniqueNames(bootcamps)
    requires Create(bootcamps, d, id, pat, slugify, geocode, key).Success?
    ensures UniqueNames(bootcamps[id := Create(bootcamps, d, id, pat, slugify, geocode, key).value])
  {
  }

  /** As models/Bootcamp.js writes the hook, a geocoded street never reaches the stored location. */
  lemma StreetDropped(bootcamps: map<Id, Bootcamp>, d: Draft, id: Id, pat: Patterns, slugify: string -> string,
                      geocode: Geocoder)
    requires Create(bootcamps, d, id, pat, slugify, geocode, Stree).Success?
    ensures Create(bootcamps, d, id, pat, slugify, geocode, Stree).value.location.value.street.None?
  {
  }

  /** With the schema's key the street is stored, and nothing else about the create changes. */
  lemma StreetKept(bootcamps: map<Id, Bootcamp>, d: Draft, id: Id, pat: Patterns, slugify: string -> string,
                   geocode: Geocoder)
    requires Create(bootcamps, d, id, pat, slugify, geocode, Street).Success?
    ensures Create(bootcamps, d, id, pat, slugify, geocode, Street).value.location.value.street
            == Some(geocode(d.address).value.streetName)
    ensures Create(bootcamps, d, id, pat, slugify, geocode, Stree).Success?
    ensures Create(bootcamps, d, id, pat, slugify, geocode, Stree).value
            == Create(bootcamps, d, id, pat, slugify, geocode, Street).value.(
                 location := Some(LocationOf(Stree, geocode(d.address).value)))
  {
    var dropped := Create(bootcamps, d, id, pat, slugify, geocode, Stree);
    assert dropped.Success?;
    assert dropped.value.location == Some(LocationOf(Stree, geocode(d.address).value));
  }

  /** The entries of the ValidationError an update raises: only the paths the update sets are checked. */
  function UpdateFailures(d: Draft, pat: Patterns): (r: seq<string>)
    ensures forall m :: m in r <==> exists i :: 0 <= i < 8 && PathChecks(d, pat, true)[i] == Some(m)
  {
    Schema.Failures(PathChecks(d, pat, true))
  }

  /** An optional path after an update: the body's value when it carries one, else the stored one. */
  function Overriding<T>(given: Option<T>, stored: Option<T>): (r: Option<T>)
    ensures given.Some? ==> r == given
    ensures given.None? ==> r == stored
  {
    if given.Some? then given else stored
  }

  /** The fields an update sets, written over a stored bootcamp: every path the body carries takes
      the body's value (a name trimmed), and every other path keeps the stored one. The `save` hooks
      do not run, so the slug and the location change only when the body itself carries them. */
  function Apply(b: Bootcamp, d: Draft): (r: Bootcamp)
    ensures r.id == b.id
    ensures r.slug == d.slug.GetOr(b.slug)
    ensures d.location.None? ==> r.location == b.location
    ensures r.name == (if d.name.Some? then Text.Trim(d.name.value) else b.name)
    ensures r.user == d.user.GetOr(b.user)
    ensures d.website.Some? ==> r.website == d.website
    ensures d.website.None? ==> r.website == b.website
    ensures d.phone.Some? ==> r.phone == d.phone
    ensures d.phone.None? ==> r.phone == b.phone
    ensures d.email.Some? ==> r.email == d.email
    ensures d.email.None? ==> r.email == b.email
    ensures d.address.Some? ==> r.address == d.address
    ensures d.address.None? ==> r.address == b.address
    ensures d.averageRating.Some? ==> r.averageRating == d.averageRating
    ensures d.averageRating.None? ==> r.averageRating == b.averageRating
    ensures d.averageCost.Some? ==> r.averageCost == d.averageCost
    ensures d.averageCost.None? ==> r.averageCost == b.averageCost
    ensures d.location.Some? ==> r.location == d.location
    ensures d.description.Some? ==> r.description == d.description.value
    ensures d.description.None? ==> r.description == b.description
    ensures d.photo.Some? ==> r.photo == d.photo.value
    ensures d.photo.None? ==> r.photo == b.photo
    ensures d.housing.Some? ==> r.housing == d.housing.value
    ensures d.housing.None? ==> r.housing == b.housing
    ensures d.jobAssistance.Some? ==> r.jobAssistance == d.jobAssistance.value
    ensures d.jobAssistance.None? ==> r.jobAssistance == b.jobAssistance
    ensures d.jobGuarantee.Some? ==> r.jobGuarantee == d.jobGuarantee.value
    ensures d.jobGuarantee.None? ==> r.jobGuarantee == b.jobGuarantee
    ensures d.acceptGi.Some? ==> r.acceptGi == d.acceptGi.value
    ensures d.acceptGi.None? ==> r.acceptGi == b.acceptGi
    ensures d.careers.Some? ==> r.careers == d.careers.value
    ensures d.careers.None? ==> r.careers == b.careers
  {
    Bootcamp(
      b.id,
      if d.name.Some? then Text.Trim(d.name.value) else b.name,
      d.slug.GetOr(b.slug),
      d.description.GetOr(b.description),
      Overriding(d.website, b.website),
      Overriding(d.phone, b.phone),
      Overriding(d.email, b.email),
      Overriding(d.address, b.address),
      Overriding(d.location, b.location),
      d.careers.GetOr(b.careers),
      Overriding(d.averageRating, b.averageRating),
      Overriding(d.averageCost, b.averageCost),
      d.photo.GetOr(b.photo),
      d.housing.GetOr(b.housing),
      d.jobAssistance.GetOr(b.jobAssistance),
      d.jobGuarantee.GetOr(b.jobGuarantee),
      d.acceptGi.GetOr(b.acceptGi),
      d.user.GetOr(b.user))
  }

  /** `findByIdAndUpdate(id, body, { new: true, runValidators: true })` on a stored bootcamp: update
      validators on the paths set, then the write, which the unique index on `name` can reject. */
  function Update(bootcamps: map<Id, Bootcamp>, id: Id, d: Draft, pat: Patterns): (r: Result<Bootcamp, Errors.ErrorValue>)
    requires id in bootcamps
    ensures UpdateFailures(d, pat) != [] ==> r == Failure(Errors.ValidationError(UpdateFailures(d, pat)))
    ensures r.Success? <==>
              UpdateFailures(d, pat) == []
              && forall k :: k in bootcamps && k != id ==> bootcamps[k].name != Apply(bootcamps[id], d).name
    ensures r.Success? ==> r.value == Apply(bootcamps[id], d)
  {
    var failures := UpdateFailures(d, pat);
    if failures != [] then Failure(Errors.ValidationError(failures))
    else
      var updated := Apply(bootcamps[id], d);
      if exists k :: k in bootcamps && k != id && bootcamps[k].name == updated.name then Failure(Errors.DuplicateKey())
      else Success(updated)
  }

  /** No update derives a slug from the new name: the slug is the one the body carries, or else the
      one derived from the old name. */
  lemma RenameKeepsSlug(bootcamps: map<Id, Bootcamp>, id: Id, d: Draft, pat: Patterns)
    requires id in bootcamps
    requires Update(bootcamps, id, d, pat).Success?
    ensures Update(bootcamps, id, d, pat).value.slug == d.slug.GetOr(bootcamps[id].slug)
    ensures d.slug.None? ==> Update(bootcamps, id, d, pat).value.slug == bootcamps[id].slug
  {
  }

  /** An update that passes its validators keeps a conforming bootcamp conforming: every path it
      writes is one the update validators checked. */
  lemma UpdateConforms(bootcamps: map<Id, Bootcamp>, id: Id, d: Draft, pat: Patterns)
    requires id in bootcamps && Conforms(bootcamps[id], pat)
    requires Update(bootcamps, id, d, pat).Success?
    ensures Conforms(Update(bootcamps, id, d, pat).value, pat)
  {
    assert forall i :: 0 <= i < 8 ==> PathChecks(d, pat, true)[i].None?;
    UpdateChecksMeaning(d, pat);
    ApplyConforms(bootcamps[id], d, pat);
  }

  /** Every path a draft sets satisfies its validators. */
  predicate SetPathsValid(d: Draft, pat: Patterns) {
    && (d.name.Some? ==> Schema.Present(TrimmedName(d)) && |TrimmedName(d).value| <= MaxName)
    && (d.description.Some? ==> Schema.Present(d.description) && |d.description.value| <= MaxDescription)
    && (!Schema.Present(d.website) || pat.isWebsite(d.website.value))
    && (d.phone.None? || |d.phone.value| <= MaxPhone)
    && (!Schema.Present(d.email) || pat.isEmail(d.email.value))
    && (d.careers.None? || KnownCareers(d.careers.value))
    && (d.averageRating.None? || MinRating <= d.averageRating.value <= MaxRating)
    && (d.user.Some? ==> d.user.value != "")
  }

  /** The update validators pass exactly for the paths they check. */
  lemma UpdateChecksMeaning(d: Draft, pat: Patterns)
    requires forall i :: 0 <= i < 8 ==> PathChecks(d, pat, true)[i].None?
    ensures SetPathsValid(d, pat)
  {
    var checks := PathChecks(d, pat, true);
    assert checks[2].None? && checks[3].None? && checks[4].None? && checks[5].None? && checks[7].None?;
    if d.name.Some? {
      assert checks[0].None?;
      Schema.FirstOfTwo(Schema.Required(TrimmedName(d), NameRequired),
                        Schema.MaxLength(TrimmedName(d), MaxName, NameTooLong));
    }
    if d.description.Some? {
      assert checks[1].None?;
      Schema.FirstOfTwo(Schema.Required(d.description, DescriptionRequired),
                        Schema.MaxLength(d.description, MaxDescription, DescriptionTooLong));
    }
    if d.averageRating.Some? {
      assert checks[6].None?;
      Schema.FirstOfTwo(Schema.Min(d.averageRating, MinRating, RatingTooLow),
                        Schema.Max(d.averageRating, MaxRating, RatingTooHigh));
    }
  }

  /** Writing valid paths over a conforming bootcamp keeps it conforming. */
  lemma ApplyConforms(b: Bootcamp, d: Draft, pat: Patterns)
    requires Conforms(b, pat) && SetPathsValid(d, pat)
    ensures Conforms(Apply(b, d), pat)
  {
    if d.name.Some? {
      Text.TrimTwice(d.name.value);
    }
  }

}
