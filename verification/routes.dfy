/** The route table of routes/bootcamps.js, served under `/api/v1/bootcamps`: entries in
    registration order, first match wins, and each entry's gate runs before its handler.

    A request path is given as its segments below the mount point, so `PUT /api/v1/bootcamps/5/photo`
    is `["5", "photo"]`. The gates are `protect`, which resolves the caller from a token (401 when
    there is none), and `authorize(roles...)`, which refuses a role outside the list (403). The
    caller a token resolves to is a parameter of the request. */
module Routes {
  import opened Wrappers
  import opened Store
  import opened Errors
  import BootcampModel
  import Bootcamps

  datatype Verb = GET | POST | PUT | DELETE

  /** A segment of a registered path: literal text, or a parameter such as `:id`. */
  datatype Segment = Lit(text: string) | Param

  datatype Handler =
    | CourseRouter | CreateBootcamp | ListBootcamps | DeleteBootcamp | GetBootcamp | UpdateBootcamp
    | RadiusSearch | AddPhoto

  /** `Public` runs the handler directly; `Protected` is `protect`; `Roles(rs)` is `protect` followed
      by `authorize(rs...)`. */
  datatype Gate = Public | Protected | Roles(allowed: seq<string>)

  /** A registration: `router.use` has no verb and matches a path prefix; a route has one verb and
      matches the whole path. */
  datatype Entry = Entry(verb: Option<Verb>, pattern: seq<Segment>, gate: Gate, handler: Handler)

  const Publishers: seq<string> := [Admin, "publisher"]

  const Table: seq<Entry> := [
    Entry(None, [Param, Lit("courses")], Public, CourseRouter),
    Entry(Some(POST), [], Roles(Publishers), CreateBootcamp),
    Entry(Some(GET), [], Public, ListBootcamps),
    Entry(Some(DELETE), [Param], Roles([Admin]), DeleteBootcamp),
    Entry(Some(GET), [Param], Public, GetBootcamp),
    Entry(Some(PUT), [Param], Roles(Publishers), UpdateBootcamp),
    Entry(Some(GET), [Lit("radius")], Public, RadiusSearch),
    Entry(Some(PUT), [Param, Lit("photo")], Protected, AddPhoto)]

  /** Routing ignores the case of ASCII letters in literal segments. */
  function LowerAscii(s: string): (r: string)
    ensures |r| == |s|
    ensures forall i :: 0 <= i < |s| ==> r[i] == if 'A' <= s[i] <= 'Z' then (s[i] - 'A' + 'a') as char else s[i]
  {
    if s == [] then []
    else [if 'A' <= s[0] <= 'Z' then (s[0] - 'A' + 'a') as char else s[0]] + LowerAscii(s[1..])
  }

  /** A parameter takes any non-empty segment. */
  predicate SegmentMatches(p: Segment, s: string) {
    match p
    case Lit(t) => LowerAscii(s) == t
    case Param => s != ""
  }

  predicate Matches(e: Entry, verb: Verb, path: seq<string>) {
    && (e.verb.None? || e.verb == Some(verb))
    && (if e.verb.None? then |e.pattern| <= |path| else |e.pattern| == |path|)
    && forall i :: 0 <= i < |e.pattern| ==> SegmentMatches(e.pattern[i], path[i])
  }

  /** The first entry at or after `from` that matches. */
  function FirstFrom(verb: Verb, path: seq<string>, from: nat): (r: Option<nat>)
    requires from <= |Table|
    ensures r.Some? ==> from <= r.value < |Table| && Matches(Table[r.value], verb, path)
    ensures r.Some? ==> forall j :: from <= j < r.value ==> !Matches(Table[j], verb, path)
    ensures r.None? ==> forall j :: from <= j < |Table| ==> !Matches(Table[j], verb, path)
    decreases |Table| - from
  {
    if from == |Table| then None
    else if Matches(Table[from], verb, path) then Some(from)
    else FirstFrom(verb, path, from + 1)
  }

  /** The entry a request reaches: the first registered one that matches. */
  function Dispatch(verb: Verb, path: seq<string>): (r: Option<nat>)
    ensures r.Some? ==> r.value < |Table| && Matches(Table[r.value], verb, path)
    ensures r.Some? ==> forall j :: 0 <= j < r.value ==> !Matches(Table[j], verb, path)
    ensures r.None? <==> forall j :: 0 <= j < |Table| ==> !Matches(Table[j], verb, path)
  {
    FirstFrom(verb, path, 0)
  }

  /** The status a gate refuses with, if it refuses: no caller is 401 before any role is looked at. */
  function GateCheck(g: Gate, caller: Option<Actor>): (r: Option<int>)
    ensures r.None? <==> g.Public? || (caller.Some? && (g.Roles? ==> caller.value.role in g.allowed))
    ensures r.Some? ==> r.value == (if caller.None? then 401 else 403)
  {
    match g
    case Public => None
    case Protected => if caller.None? then Some(401) else None
    case Roles(allowed) =>
      if caller.None? then Some(401)
      else if caller.value.role !in allowed then Some(403)
      else None
  }

  /** A request: the verb, the path below the mount point, the caller `protect` would resolve, and
      what the handlers read from the body and the upload. */
  datatype Request = Request(
    verb: Verb, path: seq<string>, caller: Option<Actor>, body: BootcampModel.Draft, files: Option<Bootcamps.Files>)

  /** What the handlers take from outside the request: the identifier the insert assigns, the
      validators' patterns, slugify, the geocoder, the key the save hook writes the street under, and
      `MAX_FILE_SIZE`. */
  datatype Env = Env(
    newId: Id, pat: BootcampModel.Patterns, slugify: string -> string, geocode: BootcampModel.Geocoder,
    key: BootcampModel.StreetKey, maxFileSize: Option<string>)

  /** How a request ends: no entry matched (the framework's own 404), a gate refused, a handler
      modelled in another module took over (the course router, the listing) or one left out (the
      radius search), or a bootcamp handler answered with a status and a store. */
  datatype Served =
    | NoRoute
    | Denied(status: int)
    | Delegated(to: Handler)
    | Handled(handler: Handler, status: int, db: Db)

  /** The store after a request. */
  function After(db: Db, s: Served): (r: Db)
    ensures s.Handled? ==> r == s.db
    ensures !s.Handled? ==> r == db
  {
    if s.Handled? then s.db else db
  }

  predicate NeedsCaller(h: Handler) {
    h in {CreateBootcamp, DeleteBootcamp, UpdateBootcamp, AddPhoto}
  }

  /** Running the handler an entry names, once its gate has let the request through. */
  function Run(db: Db, h: Handler, req: Request, env: Env): (r: Served)
    requires NeedsCaller(h) ==> req.caller.Some?
    requires h in {DeleteBootcamp, GetBootcamp, UpdateBootcamp, AddPhoto} ==> |req.path| >= 1
    ensures r.Handled? ==> r.handler == h
    ensures !r.Handled? ==> r == Delegated(h) && h in {CourseRouter, ListBootcamps, RadiusSearch}
  {
    match h
    case CourseRouter => Delegated(h)
    case ListBootcamps => Delegated(h)
    case RadiusSearch => Delegated(h)
    case CreateBootcamp =>
      var r := Bootcamps.Create(db, req.caller.value, req.body, env.newId, env.pat, env.slugify, env.geocode, env.key);
      Handled(h, r.outcome.Status(), r.db)
    case DeleteBootcamp =>
      var r := Bootcamps.Delete(db, req.caller.value, req.path[0]);
      Handled(h, r.outcome.Status(), r.db)
    case GetBootcamp =>
      Handled(h, Bootcamps.GetById(db, req.path[0]).Status(), db)
    case UpdateBootcamp =>
      var r := Bootcamps.Update(db, req.caller.value, req.path[0], req.body, env.pat);
      Handled(h, r.outcome.Status(), r.db)
    case AddPhoto =>
      var r := Bootcamps.AddPhoto(db, req.caller.value, req.path[0], req.files, env.maxFileSize);
      Handled(h, r.outcome.Status(), r.db)
  }

  /** Every entry whose handler reads an identifier has a parameter first, and every entry whose
      handler needs a caller is gated. */
  lemma TableShape(i: nat)
    requires i < |Table|
    ensures NeedsCaller(Table[i].handler) ==> !Table[i].gate.Public?
    ensures Table[i].handler in {DeleteBootcamp, GetBootcamp, UpdateBootcamp, AddPhoto} ==>
              |Table[i].pattern| >= 1 && Table[i].pattern[0] == Param
  {
  }

  /** A request through the table. */
  function Serve(db: Db, req: Request, env: Env): (r: Served)
    ensures Dispatch(req.verb, req.path).None? <==> r == NoRoute
    ensures r.Denied? ==> r.status in {401, 403}
    ensures r.Handled? ==> exists i :: Dispatch(req.verb, req.path) == Some(i) && Table[i].handler == r.handler
  {
    match Dispatch(req.verb, req.path)
    case None => NoRoute
    case Some(i) =>
      var e := Table[i];
      var refused := GateCheck(e.gate, req.caller);
      if refused.Some? then Denied(refused.value)
      else
        TableShape(i);
        Run(db, e.handler, req, env)
  }

  /** A request that reaches entry `i`: refused by its gate, or run by its handler. */
  lemma Routed(db: Db, req: Request, env: Env, i: nat)
    requires Dispatch(req.verb, req.path) == Some(i)
    ensures i < |Table|
    ensures GateCheck(Table[i].gate, req.caller).Some? ==> Serve(db, req, env) == Denied(GateCheck(Table[i].gate, req.caller).value)
    ensures GateCheck(Table[i].gate, req.caller).None? ==>
              && (NeedsCaller(Table[i].handler) ==> req.caller.Some?)
              && (Table[i].handler in {DeleteBootcamp, GetBootcamp, UpdateBootcamp, AddPhoto} ==> |req.path| >= 1)
              && Serve(db, req, env) == Run(db, Table[i].handler, req, env)
  {
    TableShape(i);
  }

  /** `GET /radius` is taken by `GET /:id`, registered earlier, so no request ever reaches the radius
      handler; whatever the verb and path, dispatch never picks it. */
  lemma RadiusUnreachable(verb: Verb, path: seq<string>)
    ensures Dispatch(verb, path) != Some(6)
  {
    if Matches(Table[6], verb, path) {
      assert LowerAscii(path[0]) == "radius";
      assert path[0] != "";
      assert SegmentMatches(Table[4].pattern[0], path[0]);
      assert Matches(Table[4], verb, path);
    }
  }

  /** And `GET /radius` itself asks `getBootcampById` for the bootcamp "radius", which is not an
      ObjectId: the answer is 404, and nothing changes. */
  lemma RadiusIsGetById(db: Db, caller: Option<Actor>, body: BootcampModel.Draft, files: Option<Bootcamps.Files>, env: Env)
    ensures Serve(db, Request(GET, ["radius"], caller, body, files), env) == Handled(GetBootcamp, 404, db)
  {
    var req := Request(GET, ["radius"], caller, body, files);
    DispatchRadius();
    Routed(db, req, env, 4);
    assert !IsObjectId("radius");
  }

  lemma DispatchRadius()
    ensures Dispatch(GET, ["radius"]) == Some(4)
  {
    var path := ["radius"];
    assert !Matches(Table[0], GET, path) && !Matches(Table[1], GET, path) && !Matches(Table[2], GET, path);
    assert !Matches(Table[3], GET, path);
    assert Matches(Table[4], GET, path);
  }

  /** Only a handler that deletes can shrink the set of stored bootcamps, and the delete route admits
      admins alone: whatever the request, if a bootcamp disappears the caller is an admin. */
  lemma BootcampRemovalNeedsAdmin(db: Db, req: Request, env: Env)
    ensures !(db.bootcamps.Keys <= After(db, Serve(db, req, env)).bootcamps.Keys) ==>
              req.caller.Some? && req.caller.value.role == Admin
  {
    var d := Dispatch(req.verb, req.path);
    if d.Some? {
      var i := d.value;
      Routed(db, req, env, i);
      if GateCheck(Table[i].gate, req.caller).None? && Table[i].handler != DeleteBootcamp {
        RunKeepsBootcamps(db, Table[i].handler, req, env);
      }
    }
  }

  /** Every handler but delete keeps every stored bootcamp. */
  lemma RunKeepsBootcamps(db: Db, h: Handler, req: Request, env: Env)
    requires NeedsCaller(h) ==> req.caller.Some?
    requires h in {DeleteBootcamp, GetBootcamp, UpdateBootcamp, AddPhoto} ==> |req.path| >= 1
    requires h != DeleteBootcamp
    ensures db.bootcamps.Keys <= After(db, Run(db, h, req, env)).bootcamps.Keys
  {
  }

  /** A publisher's `DELETE /:id` is refused with 403 at the gate, even for a bootcamp they own. */
  lemma PublisherNeverDeletes(db: Db, id: string, who: Id, body: BootcampModel.Draft,
                              files: Option<Bootcamps.Files>, env: Env)
    requires id != ""
    ensures Serve(db, Request(DELETE, [id], Some(Actor(who, "publisher")), body, files), env) == Denied(403)
  {
    var path := [id];
    assert Dispatch(DELETE, path) == Some(3) by {
      assert !Matches(Table[0], DELETE, path) && !Matches(Table[1], DELETE, path) && !Matches(Table[2], DELETE, path);
      assert Matches(Table[3], DELETE, path);
    }
    Routed(db, Request(DELETE, path, Some(Actor(who, "publisher")), body, files), env, 3);
  }

  /** `POST /` creates only for an authenticated admin or publisher: 401 without a caller, 403 for any
      other role, and otherwise the create handler answers. */
  lemma CreateGate(db: Db, req: Request, env: Env)
    requires req.verb == POST && req.path == []
    ensures var r := Serve(db, req, env);
              && (req.caller.None? ==> r == Denied(401))
              && (req.caller.Some? && req.caller.value.role !in Publishers ==> r == Denied(403))
              && (r.Handled? <==> req.caller.Some? && req.caller.value.role in Publishers)
              && (r.Handled? ==> r.handler == CreateBootcamp)
  {
    assert Dispatch(POST, []) == Some(1) by {
      assert !Matches(Table[0], POST, []);
      assert Matches(Table[1], POST, []);
    }
    Routed(db, req, env, 1);
  }

  /** `PUT /:id` updates only for an authenticated admin or publisher. */
  lemma UpdateGate(db: Db, req: Request, env: Env)
    requires req.verb == PUT && |req.path| == 1 && req.path[0] != ""
    ensures var r := Serve(db, req, env);
              && (req.caller.None? ==> r == Denied(401))
              && (req.caller.Some? && req.caller.value.role !in Publishers ==> r == Denied(403))
              && (r.Handled? <==> req.caller.Some? && req.caller.value.role in Publishers)
              && (r.Handled? ==> r.handler == UpdateBootcamp)
  {
    var path := req.path;
    assert Dispatch(PUT, path) == Some(5) by {
      assert !Matches(Table[0], PUT, path) && !Matches(Table[1], PUT, path) && !Matches(Table[2], PUT, path);
      assert !Matches(Table[3], PUT, path) && !Matches(Table[4], PUT, path);
      assert Matches(Table[5], PUT, path);
    }
    Routed(db, req, env, 5);
  }

  /** `PUT /:id/photo` needs a caller of any role; ownership is left to the handler. */
  lemma PhotoGate(db: Db, req: Request, env: Env)
    requires req.verb == PUT && |req.path| == 2 && req.path[0] != "" && LowerAscii(req.path[1]) == "photo"
    ensures var r := Serve(db, req, env);
              && (req.caller.None? ==> r == Denied(401))
              && (req.caller.Some? ==> r.Handled? && r.handler == AddPhoto)
  {
    DispatchPhoto(req.path);
    Routed(db, req, env, 7);
  }

  lemma DispatchPhoto(path: seq<string>)
    requires |path| == 2 && path[0] != "" && LowerAscii(path[1]) == "photo"
    ensures Dispatch(PUT, path) == Some(7)
  {
    assert LowerAscii(path[1]) != "courses";
    assert !Matches(Table[0], PUT, path);
    assert Matches(Table[7], PUT, path);
  }

  /** The listing is public: `GET /` goes to the listing whoever asks. */
  lemma ListingPublic(db: Db, req: Request, env: Env)
    requires req.verb == GET && req.path == []
    ensures Serve(db, req, env) == Delegated(ListBootcamps)
  {
    assert Dispatch(GET, []) == Some(2) by {
      assert !Matches(Table[0], GET, []) && !Matches(Table[1], GET, []);
      assert Matches(Table[2], GET, []);
    }
    Routed(db, req, env, 2);
  }

  /** Every verb under `/:bootcampId/courses` goes to the course router, which is registered first,
      with no gate of its own at this level. */
  lemma CoursesMounted(db: Db, req: Request, env: Env)
    requires |req.path| >= 2 && req.path[0] != "" && LowerAscii(req.path[1]) == "courses"
    ensures Serve(db, req, env) == Delegated(CourseRouter)
  {
    assert Matches(Table[0], req.verb, req.path);
    Routed(db, req, env, 0);
  }
}
