/** The bootcamp handlers of controllers/bootcamps.js: get by id, create, update, delete and photo
    upload. The actor is the user the authentication middleware attached to the request. */
module Bootcamps {
  import opened Wrappers
  import opened Store
  import opened Errors
  import BootcampModel
  import Text

  const NotFound := "Bootcamp not found"
  const NotAuthorized := "The user is not authorized"
  const NoFile := "Please upload a file"
  const NotImage := "Invalid file type"

  function AlreadyPublished(id: Id): string {
    "The user with id: " + id + " has already published a bootcamp"
  }

  function TooLarge(limit: string): string {
    "File size less than " + limit
  }

  /** `getBootcampById`: a missing bootcamp throws a bare `Error`, which the translator turns into
      500; an identifier that is not an ObjectId is a CastError, which it turns into 404. */
  function GetById(db: Db, id: string): (r: Outcome<Bootcamp>)
    ensures !IsObjectId(id) ==> r == Err(CastError(id)) && r.Status() == 404
    ensures IsObjectId(id) && Canonical(id) !in db.bootcamps ==> r == Err(Thrown("Error")) && r.Status() == 500
    ensures IsObjectId(id) && Canonical(id) in db.bootcamps ==> r == Ok(200, db.bootcamps[Canonical(id)])
  {
    match FindById(db.bootcamps, id)
    case Failure(e) => Err(e)
    case Success(None) => Err(Thrown("Error"))
    case Success(Some(b)) => Ok(200, b)
  }

  /** Whether the user already owns a bootcamp (`Bootcamp.findOne({ user })`). */
  predicate Published(db: Db, user: Id) {
    exists k :: k in db.bootcamps && db.bootcamps[k].user == user
  }

  /** The bootcamps a user owns. */
  function Owned(db: Db, user: Id): set<Id> {
    set k | k in db.bootcamps && db.bootcamps[k].user == user
  }

  /** `createBootcamp`: the body's `user` is replaced by the actor's id; a user who is not an admin and
      already owns a bootcamp is refused with 400; otherwise `Bootcamp.create` and 201. */
  function Create(db: Db, actor: Actor, body: BootcampModel.Draft, id: Id, pat: BootcampModel.Patterns,
                  slugify: string -> string, geocode: BootcampModel.Geocoder, key: BootcampModel.StreetKey)
    : (r: Response<Bootcamp>)
    ensures r.outcome == Err(ErrorResponse(AlreadyPublished(actor.id), 400)) <==> Published(db, actor.id) && actor.role != Admin
    ensures r.outcome.Ok? ==> && r.outcome.status == 201
                              && r.outcome.data.user == actor.id
                              && r.outcome.data.id == id
                              && r.db == PutBootcamp(db, r.outcome.data)
    ensures r.outcome.Ok? <==>
              && !(Published(db, actor.id) && actor.role != Admin)
              && BootcampModel.Create(db.bootcamps, body.(user := Some(actor.id)), id, pat, slugify, geocode, key).Success?
    ensures r.outcome.Err? ==> r.db == db
  {
    var draft := body.(user := Some(actor.id));
    if Published(db, actor.id) && actor.role != Admin then
      Response(Err(ErrorResponse(AlreadyPublished(actor.id), 400)), db)
    else
      match BootcampModel.Create(db.bootcamps, draft, id, pat, slugify, geocode, key)
      case Failure(e) => Response(Err(e), db)
      case Success(b) => Response(Ok(201, b), PutBootcamp(db, b))
  }

  /** One bootcamp per user who is not an admin: such a user's successful create is their first, and
      afterwards they own exactly the new one. An admin is never refused for owning bootcamps. */
  lemma CreateOnePerUser(db: Db, actor: Actor, body: BootcampModel.Draft, id: Id, pat: BootcampModel.Patterns,
                         slugify: string -> string, geocode: BootcampModel.Geocoder, key: BootcampModel.StreetKey)
    ensures var r := Create(db, actor, body, id, pat, slugify, geocode, key);
              && (actor.role != Admin && r.outcome.Ok? ==> Owned(db, actor.id) == {} && Owned(r.db, actor.id) == {id})
              && (actor.role == Admin ==> r.outcome != Err(ErrorResponse(AlreadyPublished(actor.id), 400)))
  {
    var r := Create(db, actor, body, id, pat, slugify, geocode, key);
    if actor.role != Admin && r.outcome.Ok? {
      assert !Published(db, actor.id);
      assert Owned(r.db, actor.id) == {id} by {
        forall k | k in r.db.bootcamps && r.db.bootcamps[k].user == actor.id ensures k == id {
        }
      }
    }
  }

  /** Locating the bootcamp and checking the actor, shared by update, delete and photo upload: 404 when
      it is missing, and 404 again, not 403, when the actor neither owns it nor is an admin. On success,
      the key it is stored under. */
  function Authorized(db: Db, actor: Actor, id: string): (r: Result<Id, ErrorValue>)
    ensures r.Failure? ==> Outcome<Empty>.Err(r.error).Status() == 404
    ensures r.Success? <==> IsObjectId(id) && Canonical(id) in db.bootcamps
                            && OwnerOrAdmin(actor, db.bootcamps[Canonical(id)].user)
    ensures r.Success? ==> r.value == Canonical(id)
    ensures IsObjectId(id) && Canonical(id) !in db.bootcamps ==> r == Failure(ErrorResponse(NotFound, 404))
    ensures IsObjectId(id) && Canonical(id) in db.bootcamps && !OwnerOrAdmin(actor, db.bootcamps[Canonical(id)].user) ==>
              r == Failure(ErrorResponse(NotAuthorized, 404))
  {
    match FindById(db.bootcamps, id)
    case Failure(e) => Failure(e)
    case Success(None) => Failure(ErrorResponse(NotFound, 404))
    case Success(Some(b)) =>
      if !OwnerOrAdmin(actor, b.user) then Failure(ErrorResponse(NotAuthorized, 404))
      else Success(Canonical(id))
  }

  /** `updateBootcamp`: `findByIdAndUpdate` with the body and update validators. The body may even
      change `user`. Every failure leaves the store as it was. */
  function Update(db: Db, actor: Actor, id: string, body: BootcampModel.Draft, pat: BootcampModel.Patterns)
    : (r: Response<Bootcamp>)
    ensures Authorized(db, actor, id).Failure? ==> r == Response(Err(Authorized(db, actor, id).error), db)
    ensures r.outcome.Err? ==> r.db == db
    ensures r.outcome.Ok? ==> && Authorized(db, actor, id).Success?
                              && var k := Canonical(id);
                              && r.outcome == Ok(200, BootcampModel.Apply(db.bootcamps[k], body))
                              && r.db == db.(bootcamps := db.bootcamps[k := r.outcome.data])
  {
    match Authorized(db, actor, id)
    case Failure(e) => Response(Err(e), db)
    case Success(k) =>
      match BootcampModel.Update(db.bootcamps, k, body, pat)
      case Failure(e) => Response(Err(e), db)
      case Success(b) => Response(Ok(200, b), db.(bootcamps := db.bootcamps[k := b]))
  }

  /** `deleteBootcamp`: `bootcamp.remove()`, whose hook deletes the bootcamp's courses, then 200 with
      empty data. */
  function Delete(db: Db, actor: Actor, id: string): (r: Response<Empty>)
    ensures Authorized(db, actor, id).Failure? ==> r == Response(Err(Authorized(db, actor, id).error), db)
    ensures r.outcome.Ok? <==> Authorized(db, actor, id).Success?
    ensures r.outcome.Ok? ==> r.outcome == Ok(200, Empty) && r.db == RemoveBootcamp(db, Canonical(id))
                              && Canonical(id) !in r.db.bootcamps
  {
    match Authorized(db, actor, id)
    case Failure(e) => Response(Err(e), db)
    case Success(k) => Response(Ok(200, Empty), RemoveBootcamp(db, k))
  }

  /** An uploaded file as express-fileupload describes it. */
  datatype Upload = Upload(name: string, mimetype: string, size: nat)

  /** `req.files`: the upload under the field name `file`, if there is one. */
  datatype Files = Files(file: Option<Upload>)

  /** `Number(process.env.MAX_FILE_SIZE)` for an unset variable or a decimal integer with an optional
      sign, possibly surrounded by white space: `None` stands for NaN, against which every comparison
      is false. A blank value reads as 0. */
  function EnvNumber(v: Option<string>): (r: Option<int>)
    ensures v.None? ==> r.None?
    ensures v.Some? && Text.Trim(v.value) == "" ==> r == Some(0)
    ensures v.Some? && Text.Trim(v.value) != "" ==> r == SignedInteger(Text.Trim(v.value))
  {
    match v
    case None => None
    case Some(s) =>
      var t := Text.Trim(s);
      if t == "" then Some(0) else SignedInteger(t)
  }

  /** A non-empty run of decimal digits, after an optional '+' or '-', read as its value; any other
      text is `None`. */
  function SignedInteger(t: string): (r: Option<int>)
    ensures t != "" && Text.AllDigits(t) ==> r == Some(Text.DigitsValue(t))
    ensures |t| >= 2 && t[0] == '+' && Text.AllDigits(t[1..]) ==> r == Some(Text.DigitsValue(t[1..]))
    ensures |t| >= 2 && t[0] == '-' && Text.AllDigits(t[1..]) ==> r == Some(-(Text.DigitsValue(t[1..]) as int))
    ensures r.Some? ==> (t != "" && Text.AllDigits(t)) || (|t| >= 2 && (t[0] == '+' || t[0] == '-') && Text.AllDigits(t[1..]))
  {
    if t == [] then None
    else if t[0] == '-' || t[0] == '+' then
      var digits := t[1..];
      if digits == [] || !Text.AllDigits(digits) then None
      else if t[0] == '-' then Some(-(Text.DigitsValue(digits) as int))
      else Some(Text.DigitsValue(digits))
    else if Text.AllDigits(t) then Some(Text.DigitsValue(t))
    else None
  }

  /** `file.size > process.env.MAX_FILE_SIZE`. */
  predicate TooBig(size: nat, limit: Option<string>) {
    EnvNumber(limit).Some? && size > EnvNumber(limit).value
  }

  /** `r` is the last run of `s` without '/' that only slashes follow. */
  ghost predicate LastSegment(s: string, r: string) {
    exists k, j :: SegmentAt(s, r, k, j)
  }

  /** `r` is `s[k..j]`, starts `s` or follows a '/', and only slashes follow it. */
  predicate SegmentAt(s: string, r: string, k: int, j: int) {
    0 <= k <= j <= |s| && r == s[k..j] && (k == 0 || s[k - 1] == '/') && OnlySlashes(s[j..])
  }

  predicate OnlySlashes(s: string) {
    forall m :: 0 <= m < |s| ==> s[m] == '/'
  }

  /** The text after the last '/', once trailing slashes are dropped. */
  function BaseName(s: string): (r: string)
    ensures '/' !in r
    ensures |r| <= |s|
  {
    if s == [] then []
    else if s[|s| - 1] == '/' then
      (if OnlySlashes(s[..|s| - 1]) then [] else BaseName(s[..|s| - 1]))
    else
      var last := s[|s| - 1];
      var prefix := s[..|s| - 1];
      if '/' in prefix then
        (var rest := AfterSlash(prefix); rest + [last])
      else s
  }

  /** The base name is the last run of the name without '/' that only slashes follow, and it is empty
      only when the name is nothing but slashes. */
  lemma {:induction false} BaseNameIsLastSegment(s: string)
    ensures LastSegment(s, BaseName(s))
    ensures !OnlySlashes(s) ==> BaseName(s) != []
  {
    if s == [] {
      assert SegmentAt(s, [], 0, 0);
    } else if s[|s| - 1] != '/' {
      LastCharKept(s);
    } else if OnlySlashes(s[..|s| - 1]) {
      AllSlashes(s);
    } else {
      BaseNameIsLastSegment(s[..|s| - 1]);
      TrailingSlashDropped(s);
    }
  }

  lemma LastCharKept(s: string)
    requires s != [] && s[|s| - 1] != '/'
    ensures LastSegment(s, BaseName(s)) && BaseName(s) != []
  {
    if '/' in s[..|s| - 1] {
      SlashBefore(s);
    } else {
      NoSlashBefore(s);
    }
  }

  lemma SlashBefore(s: string)
    requires s != [] && s[|s| - 1] != '/' && '/' in s[..|s| - 1]
    ensures LastSegment(s, BaseName(s)) && BaseName(s) != []
  {
    var k := AfterLastSlash(s);
    SegmentToEnd(s, k);
    Witness(s, BaseName(s), k, |s|);
  }

  lemma Witness(s: string, r: string, k: int, j: int)
    requires SegmentAt(s, r, k, j)
    ensures LastSegment(s, r)
  {
  }

  lemma NoSlashBefore(s: string)
    requires s != [] && s[|s| - 1] != '/' && '/' !in s[..|s| - 1]
    ensures LastSegment(s, BaseName(s)) && BaseName(s) != []
  {
    assert BaseName(s) == s == s[0..];
    SegmentToEnd(s, 0);
  }

  lemma AfterLastSlash(s: string) returns (k: nat)
    requires s != [] && s[|s| - 1] != '/' && '/' in s[..|s| - 1]
    ensures 0 < k < |s| && s[k - 1] == '/' && BaseName(s) == s[k..]
  {
    var rest := AfterSlash(s[..|s| - 1]);
    k := |s| - 1 - |rest|;
    assert rest + [s[|s| - 1]] == s[k..];
  }

  lemma SegmentToEnd(s: string, k: nat)
    requires k <= |s| && (k == 0 || s[k - 1] == '/')
    ensures SegmentAt(s, s[k..], k, |s|)
  {
    assert s[|s|..] == [];
  }

  lemma AllSlashes(s: string)
    requires s != [] && s[|s| - 1] == '/' && OnlySlashes(s[..|s| - 1])
    ensures LastSegment(s, BaseName(s)) && OnlySlashes(s)
  {
    SlashesAfter(s, 0);
    assert s[0..] == s;
    EmptyLastSegment(s);
  }

  /** A trailing '/' extends a run of slashes. */
  lemma SlashesAfter(s: string, j: nat)
    requires j < |s| && s[|s| - 1] == '/' && OnlySlashes(s[..|s| - 1][j..])
    ensures OnlySlashes(s[j..])
  {
    forall m | 0 <= m < |s| - j ensures s[j..][m] == '/' {
      if m < |s| - 1 - j { assert s[j..][m] == s[..|s| - 1][j..][m]; }
    }
  }

  lemma EmptyLastSegment(s: string)
    requires s != [] && s[|s| - 1] == '/'
    ensures LastSegment(s, [])
  {
    assert s[|s|..|s|] == [] && s[|s|..] == [];
    assert SegmentAt(s, [], |s|, |s|);
  }

  lemma TrailingSlashDropped(s: string)
    requires s != [] && s[|s| - 1] == '/' && !OnlySlashes(s[..|s| - 1])
    requires LastSegment(s[..|s| - 1], BaseName(s[..|s| - 1])) && BaseName(s[..|s| - 1]) != []
    ensures LastSegment(s, BaseName(s)) && BaseName(s) != []
  {
    var prefix := s[..|s| - 1];
    var r := BaseName(prefix);
    var k, j :| SegmentAt(prefix, r, k, j);
    SegmentExtends(s, r, k, j);
  }

  lemma SegmentExtends(s: string, r: string, k: int, j: int)
    requires s != [] && s[|s| - 1] == '/' && SegmentAt(s[..|s| - 1], r, k, j)
    ensures SegmentAt(s, r, k, j)
  {
    if j < |s| {
      SlashesAfter(s, j);
    }
    assert s[k..j] == s[..|s| - 1][k..j];
  }

  /** The text after the last '/'. */
  function AfterSlash(s: string): (r: string)
    ensures '/' !in r
    ensures |r| <= |s| && r == s[|s| - |r|..]
    ensures |r| < |s| ==> s[|s| - |r| - 1] == '/'
  {
    if s == [] || s[|s| - 1] == '/' then [] else AfterSlash(s[..|s| - 1]) + [s[|s| - 1]]
  }

  /** The position of the last '.'. */
  function LastDot(s: string): (i: nat)
    requires '.' in s
    ensures i < |s| && s[i] == '.' && '.' !in s[i + 1..]
  {
    if s[|s| - 1] == '.' then |s| - 1
    else
      assert '.' in s[..|s| - 1] by {
        var k :| 0 <= k < |s| && s[k] == '.';
        assert s[..|s| - 1][k] == '.';
      }
      var i := LastDot(s[..|s| - 1]);
      assert s[i + 1..] == s[..|s| - 1][i + 1..] + [s[|s| - 1]];
      i
  }

  /** The extension `path.parse(name).ext` gives for an upload's file name, which has no directory
      part: from the last '.' of the name to its end, or empty when the name has no '.', when its only
      candidate is its first character, or when it is "..". A name with '/' is reduced to its base
      name first. */
  function Ext(name: string): (r: string)
    ensures r == [] || (r[0] == '.' && '.' !in r[1..] && '/' !in r)
  {
    var base := BaseName(name);
    if '.' !in base then []
    else
      var d := LastDot(base);
      if d == 0 || base == ".." then [] else base[d..]
  }

  /** A name without '/' is its own base name. */
  lemma {:induction false} BaseNameNoSlash(s: string)
    requires '/' !in s
    ensures BaseName(s) == s
  {
  }

  /** For a name without '/', the extension is the text from its last '.', unless that '.' is the
      first character or the name is "..". */
  lemma ExtOfPlainName(name: string)
    requires '/' !in name
    ensures '.' !in name ==> Ext(name) == ""
    ensures '.' in name && LastDot(name) > 0 && name != ".." ==> Ext(name) == name[LastDot(name)..]
    ensures '.' in name && LastDot(name) == 0 ==> Ext(name) == ""
  {
    BaseNameNoSlash(name);
  }

  /** Examples of the extension rule. */
  lemma ExtExamples()
    ensures Ext("photo.jpg") == ".jpg"
  {
    var n := "photo.jpg";
    assert n[5] == '.';
    assert '.' !in n[6..];
    ExtOfPlainName(n);
  }

  lemma ExtLastDotWins()
    ensures Ext("archive.tar.gz") == ".gz"
  {
    var n := "archive.tar.gz";
    assert n[11] == '.';
    assert '.' !in n[12..];
    ExtOfPlainName(n);
  }

  lemma ExtOfDotFile()
    ensures Ext(".bashrc") == ""
  {
    var n := ".bashrc";
    assert n[0] == '.';
    assert '.' !in n[1..];
    ExtOfPlainName(n);
  }

  /** The stored name of an uploaded photo. */
  function PhotoName(id: Id, upload: Upload): string {
    "photo_" + id + Ext(upload.name)
  }

  /** `addBootcampPhoto`. After the lookup and the ownership check, the upload is checked in a fixed
      order: no files at all, then a mimetype without "image", then a size above `MAX_FILE_SIZE`. A
      request whose files lack the field `file` fails reading its mimetype, a TypeError. The file
      is renamed `photo_<id><ext>`, the name is stored as the bootcamp's `photo`, and it is the
      answer's data. */
  function AddPhoto(db: Db, actor: Actor, id: string, files: Option<Files>, maxFileSize: Option<string>)
    : (r: Response<string>)
    ensures Authorized(db, actor, id).Failure? ==> r == Response(Err(Authorized(db, actor, id).error), db)
    ensures r.outcome.Err? ==> r.db == db
    ensures Authorized(db, actor, id).Success? ==>
              && (files.None? ==> r.outcome == Err(ErrorResponse(NoFile, 400)))
              && (files.Some? && files.value.file.None? ==> r.outcome == Err(Thrown("TypeError")))
              && (files.Some? && files.value.file.Some? ==>
                    var f := files.value.file.value;
                    && (!Text.Contains(f.mimetype, "image") ==> r.outcome == Err(ErrorResponse(NotImage, 400)))
                    && (Text.Contains(f.mimetype, "image") && TooBig(f.size, maxFileSize) ==>
                          r.outcome == Err(ErrorResponse(TooLarge(maxFileSize.value), 400))))
    ensures r.outcome.Ok? <==>
              && Authorized(db, actor, id).Success? && files.Some? && files.value.file.Some?
              && Text.Contains(files.value.file.value.mimetype, "image")
              && !TooBig(files.value.file.value.size, maxFileSize)
    ensures r.outcome.Ok? ==>
              var k := Canonical(id);
              && r.outcome == Ok(200, PhotoName(db.bootcamps[k].id, files.value.file.value))
              && r.db == db.(bootcamps := db.bootcamps[k := db.bootcamps[k].(photo := r.outcome.data)])
  {
    match Authorized(db, actor, id)
    case Failure(e) => Response(Err(e), db)
    case Success(k) =>
      if files.None? then Response(Err(ErrorResponse(NoFile, 400)), db)
      else if files.value.file.None? then Response(Err(Thrown("TypeError")), db)
      else
        var f := files.value.file.value;
        if !Text.Contains(f.mimetype, "image") then Response(Err(ErrorResponse(NotImage, 400)), db)
        else if TooBig(f.size, maxFileSize) then Response(Err(ErrorResponse(TooLarge(maxFileSize.value), 400)), db)
        else
          var b := db.bootcamps[k];
          var name := PhotoName(b.id, f);
          Response(Ok(200, name), db.(bootcamps := db.bootcamps[k := b.(photo := name)]))
  }

  /** With `MAX_FILE_SIZE` unset every size passes, and with it empty every non-empty file is refused. */
  lemma SizeLimitEdges(size: nat)
    ensures !TooBig(size, None)
    ensures size > 0 ==> TooBig(size, Some(""))
  {
    assert Text.Trim("") == "";
  }

  /** A negative `MAX_FILE_SIZE` refuses every upload that reaches the check, an empty file included. */
  lemma NegativeLimitRefusesAll(size: nat)
    ensures TooBig(size, Some("-5"))
  {
    var t := "-5";
    assert !Text.IsSpace(t[0]) && !Text.IsSpace(t[1]);
    Text.TrimUnpadded(t);
    MinusFive();
  }

  lemma MinusFive()
    ensures SignedInteger("-5") == Some(-5)
  {
    var t := "-5";
    assert t[1..] == "5" && Text.AllDigits(t[1..]);
    assert Text.DigitsValue("5") == 5 by {
      assert "5"[..0] == [];
    }
  }

  /** The stored photo name starts with "photo_" and the bootcamp's id, and ends with the original
      extension. */
  lemma PhotoNameShape(id: Id, upload: Upload)
    ensures var n := PhotoName(id, upload);
              && n[..6] == "photo_" && n[6..6 + |id|] == id && n[6 + |id|..] == Ext(upload.name)
  {
  }
}
