/** The list-query builder of middleware/advancedResults.js: from the query string it builds the
    database query (filter, projection, order, population) and the page window, then wraps the
    page it gets back in the response envelope with its pagination links.

    The database is a parameter: `find` gives, for a plan, every matching document in the plan's
    order, and `total` is what `countDocuments()` answers for the whole collection. */
module Listing {
  import opened Wrappers
  import opened Query
  import Text
  import Operators

  const DefaultSort := "-createdAt"
  const DefaultPage := 1
  const DefaultLimit := 5

  /** What the builder asks the database for, before the page window. */
  datatype Plan = Plan(
    filter: string,            // the rewritten JSON text handed to `JSON.parse` and `find`
    select: Option<string>,    // the projection, absent when none is asked for
    sort: string,
    populate: Option<string>)

  /** A pagination link. */
  datatype PageRef = PageRef(page: int, limit: int)

  datatype Pagination = Pagination(next: Option<PageRef>, prev: Option<PageRef>)

  /** `res.advancedResults`. */
  datatype Envelope<D> = Envelope(success: bool, count: nat, pagination: Pagination, data: seq<D>)

  /** The outcome of a list request: the plan, the window asked for and the envelope. */
  datatype Listing<D> = Listing(plan: Plan, skip: nat, limit: int, envelope: Envelope<D>)

  /** The error a rejected list request carries: the name of the error thrown. */
  const TypeError := "TypeError"
  const NegativeSkip := "MongoError"

  function Abs(x: int): nat {
    if x < 0 then -x else x
  }

  function Min(a: int, b: int): int {
    if a < b then a else b
  }

  // ---------------------------------------------------------------------------------------------
  // Options read from the query string

  /** `if (req.query.x) { req.query.x.split(',').join(' ') }`: an absent or empty value asks for
      nothing, and an object, which has no `split`, throws. */
  function FieldList(v: Option<Value>): (r: Result<Option<string>, string>)
    ensures r.Failure? <==> v.Some? && v.value.Obj?
    ensures r.Success? && r.value.Some? <==> v.Some? && v.value.Str? && v.value.s != ""
    ensures r.Success? && r.value.Some? ==> r.value.value == Text.ReplaceChar(v.value.s, ',', ' ')
  {
    match v
    case None => Success(None)
    case Some(Obj(_)) => Failure(TypeError)
    case Some(Str(s)) =>
      if s == "" then Success(None)
      else
        Text.SplitJoin(s, ',', ' ');
        Success(Some(Text.Join(Text.Split(s, ','), " ")))
  }

  /** `parseInt(req.query.x, 10)`: an absent value is `undefined` and an object reads as
      `"[object Object]"`, both `NaN`. */
  function NumberParam(v: Option<Value>): (r: Option<int>)
    ensures v.None? || v.value.Obj? ==> r.None?
    ensures v.Some? && v.value.Str? ==> r == Text.ParseInt(v.value.s)
  {
    match v
    case Some(Str(s)) => Text.ParseInt(s)
    case _ => None
  }

  function Page(q: seq<Field>): int {
    Text.OrDefault(NumberParam(Lookup(q, "page")), DefaultPage)
  }

  function Limit(q: seq<Field>): int {
    Text.OrDefault(NumberParam(Lookup(q, "limit")), DefaultLimit)
  }

  /** A missing, non-numeric or zero `page` is 1, and any other number is kept. */
  lemma PageDefault(q: seq<Field>)
    ensures var p := NumberParam(Lookup(q, "page"));
      Page(q) == if p.None? || p.value == 0 then 1 else p.value
    ensures Lookup(q, "page").None? ==> Page(q) == 1
  {
  }

  /** A missing, non-numeric or zero `limit` is 5, and any other number is kept. */
  lemma LimitDefault(q: seq<Field>)
    ensures var l := NumberParam(Lookup(q, "limit"));
      Limit(q) == if l.None? || l.value == 0 then 5 else l.value
    ensures Lookup(q, "limit").None? ==> Limit(q) == 5
  {
  }

  // ---------------------------------------------------------------------------------------------
  // The query

  /** The database query the options describe. The filter is the query without its reserved keys,
      serialized and rewritten; a `select` or `sort` that is an object throws before anything else. */
  function BuildPlan(q: seq<Field>, populate: Option<string>): (r: Result<Plan, string>)
    ensures r.Failure? <==> FieldList(Lookup(q, "select")).Failure? || FieldList(Lookup(q, "sort")).Failure?
    ensures r.Success? ==> r.value.filter == Operators.ReplaceOperators(Stringify(Strip(q)))
    ensures r.Success? ==> r.value.populate == populate
  {
    var select :- FieldList(Lookup(q, "select"));
    var sort :- FieldList(Lookup(q, "sort"));
    Success(Plan(
      Operators.ReplaceOperators(Stringify(Strip(q))),
      select,
      sort.GetOr(DefaultSort),
      populate))
  }

  /** The projection and the order are the query's lists with commas turned into spaces; without
      a `sort`, the newest documents come first. */
  lemma PlanOptions(q: seq<Field>, populate: Option<string>)
    requires BuildPlan(q, populate).Success?
    ensures var p := BuildPlan(q, populate).value;
      && (p.select.Some? <==> Lookup(q, "select").Some? && Lookup(q, "select").value != Str(""))
      && (p.select.Some? ==> p.select.value == Text.ReplaceChar(Lookup(q, "select").value.s, ',', ' '))
      && (Lookup(q, "sort").None? ==> p.sort == "-createdAt")
      && (Lookup(q, "sort").Some? && Lookup(q, "sort").value != Str("") ==>
            p.sort == Text.ReplaceChar(Lookup(q, "sort").value.s, ',', ' '))
  {
  }

  /** On a query of plain keys and values, the filter is the serialization of the query without its
      reserved keys, every key and value rewritten on its own. */
  lemma FilterIsRewrittenQuery(q: seq<Field>, populate: Option<string>)
    requires PlainFields(q)
    requires BuildPlan(q, populate).Success?
    ensures BuildPlan(q, populate).value.filter == Stringify(MarkFields(Strip(q)))
  {
    var s := Strip(q);
    assert PlainFields(s) by {
      forall k | 0 <= k < |s| ensures AllPlain(s[k].key) && PlainValue(s[k].value) {
        assert s[k] in q;
      }
    }
    RewriteStringify(s);
    PlainRewrite(Obj(s));
  }

  // ---------------------------------------------------------------------------------------------
  // The page window and the envelope

  /** `.skip(skip).limit(limit)` on the matching documents, for a skip that is not negative. A
      negative limit is read as its absolute value. */
  function Window<D>(m: seq<D>, skip: nat, limit: int): (w: seq<D>)
    ensures |w| == if skip >= |m| then 0 else Min(Abs(limit), |m| - skip)
    ensures forall k :: 0 <= k < |w| ==> skip + k < |m| && w[k] == m[skip + k]
  {
    var a := Min(skip, |m|);
    var b := Min(skip + Abs(limit), |m|);
    m[a..b]
  }

  function StartIndex(page: int, limit: int): int {
    (page - 1) * limit
  }

  function EndIndex(page: int, limit: int): int {
    page * limit
  }

  /** The links of a page, decided against `known`, the count the builder compares with. */
  function Links(page: int, limit: int, known: int): (p: Pagination)
    ensures p.next.Some? <==> EndIndex(page, limit) < known
    ensures p.next.Some? ==> p.next.value == PageRef(page + 1, limit)
    ensures p.prev.Some? <==> StartIndex(page, limit) > 0
    ensures p.prev.Some? ==> p.prev.value == PageRef(page - 1, limit)
  {
    Pagination(
      if EndIndex(page, limit) < known then Some(PageRef(page + 1, limit)) else None,
      if StartIndex(page, limit) > 0 then Some(PageRef(page - 1, limit)) else None)
  }

  /** The builder as written: `next` is decided against `countDocuments()` of the whole collection. */
  function AdvancedResults<D>(q: seq<Field>, populate: Option<string>, find: Plan -> seq<D>, total: nat)
    : (r: Result<Listing<D>, string>)
    ensures BuildPlan(q, populate).Failure? ==> r == Failure(BuildPlan(q, populate).error)
    ensures BuildPlan(q, populate).Success? ==>
      (r.Failure? <==> StartIndex(Page(q), Limit(q)) < 0) && (r.Failure? ==> r.error == NegativeSkip)
    ensures r.Success? ==>
      var l := r.value;
      var e := l.envelope;
      && l.plan == BuildPlan(q, populate).value
      && l.skip == StartIndex(Page(q), Limit(q)) && l.limit == Limit(q)
      && e.success && e.count == |e.data|
      && e.data == Window(find(l.plan), l.skip, l.limit)
      && |e.data| <= Abs(Limit(q))
      && e.pagination == Links(Page(q), Limit(q), total)
  {
    var plan :- BuildPlan(q, populate);
    var page, limit := Page(q), Limit(q);
    var start := StartIndex(page, limit);
    if start < 0 then Failure(NegativeSkip)
    else
      var results := Window(find(plan), start, limit);
      Success(Listing(plan, start, limit, Envelope(true, |results|, Links(page, limit, total), results)))
  }

  /** The builder with `next` decided against the documents that match the filter,
      `countDocuments(filter)`. */
  function AdvancedResultsMatched<D>(q: seq<Field>, populate: Option<string>, find: Plan -> seq<D>)
    : (r: Result<Listing<D>, string>)
    ensures r.Success? <==> BuildPlan(q, populate).Success? && StartIndex(Page(q), Limit(q)) >= 0
    ensures r.Success? ==>
      var l := r.value;
      && l.plan == BuildPlan(q, populate).value
      && l.envelope.data == Window(find(l.plan), l.skip, l.limit)
      && l.envelope.pagination == Links(Page(q), Limit(q), |find(l.plan)|)
  {
    var plan :- BuildPlan(q, populate);
    var page, limit := Page(q), Limit(q);
    var start := StartIndex(page, limit);
    if start < 0 then Failure(NegativeSkip)
    else
      var results := Window(find(plan), start, limit);
      Success(Listing(plan, start, limit, Envelope(true, |results|, Links(page, limit, |find(plan)|), results)))
  }

  /** With the matching count, a page has a `next` link exactly when the following page holds at
      least one document. */
  lemma MatchedNextIffMore<D>(q: seq<Field>, populate: Option<string>, find: Plan -> seq<D>)
    requires AdvancedResultsMatched(q, populate, find).Success?
    requires Page(q) >= 1 && Limit(q) >= 1
    ensures var l := AdvancedResultsMatched(q, populate, find).value;
      l.envelope.pagination.next.Some? <==> Window(find(l.plan), EndIndex(Page(q), Limit(q)), Limit(q)) != []
  {
    var l := AdvancedResultsMatched(q, populate, find).value;
    var m := find(l.plan);
    var e := EndIndex(Page(q), Limit(q));
    assert e >= 0 by {
      assert Page(q) * Limit(q) >= 1 * Limit(q);
    }
    if e < |m| {
      assert |Window(m, e, Limit(q))| >= 1;
    }
  }

  /** `?limit=-3`: the first page starts at 0, so the query runs, but `endIndex` is -3, below every
      count, and a `next` link is given even when nothing matches. This is why the link rule above
      asks for a positive limit. */
  lemma NegativeLimitAlwaysNext()
    ensures var find: Plan -> seq<int> := p => [];
      var r := AdvancedResultsMatched([Field("limit", Str("-3"))], None, find);
      && r.Success?
      && r.value.envelope.data == []
      && r.value.envelope.pagination.next == Some(PageRef(2, -3))
  {
    NegativeLimitQuery();
  }

  lemma NegativeLimitQuery()
    ensures var q := [Field("limit", Str("-3"))];
      && Page(q) == 1 && Limit(q) == -3
      && Lookup(q, "select").None? && Lookup(q, "sort").None?
  {
    var q := [Field("limit", Str("-3"))];
    ParseMinusThree();
    assert Lookup(q, "limit") == Some(Str("-3"));
    assert Lookup(q, "page").None? && Lookup(q, "select").None? && Lookup(q, "sort").None?;
  }

  lemma ParseMinusThree()
    ensures Text.ParseInt("-3") == Some(-3)
  {
    var u := "-3";
    var d := u[1..];
    assert !Text.IsSpace(u[0]);
    assert Text.TrimStart(u) == u;
    assert d == "3";
    assert Text.DigitRun(d[1..]) == 0;
    assert Text.DigitRun(d) == 1;
    assert d[..1] == d;
    assert Text.DigitsValue(d[..0]) == 0;
    assert Text.DigitsValue(d) == 3;
  }

  /** The builder as written never omits a `next` link that the matching count would give, as the
      whole collection holds at least the matching documents. */
  lemma WrittenNextCovers<D>(q: seq<Field>, populate: Option<string>, find: Plan -> seq<D>, total: nat)
    requires AdvancedResults(q, populate, find, total).Success?
    requires |find(AdvancedResults(q, populate, find, total).value.plan)| <= total
    ensures AdvancedResultsMatched(q, populate, find).Success?
    ensures AdvancedResultsMatched(q, populate, find).value.envelope.pagination.next.Some? ==>
              AdvancedResults(q, populate, find, total).value.envelope.pagination.next.Some?
  {
  }

  /** A filter that matches 3 of 10 documents, first page of 5: the builder as written links a
      second page, which is empty. */
  lemma WrittenNextSpurious()
    ensures var find := (p: Plan) => [1, 2, 3];
      var r := AdvancedResults([Field("housing", Str("true"))], None, find, 10);
      && r.Success?
      && r.value.envelope.pagination.next == Some(PageRef(2, 5))
      && Window(find(r.value.plan), EndIndex(1, 5), 5) == []
  {
    var q := [Field("housing", Str("true"))];
    assert Lookup(q, "page").None? && Lookup(q, "limit").None?;
    assert Lookup(q, "select").None? && Lookup(q, "sort").None?;
  }

  /** Five documents, `?limit=2&page=2`: the window holds the third and fourth, and a `next` link is
      given because a fifth exists, since `endIndex` 4 is below the count 5. */
  lemma SecondPageOfTwo()
    ensures var find := (p: Plan) => [10, 20, 30, 40, 50];
      var q := [Field("limit", Str("2")), Field("page", Str("2"))];
      var r := AdvancedResults(q, None, find, 5);
      && r.Success?
      && r.value.envelope.data == [30, 40]
      && r.value.envelope.pagination == Pagination(Some(PageRef(3, 2)), Some(PageRef(1, 2)))
  {
    var q := [Field("limit", Str("2")), Field("page", Str("2"))];
    Text.ParseIntDecimal(2, "");
    assert Text.DecimalString(2) + "" == "2";
    assert Page(q) == 2 && Limit(q) == 2;
  }

  // ---------------------------------------------------------------------------------------------
  // Pages tile the matching documents

  /** Pages 1 to `n`, one after the other. */
  function Pages<D>(m: seq<D>, limit: nat, n: nat): seq<D>
    requires limit >= 1
  {
    if n == 0 then [] else Pages(m, limit, n - 1) + Window(m, StartIndex(n, limit), limit)
  }

  /** Reading pages 1 to `n` in order gives the first `n * limit` matching documents, each once and
      in order: no document is skipped or repeated between consecutive pages. */
  lemma {:induction false} PagesTile<D>(m: seq<D>, limit: nat, n: nat)
    requires limit >= 1
    ensures Pages(m, limit, n) == m[..Min(n * limit, |m|)]
  {
    if n > 0 {
      PagesTile(m, limit, n - 1);
      var a, b := PageBounds(m, limit, n);
      assert Pages(m, limit, n) == m[..a] + m[a..b];
      assert m[..a] + m[a..b] == m[..b];
    }
  }

  /** Page `n` runs from where page `n - 1` ends. */
  lemma PageBounds<D>(m: seq<D>, limit: nat, n: nat) returns (a: nat, b: nat)
    requires limit >= 1 && n >= 1
    ensures a == Min((n - 1) * limit, |m|) && b == Min(n * limit, |m|) && a <= b <= |m|
    ensures Window(m, StartIndex(n, limit), limit) == m[a..b]
  {
    var start := (n - 1) * limit;
    assert n * limit == start + limit;
    a, b := Min(start, |m|), Min(start + limit, |m|);
  }
}
