/** The Mongoose schema validators the three models use, each as a check that yields the message of
    its failure, and the collection of the failures of one document into the entries of a
    ValidationError.

    A path's validators run in declaration order and the first failure is the path's entry; `required`
    always runs first. Every validator except `required` passes an absent value. */
module Schema {
  import opened Wrappers

  /** Mongoose's `required` on a String path: `undefined`, `null` and the empty string fail. */
  predicate Present(v: Option<string>) {
    v.Some? && v.value != ""
  }

  /** The message of `required: true` without a message of its own. */
  function RequiredMessage(path: string): string {
    "Path `" + path + "` is required."
  }

  /** The message of an `enum` validator without a message of its own. */
  function EnumMessage(value: string, path: string): string {
    "`" + value + "` is not a valid enum value for path `" + path + "`."
  }

  /** `required: [true, message]` on a String path. */
  function Required(v: Option<string>, message: string): (r: Option<string>)
    ensures r.None? <==> Present(v)
    ensures r.Some? ==> r.value == message
  {
    if Present(v) then None else Some(message)
  }

  /** `maxlength: [n, message]`: an absent value passes; a longer one fails. */
  function MaxLength(v: Option<string>, n: nat, message: string): (r: Option<string>)
    ensures r.None? <==> v.None? || |v.value| <= n
    ensures r.Some? ==> r.value == message
  {
    if v.Some? && |v.value| > n then Some(message) else None
  }

  /** `minlength: [n, message]`: an absent value passes; a shorter one fails. */
  function MinLength(v: Option<string>, n: nat, message: string): (r: Option<string>)
    ensures r.None? <==> v.None? || |v.value| >= n
    ensures r.Some? ==> r.value == message
  {
    if v.Some? && |v.value| < n then Some(message) else None
  }

  /** `match: [regex, message]`, the regular expression given as a predicate. Mongoose skips the test
      for an absent or empty value. */
  function Match(v: Option<string>, matches: string -> bool, message: string): (r: Option<string>)
    ensures r.None? <==> !Present(v) || matches(v.value)
    ensures r.Some? ==> r.value == message
  {
    if Present(v) && !matches(v.value) then Some(message) else None
  }

  /** `enum: values` on a String path: an absent value passes. */
  function Enum(v: Option<string>, values: seq<string>, path: string): (r: Option<string>)
    ensures r.None? <==> v.None? || v.value in values
    ensures r.Some? ==> r.value == EnumMessage(v.value, path)
  {
    if v.Some? && v.value !in values then Some(EnumMessage(v.value, path)) else None
  }

  /** `enum: values` on an array of strings: the first element outside the list is reported. */
  function EnumEach(vs: seq<string>, values: seq<string>, path: string): (r: Option<string>)
    ensures r.None? <==> forall i :: 0 <= i < |vs| ==> vs[i] in values
    ensures r.Some? ==> exists i :: 0 <= i < |vs| && vs[i] !in values && r.value == EnumMessage(vs[i], path)
  {
    if vs == [] then None
    else if vs[0] !in values then Some(EnumMessage(vs[0], path))
    else
      var rest := EnumEach(vs[1..], values, path);
      assert rest.Some? ==> exists i :: 1 <= i < |vs| && vs[i] !in values && rest.value == EnumMessage(vs[i], path) by {
        if rest.Some? {
          var j :| 0 <= j < |vs[1..]| && vs[1..][j] !in values && rest.value == EnumMessage(vs[1..][j], path);
          assert vs[j + 1] == vs[1..][j];
        }
      }
      rest
  }

  /** `min: [bound, message]` on a Number path: an absent value passes. */
  function Min(v: Option<real>, bound: real, message: string): (r: Option<string>)
    ensures r.None? <==> v.None? || v.value >= bound
    ensures r.Some? ==> r.value == message
  {
    if v.Some? && v.value < bound then Some(message) else None
  }

  /** `max: [bound, message]` on a Number path: an absent value passes. */
  function Max(v: Option<real>, bound: real, message: string): (r: Option<string>)
    ensures r.None? <==> v.None? || v.value <= bound
    ensures r.Some? ==> r.value == message
  {
    if v.Some? && v.value > bound then Some(message) else None
  }

  /** The first failure among a path's validators, which run in order. */
  function FirstFailure(checks: seq<Option<string>>): (r: Option<string>)
    ensures r.None? <==> forall i :: 0 <= i < |checks| ==> checks[i].None?
    ensures r.Some? ==> exists i :: 0 <= i < |checks| && checks[i] == r
                          && forall j :: 0 <= j < i ==> checks[j].None?
  {
    if checks == [] then None
    else if checks[0].Some? then checks[0]
    else
      var rest := FirstFailure(checks[1..]);
      assert rest.Some? ==> exists i :: 1 <= i < |checks| && checks[i] == rest
                              && forall j :: 0 <= j < i ==> checks[j].None? by {
        if rest.Some? {
          var k :| 0 <= k < |checks[1..]| && checks[1..][k] == rest
                   && forall j :: 0 <= j < k ==> checks[1..][j].None?;
          assert checks[k + 1] == rest;
          forall j | 0 <= j < k + 1 ensures checks[j].None? {
            if j > 0 { assert checks[j] == checks[1..][j - 1]; }
          }
        }
      }
      rest
  }

  /** Eight checks all pass exactly when each of them does. */
  lemma AllOfEight(c: seq<Option<string>>)
    requires |c| == 8
    ensures (forall i :: 0 <= i < 8 ==> c[i].None?) <==>
              c[0].None? && c[1].None? && c[2].None? && c[3].None?
              && c[4].None? && c[5].None? && c[6].None? && c[7].None?
  {
  }

  /** A path with two validators reports the first one's failure, else the second one's. */
  lemma FirstOfTwo(a: Option<string>, b: Option<string>)
    ensures FirstFailure([a, b]) == if a.Some? then a else b
  {
    assert [a, b][1..] == [b];
    assert [b][1..] == [];
  }

  /** The entries of a ValidationError: one message per failed path, in path order. */
  function Failures(paths: seq<Option<string>>): (r: seq<string>)
    ensures |r| <= |paths|
    ensures r == [] <==> forall i :: 0 <= i < |paths| ==> paths[i].None?
    ensures forall m :: m in r <==> exists i :: 0 <= i < |paths| && paths[i] == Some(m)
  {
    if paths == [] then []
    else
      var rest := Failures(paths[1..]);
      assert forall m :: m in rest <==> exists i :: 1 <= i < |paths| && paths[i] == Some(m) by {
        forall m ensures m in rest <==> exists i :: 1 <= i < |paths| && paths[i] == Some(m) {
          if m in rest {
            var k :| 0 <= k < |paths[1..]| && paths[1..][k] == Some(m);
            assert paths[k + 1] == Some(m);
          }
          if exists i :: 1 <= i < |paths| && paths[i] == Some(m) {
            var i :| 1 <= i < |paths| && paths[i] == Some(m);
            assert paths[1..][i - 1] == Some(m);
          }
        }
      }
      match paths[0]
      case Some(m) => [m] + rest
      case None => rest
  }
}
