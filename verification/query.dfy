/** The query string of a list request as the list-query builder of middleware/advancedResults.js
    sees it (`req.query`), the removal of its reserved keys, and its serialization by
    `JSON.stringify`, which the operator rewrite then works on. */
module Query {
  import opened Wrappers
  import Text
  import Operators

  /** A value of the parsed query string: a string, or an object such as the one
      `averageCost[lte]=10000` yields. */
  datatype Value = Str(s: string) | Obj(fields: seq<Field>)

  /** One property of an object, in insertion order. */
  datatype Field = Field(key: string, value: Value)

  /** The keys the builder reads as options and removes from the filter. */
  const Reserved: set<string> := {"select", "sort", "limit", "page"}

  /** `q[key]`: the value of the first field with that key, `None` when there is none. */
  function Lookup(q: seq<Field>, key: string): (r: Option<Value>)
    ensures r.None? <==> forall k :: 0 <= k < |q| ==> q[k].key != key
    ensures r.Some? ==> exists k :: 0 <= k < |q| && q[k] == Field(key, r.value)
  {
    if q == [] then None
    else if q[0].key == key then Some(q[0].value)
    else Lookup(q[1..], key)
  }

  /** `{ ...req.query }` followed by `delete` of each reserved key. */
  function Strip(q: seq<Field>): (r: seq<Field>)
    ensures forall k :: 0 <= k < |r| ==> r[k].key !in Reserved
    ensures forall k :: 0 <= k < |r| ==> r[k] in q
    ensures forall k :: 0 <= k < |q| && q[k].key !in Reserved ==> q[k] in r
  {
    if q == [] then []
    else if q[0].key in Reserved then Strip(q[1..])
    else [q[0]] + Strip(q[1..])
  }

  /** The filter answers every non-reserved key exactly as the query does, and no reserved key. */
  lemma {:induction false} StripLookup(q: seq<Field>, key: string)
    ensures Lookup(Strip(q), key) == if key in Reserved then None else Lookup(q, key)
  {
    if q != [] {
      StripLookup(q[1..], key);
    }
  }

  // ---------------------------------------------------------------------------------------------
  // JSON.stringify

  /** Hexadecimal digit as `JSON.stringify` writes it, in lower case. */
  function HexDigit(d: nat): (c: char)
    requires d < 16
  {
    if d < 10 then ('0' as int + d) as char else ('a' as int + d - 10) as char
  }

  /** The escape of one character inside a JSON string: the quote, the backslash, the five control
      characters with a short form, `\u00xx` for the other control characters, and every other
      character as it is. */
  function EscapeChar(c: char): (e: string)
    ensures |e| >= 1
    ensures e[0] == '\\' <==> c == '"' || c == '\\' || c < ' '
  {
    if c == '"' then "\\\""
    else if c == '\\' then "\\\\"
    else if c == '\U{8}' then "\\b"
    else if c == '\t' then "\\t"
    else if c == '\n' then "\\n"
    else if c == '\U{C}' then "\\f"
    else if c == '\r' then "\\r"
    else if c < ' ' then "\\u00" + [HexDigit(c as int / 16), HexDigit(c as int % 16)]
    else [c]
  }

  /** The text of a string between the quotes of its JSON form. */
  function Escape(s: string): (e: string)
    ensures |e| >= |s|
  {
    if s == [] then [] else EscapeChar(s[0]) + Escape(s[1..])
  }

  /** A character `JSON.stringify` writes as it is. */
  predicate Plain(c: char) {
    c != '"' && c != '\\' && c >= ' '
  }

  predicate AllPlain(s: string) {
    forall k :: 0 <= k < |s| ==> Plain(s[k])
  }

  /** The value of a hexadecimal digit, if `c` is one (either case, as `JSON.parse` accepts). */
  function HexValue(c: char): (r: Option<nat>)
    ensures r.Some? ==> r.value < 16
  {
    if '0' <= c <= '9' then Some(c as int - '0' as int)
    else if 'a' <= c <= 'f' then Some(c as int - 'a' as int + 10)
    else if 'A' <= c <= 'F' then Some(c as int - 'A' as int + 10)
    else None
  }

  /** The character of a `\uXXXX` escape, when the four characters are hexadecimal digits and the
      code is not a surrogate. */
  function CodeUnit(h: string): Option<char>
    requires |h| == 4
  {
    var a :- HexValue(h[0]);
    var b :- HexValue(h[1]);
    var c :- HexValue(h[2]);
    var d :- HexValue(h[3]);
    var v := ((a * 16 + b) * 16 + c) * 16 + d;
    if 0xD800 <= v < 0xE000 then None else Some(v as char)
  }

  /** The decoding `JSON.parse` applies between the quotes of a string: `None` for a bare quote or
      control character, or for a malformed escape. */
  function Unescape(e: string): (r: Option<string>)
    decreases |e|
  {
    if e == [] then Some([])
    else if e[0] == '\\' then
      if |e| < 2 then None
      else
        var short := match e[1]
          case '"' => Some('"')
          case '\\' => Some('\\')
          case '/' => Some('/')
          case 'b' => Some('\U{8}')
          case 't' => Some('\t')
          case 'n' => Some('\n')
          case 'f' => Some('\U{C}')
          case 'r' => Some('\r')
          case _ => None;
        if short.Some? then
          var rest :- Unescape(e[2..]);
          Some([short.value] + rest)
        else if e[1] == 'u' && |e| >= 6 then
          var c :- CodeUnit(e[2..6]);
          var rest :- Unescape(e[6..]);
          Some([c] + rest)
        else None
    else if !Plain(e[0]) then None
    else
      var rest :- Unescape(e[1..]);
      Some([e[0]] + rest)
  }

  /** Decoding the escape of one character, followed by anything, yields that character first. */
  lemma UnescapeChar(c: char, t: string)
    ensures Unescape(EscapeChar(c) + t) == (var r :- Unescape(t); Some([c] + r))
  {
    if c == '"' || c == '\\' || c in {'\U{8}', '\t', '\n', '\U{C}', '\r'} {
      UnescapeShort(c, t);
    } else if c < ' ' {
      UnescapeCode(c, t);
    } else {
      assert (EscapeChar(c) + t)[1..] == t;
    }
  }

  /** A character with a two-character escape. */
  lemma UnescapeShort(c: char, t: string)
    requires c == '"' || c == '\\' || c in {'\U{8}', '\t', '\n', '\U{C}', '\r'}
    ensures Unescape(EscapeChar(c) + t) == (var r :- Unescape(t); Some([c] + r))
  {
    var e := EscapeChar(c) + t;
    assert |EscapeChar(c)| == 2 && e[0] == '\\';
    assert e[2..] == t;
  }

  /** A control character written as `\u00xx`. */
  lemma UnescapeCode(c: char, t: string)
    requires c < ' ' && c !in {'\U{8}', '\t', '\n', '\U{C}', '\r'}
    ensures Unescape(EscapeChar(c) + t) == (var r :- Unescape(t); Some([c] + r))
  {
    var e := EscapeChar(c) + t;
    assert e[2..6] == ['0', '0', HexDigit(c as int / 16), HexDigit(c as int % 16)];
    assert e[6..] == t;
    ControlCodeUnit(c);
    UnescapeUnicode(e, c, t);
  }

  /** The four digits `00xx` of a control character decode to it. */
  lemma ControlCodeUnit(c: char)
    requires c < ' '
    ensures CodeUnit(['0', '0', HexDigit(c as int / 16), HexDigit(c as int % 16)]) == Some(c)
  {
    var hi, lo := c as int / 16, c as int % 16;
    assert HexValue(HexDigit(hi)) == Some(hi);
    assert HexValue(HexDigit(lo)) == Some(lo);
  }

  /** A `\uXXXX` escape of a valid code unit decodes to that character, followed by the rest. */
  lemma UnescapeUnicode(e: string, c: char, t: string)
    requires |e| >= 6 && e[0] == '\\' && e[1] == 'u'
    requires CodeUnit(e[2..6]) == Some(c) && e[6..] == t
    ensures Unescape(e) == (var r :- Unescape(t); Some([c] + r))
  {
  }

  /** `JSON.parse` undoes the escaping of `JSON.stringify`. */
  lemma {:induction false} UnescapeEscape(s: string)
    ensures Unescape(Escape(s)) == Some(s)
  {
    if s != [] {
      UnescapeEscape(s[1..]);
      UnescapeChar(s[0], Escape(s[1..]));
      assert [s[0]] + s[1..] == s;
    }
  }

  /** A string of plain characters is written as it is. */
  lemma {:induction false} EscapePlain(s: string)
    requires AllPlain(s)
    ensures Escape(s) == s
  {
    if s != [] {
      EscapePlain(s[1..]);
      assert [s[0]] + s[1..] == s;
    }
  }

  /** How the strings of a serialization are written: escaped, and optionally rewritten afterwards. */
  datatype Encoding = Escaped | EscapedAndMarked

  function Encode(s: string, enc: Encoding): string {
    match enc
    case Escaped => Escape(s)
    case EscapedAndMarked => Operators.ReplaceOperators(Escape(s))
  }

  function Quote(t: string): string {
    "\"" + t + "\""
  }

  /** `JSON.stringify` of a value, without white space. */
  function Render(v: Value, enc: Encoding): string
    decreases v, 1
  {
    match v
    case Str(s) => Quote(Encode(s, enc))
    case Obj(fs) => "{" + RenderFields(fs, enc) + "}"
  }

  function RenderFields(fs: seq<Field>, enc: Encoding): string
    decreases fs, 0
  {
    if fs == [] then ""
    else if |fs| == 1 then RenderField(fs[0], enc)
    else RenderField(fs[0], enc) + "," + RenderFields(fs[1..], enc)
  }

  function RenderField(f: Field, enc: Encoding): string
    decreases f, 0
  {
    Quote(Encode(f.key, enc)) + ":" + Render(f.value, enc)
  }

  /** `JSON.stringify(queryCopy)`. */
  function Stringify(q: seq<Field>): string {
    Render(Obj(q), Escaped)
  }

  // ---------------------------------------------------------------------------------------------
  // The operator rewrite on the serialized filter

  /** The serialized filter after the rewrite: every key and every string value rewritten on its
      own, in its escaped form. The structure of the text (braces, quotes, colons, commas) is left
      alone, because none of it is a word character. */
  lemma RewriteStringify(q: seq<Field>)
    ensures Operators.ReplaceOperators(Stringify(q)) == Render(Obj(q), EscapedAndMarked)
  {
    MarkRender(Obj(q));
    Operators.ReplaceIsMarkWords(Stringify(q));
  }

  lemma MarkQuote(s: string)
    ensures Operators.MarkWords(Quote(Encode(s, Escaped))) == Quote(Encode(s, EscapedAndMarked))
  {
    Operators.Enclose("\"", Escape(s), "\"");
    Operators.ReplaceIsMarkWords(Escape(s));
  }

  lemma {:induction false} MarkRender(v: Value)
    ensures Operators.MarkWords(Render(v, Escaped)) == Render(v, EscapedAndMarked)
    decreases v, 1
  {
    match v
    case Str(s) => MarkQuote(s);
    case Obj(fs) =>
      MarkRenderFields(fs);
      Operators.Enclose("{", RenderFields(fs, Escaped), "}");
  }

  lemma {:induction false} MarkRenderFields(fs: seq<Field>)
    ensures Operators.MarkWords(RenderFields(fs, Escaped)) == RenderFields(fs, EscapedAndMarked)
    decreases fs, 0
  {
    if fs == [] {
    } else if |fs| == 1 {
      MarkRenderField(fs[0]);
    } else {
      MarkRenderField(fs[0]);
      MarkRenderFields(fs[1..]);
      Operators.Between(RenderField(fs[0], Escaped), ",", RenderFields(fs[1..], Escaped));
    }
  }

  lemma {:induction false} MarkRenderField(f: Field)
    ensures Operators.MarkWords(RenderField(f, Escaped)) == RenderField(f, EscapedAndMarked)
    decreases f, 0
  {
    MarkQuote(f.key);
    MarkRender(f.value);
    Operators.Between(Quote(Encode(f.key, Escaped)), ":", Render(f.value, Escaped));
  }

  /** Every key and string value made of plain characters. */
  predicate PlainValue(v: Value)
    decreases v, 1
  {
    match v
    case Str(s) => AllPlain(s)
    case Obj(fs) => PlainFields(fs)
  }

  predicate PlainFields(fs: seq<Field>)
    decreases fs, 0
  {
    forall k :: 0 <= k < |fs| ==> AllPlain(fs[k].key) && PlainValue(fs[k].value)
  }

  /** The value with the rewrite applied to every key and every string on its own. */
  function MarkValue(v: Value): Value
    decreases v, 1
  {
    match v
    case Str(s) => Str(Operators.ReplaceOperators(s))
    case Obj(fs) => Obj(MarkFields(fs))
  }

  function MarkFields(fs: seq<Field>): (r: seq<Field>)
    ensures |r| == |fs|
    decreases fs, 0
  {
    if fs == [] then []
    else [Field(Operators.ReplaceOperators(fs[0].key), MarkValue(fs[0].value))] + MarkFields(fs[1..])
  }

  /** For a plain string, rewriting the escaped text is escaping the rewritten string. */
  lemma EncodePlain(s: string)
    requires AllPlain(s)
    ensures Encode(s, EscapedAndMarked) == Encode(Operators.ReplaceOperators(s), Escaped)
  {
    var m := Operators.ReplaceOperators(s);
    EscapePlain(s);
    Operators.ReplaceIsMarkWords(s);
    Operators.MarkWordsChars(s);
    assert AllPlain(m) by {
      forall k | 0 <= k < |m| ensures Plain(m[k]) {
        assert m[k] in m;
      }
    }
    EscapePlain(m);
  }

  /** On a query of plain keys and values, the rewritten text is the serialization of the query
      whose keys and values are each rewritten: the rewrite reaches keys and values alike. */
  lemma {:induction false} PlainRewrite(v: Value)
    requires PlainValue(v)
    ensures Render(v, EscapedAndMarked) == Render(MarkValue(v), Escaped)
    decreases v, 1
  {
    match v
    case Str(s) => EncodePlain(s);
    case Obj(fs) => PlainRewriteFields(fs);
  }

  lemma {:induction false} PlainRewriteFields(fs: seq<Field>)
    requires PlainFields(fs)
    ensures RenderFields(fs, EscapedAndMarked) == RenderFields(MarkFields(fs), Escaped)
    decreases fs, 0
  {
    if fs != [] {
      var f := fs[0];
      var m := MarkFields(fs);
      assert m[0] == Field(Operators.ReplaceOperators(f.key), MarkValue(f.value));
      assert RenderField(f, EscapedAndMarked) == RenderField(m[0], Escaped) by {
        EncodePlain(f.key);
        PlainRewrite(f.value);
      }
      if |fs| > 1 {
        assert m[1..] == MarkFields(fs[1..]);
        assert PlainFields(fs[1..]) by {
          forall k | 0 <= k < |fs| - 1 ensures AllPlain(fs[1..][k].key) && PlainValue(fs[1..][k].value) {
            assert fs[1..][k] == fs[k + 1];
          }
        }
        PlainRewriteFields(fs[1..]);
      }
    }
  }

  /** The rewrite of a single whole word. */
  lemma RewriteWord(w: string)
    requires w != [] && forall k :: 0 <= k < |w| ==> Text.IsWordChar(w[k])
    ensures Operators.ReplaceOperators(w) == Operators.Mark(w)
  {
    Operators.WordInContext([], w, []);
    assert [] + w + [] == w;
  }

  /** In `?averageCost[lte]=10000` the key `lte` becomes the query operator `$lte`... */
  lemma RewriteExample()
    ensures Operators.ReplaceOperators("lte") == "$lte"
  {
    RewriteWord("lte");
  }

  /** ...while the field name stays as it is. */
  lemma FieldNameKept()
    ensures Operators.ReplaceOperators("averageCost") == "averageCost"
  {
    RewriteWord("averageCost");
  }

  /** A word that only contains an operator name, such as `gtex` or `lint`, is left alone. */
  lemma ContainedNamesUntouched()
    ensures Operators.ReplaceOperators("gtex") == "gtex"
    ensures Operators.ReplaceOperators("lint") == "lint"
  {
    assert Operators.ReplaceOperators("gtex") == "gtex" by { RewriteWord("gtex"); }
    RewriteWord("lint");
  }
}
