/** String primitives of JavaScript that the handlers and the list-query builder rely on:
    character classes, `trim`, `includes`, `split`/`join`, and `parseInt` with radix 10. */
module Text {
  import opened Wrappers

  /** A word character of JavaScript regular expressions (`\w`), which decides where `\b` holds. */
  predicate IsWordChar(c: char) {
    ('a' <= c <= 'z') || ('A' <= c <= 'Z') || ('0' <= c <= '9') || c == '_'
  }

  /** White space and line terminators as `trim`, `Number` and `parseInt` skip them: tab, line feed,
      vertical tab, form feed and carriage return; the space separators of Unicode category Zs;
      the byte order mark; and the line and paragraph separators. */
  predicate IsSpace(c: char) {
    || ('\t' <= c <= '\r') || c == ' ' || c == '\U{A0}' || c == '\U{1680}'
    || ('\U{2000}' <= c <= '\U{200A}') || c == '\U{2028}' || c == '\U{2029}' || c == '\U{202F}'
    || c == '\U{205F}' || c == '\U{3000}' || c == '\U{FEFF}'
  }

  predicate IsDigit(c: char) {
    '0' <= c <= '9'
  }

  predicate AllDigits(s: string) {
    forall k :: 0 <= k < |s| ==> IsDigit(s[k])
  }

  /** `s.includes(sub)`. */
  predicate Contains(s: string, sub: string) {
    exists i :: 0 <= i <= |s| - |sub| && OccursAt(s, sub, i)
  }

  /** `sub` occurs in `s` starting at position `i`. */
  predicate OccursAt(s: string, sub: string, i: int)
    requires 0 <= i <= |s| - |sub|
  {
    s[i..i + |sub|] == sub
  }

  /** Leading white space removed. */
  function TrimStart(s: string): (r: string)
    ensures |r| <= |s| && r == s[|s| - |r|..]
    ensures forall k :: 0 <= k < |s| - |r| ==> IsSpace(s[k])
    ensures r == [] || !IsSpace(r[0])
  {
    if s != [] && IsSpace(s[0]) then TrimStart(s[1..]) else s
  }

  /** Trailing white space removed. */
  function TrimEnd(s: string): (r: string)
    ensures |r| <= |s| && r == s[..|r|]
    ensures forall k :: |r| <= k < |s| ==> IsSpace(s[k])
    ensures r == [] || !IsSpace(r[|r| - 1])
  {
    if s != [] && IsSpace(s[|s| - 1]) then TrimEnd(s[..|s| - 1]) else s
  }

  /** `s.trim()`, the setter Mongoose applies to fields declared with `trim: true`. */
  function Trim(s: string): (r: string)
    ensures r == [] || (!IsSpace(r[0]) && !IsSpace(r[|r| - 1]))
    ensures |r| <= |s|
  {
    TrimEnd(TrimStart(s))
  }

  /** Trimming is idempotent: a trimmed value is left as it is. */
  lemma TrimTwice(s: string)
    ensures Trim(Trim(s)) == Trim(s)
  {
    TrimUnpadded(Trim(s));
  }

  /** A value with no white space at either end is its own trim. */
  lemma TrimUnpadded(t: string)
    requires t == [] || (!IsSpace(t[0]) && !IsSpace(t[|t| - 1]))
    ensures Trim(t) == t
  {
    assert TrimStart(t) == t;
    assert TrimEnd(t) == t;
  }

  /** Trimming removes white space from both ends and nothing else: the result is a slice of the
      input with only white space before and after it. */
  lemma TrimIsCore(s: string) returns (i: nat, j: nat)
    ensures i <= j <= |s| && Trim(s) == s[i..j]
    ensures forall k :: 0 <= k < i ==> IsSpace(s[k])
    ensures forall k :: j <= k < |s| ==> IsSpace(s[k])
  {
    i, j := CoreBounds(s, TrimStart(s), Trim(s));
  }

  /** Where `t`, cut from the end of `start`, which is cut from the end of `s`, sits in `s`. */
  lemma CoreBounds(s: string, start: string, t: string) returns (i: nat, j: nat)
    requires |start| <= |s| && start == s[|s| - |start|..]
    requires forall k :: 0 <= k < |s| - |start| ==> IsSpace(s[k])
    requires |t| <= |start| && t == start[..|t|]
    requires forall k :: |t| <= k < |start| ==> IsSpace(start[k])
    ensures i <= j <= |s| && t == s[i..j]
    ensures forall k :: 0 <= k < i ==> IsSpace(s[k])
    ensures forall k :: j <= k < |s| ==> IsSpace(s[k])
  {
    i := |s| - |start|;
    j := i + |t|;
    forall k | j <= k < |s| ensures IsSpace(s[k]) {
      assert s[k] == start[k - i];
    }
  }

  /** `trim` also drops the Unicode space separators, such as the em space. */
  lemma TrimEmSpace()
    ensures Trim("\U{2003}x\U{3000}") == "x"
  {
    var s := "\U{2003}x\U{3000}";
    var u := s[1..];
    var x := u[..1];
    assert IsSpace(s[0]) && !IsSpace(u[0]) && IsSpace(u[1]) && x == "x";
    LeadingSpaceDropped(s);
    TrailingSpaceDropped(u);
    TrimUnpadded(x);
    assert TrimStart(x) == x && TrimEnd(x) == x;
    assert TrimStart(u) == u;
  }

  lemma LeadingSpaceDropped(s: string)
    requires s != [] && IsSpace(s[0])
    ensures TrimStart(s) == TrimStart(s[1..])
  {
  }

  lemma TrailingSpaceDropped(s: string)
    requires s != [] && IsSpace(s[|s| - 1])
    ensures TrimEnd(s) == TrimEnd(s[..|s| - 1])
  {
  }

  /** The first position of `c` in `s`. */
  function IndexOf(s: string, c: char): (i: nat)
    requires c in s
    ensures i < |s| && s[i] == c && c !in s[..i]
  {
    if s[0] == c then 0 else 1 + IndexOf(s[1..], c)
  }

  /** `s.split(sep)` for a one-character separator: the pieces between separators, empty pieces
      included, so that `"".split(",")` is `[""]`. */
  function Split(s: string, sep: char): (parts: seq<string>)
    ensures |parts| >= 1
    ensures forall k :: 0 <= k < |parts| ==> sep !in parts[k]
    decreases |s|
  {
    if sep !in s then [s]
    else
      var i := IndexOf(s, sep);
      [s[..i]] + Split(s[i + 1..], sep)
  }

  /** `parts.join(sep)`. */
  function Join(parts: seq<string>, sep: string): string {
    if |parts| == 0 then []
    else if |parts| == 1 then parts[0]
    else parts[0] + sep + Join(parts[1..], sep)
  }

  /** Every occurrence of the character `from` replaced by `to`. */
  function ReplaceChar(s: string, from: char, to: char): string {
    seq(|s|, k requires 0 <= k < |s| => if s[k] == from then to else s[k])
  }

  /** `s.split(from).join(to)` replaces each `from` by `to` and changes nothing else. */
  lemma {:induction false} SplitJoin(s: string, from: char, to: char)
    ensures Join(Split(s, from), [to]) == ReplaceChar(s, from, to)
    decreases |s|
  {
    if from in s {
      var i := IndexOf(s, from);
      var rest := s[i + 1..];
      SplitJoin(rest, from, to);
      assert Split(s, from) == [s[..i]] + Split(rest, from);
      ReplaceAtFirst(s, i, from, to);
    } else {
      assert ReplaceChar(s, from, to) == s;
    }
  }

  /** Replacing in `s` around its first `from`, at position `i`. */
  lemma ReplaceAtFirst(s: string, i: nat, from: char, to: char)
    requires i < |s| && s[i] == from && from !in s[..i]
    ensures ReplaceChar(s, from, to) == s[..i] + [to] + ReplaceChar(s[i + 1..], from, to)
  {
    var r := ReplaceChar(s, from, to);
    forall k | 0 <= k < i ensures r[k] == s[k] {
      assert s[k] != from by { assert s[k] == s[..i][k]; }
    }
  }

  /** Splitting and joining on the same character gives the string back. */
  lemma SplitJoinIdentity(s: string, c: char)
    ensures Join(Split(s, c), [c]) == s
  {
    SplitJoin(s, c, c);
    assert ReplaceChar(s, c, c) == s;
  }

  /** The length of the run of decimal digits at the start of `s`. */
  function DigitRun(s: string): (n: nat)
    ensures n <= |s| && AllDigits(s[..n])
    ensures n == |s| || !IsDigit(s[n])
  {
    if s != [] && IsDigit(s[0]) then 1 + DigitRun(s[1..]) else 0
  }

  /** The value of a decimal numeral, most significant digit first. */
  function DigitsValue(ds: string): nat
    requires AllDigits(ds)
  {
    if ds == [] then 0 else DigitsValue(ds[..|ds| - 1]) * 10 + (ds[|ds| - 1] as int - '0' as int)
  }

  /** `parseInt(s, 10)`: white space skipped, an optional sign, then the longest run of decimal
      digits; `None` stands for `NaN`, the outcome when no digit follows. */
  function ParseInt(s: string): Option<int> {
    var t := TrimStart(s);
    var negative := t != [] && t[0] == '-';
    var u := if t != [] && (t[0] == '-' || t[0] == '+') then t[1..] else t;
    var n := DigitRun(u);
    if n == 0 then None
    else
      var v: int := DigitsValue(u[..n]);
      Some(if negative then -v else v)
  }

  /** `parseInt(...) || fallback`: `NaN` and zero are falsy and give the fallback. */
  function OrDefault(parsed: Option<int>, fallback: int): (r: int)
    ensures parsed.Some? && parsed.value != 0 ==> r == parsed.value
    ensures (parsed.None? || parsed.value == 0) ==> r == fallback
  {
    if parsed.None? || parsed.value == 0 then fallback else parsed.value
  }

  /** The decimal numeral of `n`, as `String(n)` writes it. */
  function DecimalString(n: nat): (s: string)
    ensures |s| >= 1 && AllDigits(s)
  {
    var d := [('0' as int + n % 10) as char];
    if n < 10 then d else DecimalString(n / 10) + d
  }

  lemma {:induction false} DecimalValue(n: nat)
    ensures DigitsValue(DecimalString(n)) == n
  {
    var s := DecimalString(n);
    if n >= 10 {
      DecimalValue(n / 10);
      assert s[..|s| - 1] == DecimalString(n / 10);
    }
  }

  /** `parseInt` reads back the numeral `String(n)`, and stops at the first character after it that
      is not a digit, as in `parseInt("2.5") == 2` or `parseInt("3abc") == 3`. */
  lemma ParseIntDecimal(n: nat, rest: string)
    requires rest == [] || !IsDigit(rest[0])
    ensures ParseInt(DecimalString(n) + rest) == Some(n)
  {
    ParseIntDigits(DecimalString(n), rest);
    DecimalValue(n);
  }

  lemma DigitNotSpace(c: char)
    requires IsDigit(c)
    ensures !IsSpace(c)
  {
  }

  /** `parseInt` reads a run of digits followed by a non-digit as the value of those digits. */
  lemma ParseIntDigits(s: string, rest: string)
    requires s != [] && AllDigits(s)
    requires rest == [] || !IsDigit(rest[0])
    ensures ParseInt(s + rest) == Some(DigitsValue(s))
  {
    var t := s + rest;
    assert t[0] == s[0] && IsDigit(t[0]);
    DigitNotSpace(t[0]);
    assert TrimStart(t) == t;
    assert DigitRun(t) == |s| by {
      DigitRunOfDigits(s, rest);
    }
    assert t[..|s|] == s;
  }

  lemma {:induction false} DigitRunOfDigits(s: string, rest: string)
    requires AllDigits(s)
    requires rest == [] || !IsDigit(rest[0])
    ensures DigitRun(s + rest) == |s|
    decreases |s|
  {
    if s != [] {
      DigitRunOfDigits(s[1..], rest);
      assert (s + rest)[1..] == s[1..] + rest;
    } else {
      assert s + rest == rest;
    }
  }
}
