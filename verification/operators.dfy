/** The operator rewrite of middleware/advancedResults.js: in the serialized filter, every whole word
    `gt`, `gte`, `lt`, `lte` or `in` gains a `$` prefix, turning `{"averageCost":{"lte":"10000"}}`
    into the query operator form `{"averageCost":{"$lte":"10000"}}`.

    `ReplaceOperators` follows the regular-expression engine: `/\b(gt|gte|lt|lte|in)\b/g` scanned from
    left to right. `MarkWords` is an independent reference definition: cut the text into maximal runs
    of word and non-word characters and prefix each run that is an operator name. The two are proved
    equal, and the reference is proved to distribute over concatenations at a word boundary. */
module Operators {
  import opened Wrappers
  import opened Text

  /** The alternatives of the regular expression, in the order it tries them. */
  const Alternatives: seq<string> := ["gt", "gte", "lt", "lte", "in"]

  /** The words the rewrite marks. */
  predicate IsOperator(w: string) {
    w in {"gt", "gte", "lt", "lte", "in"}
  }

  /** `\b` at position `i`: a word character on exactly one side. */
  predicate Boundary(s: string, i: int)
    requires 0 <= i <= |s|
  {
    (i > 0 && IsWordChar(s[i - 1])) != (i < |s| && IsWordChar(s[i]))
  }

  /** `t` occurs at position `i` of `s` and is followed by `\b`. */
  predicate MatchesAt(s: string, i: nat, t: string)
    requires i <= |s|
  {
    i + |t| <= |s| && s[i..i + |t|] == t && Boundary(s, i + |t|)
  }

  /** The first alternative, in order, that matches at `i` and is followed by `\b`; this is how the
      engine backtracks from `gt` to `gte` when the text reads `gte`. */
  function FirstMatch(s: string, i: nat, alts: seq<string>): (r: Option<string>)
    requires i <= |s|
    ensures r.Some? ==> r.value in alts && MatchesAt(s, i, r.value)
    ensures r.None? ==> forall k :: 0 <= k < |alts| ==> !MatchesAt(s, i, alts[k])
  {
    if alts == [] then None
    else if MatchesAt(s, i, alts[0]) then Some(alts[0])
    else FirstMatch(s, i, alts[1..])
  }

  /** The alternative taken is the first in order that matches: every one before it fails. */
  lemma {:induction false} FirstMatchIsFirst(s: string, i: nat, alts: seq<string>) returns (j: nat)
    requires i <= |s| && FirstMatch(s, i, alts).Some?
    ensures j < |alts| && alts[j] == FirstMatch(s, i, alts).value
    ensures forall k :: 0 <= k < j ==> !MatchesAt(s, i, alts[k])
  {
    if MatchesAt(s, i, alts[0]) {
      j := 0;
    } else {
      var j' := FirstMatchIsFirst(s, i, alts[1..]);
      j := j' + 1;
      forall k | 0 <= k < j ensures !MatchesAt(s, i, alts[k]) {
        if k > 0 { assert alts[k] == alts[1..][k - 1]; }
      }
    }
  }

  /** `s.replace(/\b(gt|gte|lt|lte|in)\b/g, m => '$' + m)` from position `i` on: where `\b` holds and
      an alternative matches, the match is emitted with a `$` in front and skipped; otherwise one
      character is copied. */
  function ReplaceFrom(s: string, i: nat): string
    requires i <= |s|
    decreases |s| - i
  {
    if i == |s| then []
    else
      var m := MatchAt(s, i);
      if m.Some? then "$" + m.value + ReplaceFrom(s, i + |m.value|)
      else [s[i]] + ReplaceFrom(s, i + 1)
  }

  /** The match the scan takes at `i`: an alternative after a `\b`, if any. */
  function MatchAt(s: string, i: nat): (m: Option<string>)
    requires i <= |s|
    ensures m.Some? ==> i + |m.value| <= |s| && |m.value| > 0
  {
    if Boundary(s, i) then FirstMatch(s, i, Alternatives) else None
  }

  /** The rewrite of the whole serialized filter. */
  function ReplaceOperators(s: string): string {
    ReplaceFrom(s, 0)
  }

  /** Reference: one run, prefixed when it is an operator name. */
  function Mark(w: string): string {
    if IsOperator(w) then "$" + w else w
  }

  /** The length of the maximal run at the start of `s` whose characters are all word characters or
      all non-word characters. */
  function RunLength(s: string): (n: nat)
    requires |s| > 0
    ensures 1 <= n <= |s|
    ensures forall k :: 0 <= k < n ==> IsWordChar(s[k]) == IsWordChar(s[0])
    ensures n == |s| || IsWordChar(s[n]) != IsWordChar(s[0])
  {
    if |s| == 1 || IsWordChar(s[1]) != IsWordChar(s[0]) then 1 else 1 + RunLength(s[1..])
  }

  /** Reference: `s` cut into maximal runs, each operator word prefixed with `$`. */
  function MarkWords(s: string): string
    decreases |s|
  {
    if s == [] then [] else var n := RunLength(s); Mark(s[..n]) + MarkWords(s[n..])
  }

  /** The run length is the only length with the run property. */
  lemma {:induction false} RunLengthIs(s: string, n: nat)
    requires 1 <= n <= |s|
    requires forall k :: 0 <= k < n ==> IsWordChar(s[k]) == IsWordChar(s[0])
    requires n == |s| || IsWordChar(s[n]) != IsWordChar(s[0])
    ensures RunLength(s) == n
    decreases n
  {
    if n > 1 {
      assert IsWordChar(s[1]) == IsWordChar(s[0]);
      RunLengthIs(s[1..], n - 1);
    }
  }

  /** A text without word characters is never rewritten. */
  lemma MarkIdentity(w: string)
    requires w != [] && !IsWordChar(w[0])
    ensures Mark(w) == w
  {
  }

  lemma AlternativesAreWords()
    ensures forall k :: 0 <= k < |Alternatives| ==> |Alternatives[k]| > 0 && IsWordChar(Alternatives[k][0])
    ensures forall k, j :: 0 <= k < |Alternatives| && 0 <= j < |Alternatives[k]| ==> IsWordChar(Alternatives[k][j])
    ensures forall w :: IsOperator(w) <==> w in Alternatives
  {
  }

  /** The scan copies the character at `k`: no alternative starts a match there. */
  predicate Copies(s: string, k: nat)
    requires k < |s|
  {
    MatchAt(s, k).None?
  }

  lemma ReplaceMatch(s: string, k: nat)
    requires k < |s| && MatchAt(s, k).Some?
    ensures var m := MatchAt(s, k).value;
              k + |m| <= |s| && ReplaceFrom(s, k) == "$" + m + ReplaceFrom(s, k + |m|)
  {
  }

  lemma ReplaceCopy(s: string, k: nat)
    requires k < |s| && Copies(s, k)
    ensures ReplaceFrom(s, k) == [s[k]] + ReplaceFrom(s, k + 1)
  {
  }

  /** Characters of a run that are copied one by one. */
  lemma {:induction false} CopyRun(s: string, j: nat, e: nat)
    requires j <= e <= |s|
    requires forall k :: j <= k < e ==> Copies(s, k)
    ensures ReplaceFrom(s, j) == s[j..e] + ReplaceFrom(s, e)
    decreases e - j
  {
    if j < e {
      var u, v := ReplaceFrom(s, j), ReplaceFrom(s, j + 1);
      var x, y, z := [s[j]], s[j + 1..e], ReplaceFrom(s, e);
      assert u == x + v by { ReplaceCopy(s, j); }
      assert v == y + z by { CopyRun(s, j + 1, e); }
      assert s[j..e] == x + y;
      Regroup(u, v, s[j..e], x, y, z);
    } else {
      assert s[j..e] == [];
    }
  }

  /** No alternative matches where a non-word character stands. */
  lemma NoMatchAtNonWord(s: string, p: nat)
    requires p < |s| && !IsWordChar(s[p])
    ensures Copies(s, p)
  {
    AlternativesAreWords();
    forall k | 0 <= k < |Alternatives| ensures !MatchesAt(s, p, Alternatives[k]) {
      var t := Alternatives[k];
      if p + |t| <= |s| {
        assert s[p..p + |t|][0] == s[p];
      }
    }
  }

  /** A match that starts where a word run starts covers exactly that run. */
  lemma MatchIsRun(s: string, i: nat, n: nat, t: string)
    requires i + n <= |s| && n >= 1
    requires forall k :: i <= k < i + n ==> IsWordChar(s[k])
    requires i + n == |s| || !IsWordChar(s[i + n])
    requires t in Alternatives && MatchesAt(s, i, t)
    ensures t == s[i..i + n]
  {
    AlternativesAreWords();
    forall j | 0 <= j < |t| ensures s[i + j] == t[j] {
      assert s[i + j] == s[i..i + |t|][j];
    }
    forall e | i < e < i + n ensures !Boundary(s, e) {
      assert IsWordChar(s[e - 1]) && IsWordChar(s[e]);
    }
    forall k | i <= k < i + |t| ensures IsWordChar(s[k]) {
      assert s[k] == t[k - i];
    }
    assert !(|t| < n);
    assert !(|t| > n);
  }

  /** At the start of a word run, the first matching alternative is the run itself when the run is an
      operator name, and there is none otherwise. */
  lemma MatchAtWordRun(s: string, i: nat, n: nat)
    requires i + n <= |s| && n >= 1
    requires forall k :: i <= k < i + n ==> IsWordChar(s[k])
    requires i + n == |s| || !IsWordChar(s[i + n])
    ensures FirstMatch(s, i, Alternatives) == if IsOperator(s[i..i + n]) then Some(s[i..i + n]) else None
  {
    AlternativesAreWords();
    var w := s[i..i + n];
    forall k | 0 <= k < |Alternatives| ensures MatchesAt(s, i, Alternatives[k]) <==> Alternatives[k] == w {
      var t := Alternatives[k];
      if MatchesAt(s, i, t) {
        MatchIsRun(s, i, n, t);
      }
      if t == w {
        assert Boundary(s, i + n);
      }
    }
  }

  /** One run of the scan: the scan from a run start emits the reference's rendering of that run. */
  lemma RunStep(s: string, i: nat, n: nat)
    requires i + n <= |s| && n >= 1
    requires i == 0 || IsWordChar(s[i - 1]) != IsWordChar(s[i])
    requires forall k :: i <= k < i + n ==> IsWordChar(s[k]) == IsWordChar(s[i])
    requires i + n == |s| || IsWordChar(s[i + n]) != IsWordChar(s[i])
    ensures ReplaceFrom(s, i) == Mark(s[i..i + n]) + ReplaceFrom(s, i + n)
  {
    if IsWordChar(s[i]) {
      WordRunStep(s, i, n);
    } else {
      NonWordRunStep(s, i, n);
    }
  }

  /** A run of non-word characters is copied as it is. */
  lemma NonWordRunStep(s: string, i: nat, n: nat)
    requires i + n <= |s| && n >= 1
    requires forall k :: i <= k < i + n ==> !IsWordChar(s[k])
    ensures ReplaceFrom(s, i) == Mark(s[i..i + n]) + ReplaceFrom(s, i + n)
  {
    NonWordRunCopies(s, i, n);
    CopyRun(s, i, i + n);
    assert s[i..i + n][0] == s[i];
    MarkIdentity(s[i..i + n]);
  }

  lemma NonWordRunCopies(s: string, i: nat, n: nat)
    requires i + n <= |s|
    requires forall k :: i <= k < i + n ==> !IsWordChar(s[k])
    ensures forall k :: i <= k < i + n ==> Copies(s, k)
  {
    forall k | i <= k < i + n ensures Copies(s, k) {
      NoMatchAtNonWord(s, k);
    }
  }

  /** A word run: rewritten as one match when it is an operator name, copied otherwise. */
  lemma WordRunStep(s: string, i: nat, n: nat)
    requires i + n <= |s| && n >= 1
    requires i == 0 || !IsWordChar(s[i - 1])
    requires forall k :: i <= k < i + n ==> IsWordChar(s[k])
    requires i + n == |s| || !IsWordChar(s[i + n])
    ensures ReplaceFrom(s, i) == Mark(s[i..i + n]) + ReplaceFrom(s, i + n)
  {
    assert Boundary(s, i);
    MatchAtWordRun(s, i, n);
    if IsOperator(s[i..i + n]) {
      OperatorRunStep(s, i, n);
    } else {
      PlainWordRunStep(s, i, n);
    }
  }

  lemma OperatorRunStep(s: string, i: nat, n: nat)
    requires i + n <= |s| && IsOperator(s[i..i + n]) && MatchAt(s, i) == Some(s[i..i + n])
    ensures ReplaceFrom(s, i) == Mark(s[i..i + n]) + ReplaceFrom(s, i + n)
  {
    ReplaceMatch(s, i);
  }

  lemma PlainWordRunStep(s: string, i: nat, n: nat)
    requires i + n <= |s| && n >= 1
    requires forall k :: i <= k < i + n ==> IsWordChar(s[k])
    requires !IsOperator(s[i..i + n]) && Copies(s, i)
    ensures ReplaceFrom(s, i) == Mark(s[i..i + n]) + ReplaceFrom(s, i + n)
  {
    WordRunCopies(s, i, n);
    CopyRun(s, i, i + n);
  }

  /** Inside a word run no `\b` holds, so nothing after the run start can match. */
  lemma WordRunCopies(s: string, i: nat, n: nat)
    requires i + n <= |s| && n >= 1
    requires forall k :: i <= k < i + n ==> IsWordChar(s[k])
    requires Copies(s, i)
    ensures forall k :: i <= k < i + n ==> Copies(s, k)
  {
    forall k | i <= k < i + n ensures Copies(s, k) {
      if k > i {
        assert IsWordChar(s[k - 1]) && IsWordChar(s[k]);
      }
    }
  }

  /** The scan from a run start equals the reference applied to the rest of the text. */
  lemma {:induction false} ScanIsReference(s: string, i: nat)
    requires i <= |s|
    requires i == 0 || i == |s| || IsWordChar(s[i - 1]) != IsWordChar(s[i])
    ensures ReplaceFrom(s, i) == MarkWords(s[i..])
    decreases |s| - i, 1
  {
    if i == |s| {
      assert s[i..] == [];
    } else {
      ScanFromRunStart(s, i);
    }
  }

  lemma {:induction false} ScanFromRunStart(s: string, i: nat)
    requires i < |s|
    requires i == 0 || IsWordChar(s[i - 1]) != IsWordChar(s[i])
    ensures ReplaceFrom(s, i) == MarkWords(s[i..])
    decreases |s| - i, 0
  {
    var n := FirstRun(s, i);
    ScanIsReference(s, i + n);
    SameAfterRun(ReplaceFrom(s, i), MarkWords(s[i..]), Mark(s[i..i + n]), ReplaceFrom(s, i + n), MarkWords(s[i + n..]));
  }

  /** Two renderings that agree on their first run and on what follows it agree. */
  lemma SameAfterRun(scan: string, reference: string, run: string, scanRest: string, referenceRest: string)
    requires scan == run + scanRest && reference == run + referenceRest
    requires scanRest == referenceRest
    ensures scan == reference
  {
  }

  /** The run at a run start `i`, rendered alike by the scan and by the reference. */
  lemma FirstRun(s: string, i: nat) returns (n: nat)
    requires i < |s|
    requires i == 0 || IsWordChar(s[i - 1]) != IsWordChar(s[i])
    ensures 1 <= n && i + n <= |s|
    ensures i + n == |s| || IsWordChar(s[i + n - 1]) != IsWordChar(s[i + n])
    ensures ReplaceFrom(s, i) == Mark(s[i..i + n]) + ReplaceFrom(s, i + n)
    ensures MarkWords(s[i..]) == Mark(s[i..i + n]) + MarkWords(s[i + n..])
  {
    n := RunLength(s[i..]);
    ReferenceRunAt(s, i, n);
    ScanRunAt(s, i, n);
  }

  /** The reference, applied to the text from `i`, renders the run at `i` first. */
  lemma ReferenceRunAt(s: string, i: nat, n: nat)
    requires i < |s| && n == RunLength(s[i..])
    ensures i + n <= |s|
    ensures MarkWords(s[i..]) == Mark(s[i..i + n]) + MarkWords(s[i + n..])
  {
    var t := s[i..];
    assert t[..n] == s[i..i + n];
    assert t[n..] == s[i + n..];
  }

  /** The scan renders the run at a run start `i` like the reference, and the next run starts after it. */
  lemma ScanRunAt(s: string, i: nat, n: nat)
    requires i < |s| && n == RunLength(s[i..])
    requires i == 0 || IsWordChar(s[i - 1]) != IsWordChar(s[i])
    ensures i + n <= |s|
    ensures ReplaceFrom(s, i) == Mark(s[i..i + n]) + ReplaceFrom(s, i + n)
    ensures i + n == |s| || IsWordChar(s[i + n - 1]) != IsWordChar(s[i + n])
  {
    RunAt(s, i, n);
    RunStep(s, i, n);
  }

  /** The run at `i` in terms of `s` itself. */
  lemma RunAt(s: string, i: nat, n: nat)
    requires i < |s| && n == RunLength(s[i..])
    ensures 1 <= n && i + n <= |s|
    ensures forall k :: i <= k < i + n ==> IsWordChar(s[k]) == IsWordChar(s[i])
    ensures i + n == |s| || IsWordChar(s[i + n]) != IsWordChar(s[i])
  {
    var t := s[i..];
    forall k | i <= k < i + n ensures IsWordChar(s[k]) == IsWordChar(s[i]) {
      assert s[k] == t[k - i];
    }
    if i + n < |s| {
      assert s[i + n] == t[n];
    }
  }

  /** The regular-expression rewrite and the run-based reference agree on every text. */
  lemma ReplaceIsMarkWords(s: string)
    ensures ReplaceOperators(s) == MarkWords(s)
  {
    ScanIsReference(s, 0);
    assert s[0..] == s;
  }

  /** The reference distributes over a concatenation whose seam is not inside a word. */
  lemma {:induction false} MarkWordsConcat(a: string, b: string)
    requires a == [] || b == [] || !IsWordChar(a[|a| - 1]) || !IsWordChar(b[0])
    ensures MarkWords(a + b) == MarkWords(a) + MarkWords(b)
    decreases |a|
  {
    if a == [] {
      assert a + b == b;
    } else if b == [] {
      assert a + b == a;
    } else {
      var n := RunLength(a);
      if n < |a| {
        ConcatSplitRun(a, b);
      } else if IsWordChar(a[0]) || IsWordChar(b[0]) {
        ConcatWholeRun(a, b);
      } else {
        ConcatMergedRun(a, b);
      }
    }
  }

  /** One step of the reference. */
  lemma MarkWordsStep(s: string, n: nat)
    requires s != [] && RunLength(s) == n
    ensures MarkWords(s) == Mark(s[..n]) + MarkWords(s[n..])
  {
  }

  /** The reference on a text that is a single run. */
  lemma MarkWordsOneRun(a: string)
    requires a != [] && RunLength(a) == |a|
    ensures MarkWords(a) == Mark(a)
  {
    MarkWordsStep(a, |a|);
    assert a[..|a|] == a;
    assert a[|a|..] == [];
  }

  /** The reference on `p + b` when `p` is the first run. */
  lemma MarkWordsFirstRun(p: string, b: string)
    requires p != [] && RunLength(p + b) == |p|
    ensures MarkWords(p + b) == Mark(p) + MarkWords(b)
  {
    var pb := p + b;
    MarkWordsStep(pb, |p|);
    assert pb[..|p|] == p;
    assert pb[|p|..] == b;
  }

  /** The first run of `a + b` is the first run of `a` when that run ends inside `a`. */
  lemma FirstRunInside(a: string, b: string)
    requires a != [] && RunLength(a) < |a|
    ensures RunLength(a + b) == RunLength(a)
  {
    var ab := a + b;
    var n := RunLength(a);
    forall k | 0 <= k < n ensures IsWordChar(ab[k]) == IsWordChar(ab[0]) {
      assert ab[k] == a[k];
    }
    assert ab[n] == a[n];
    RunLengthIs(ab, n);
  }

  /** When `a` is one run and `b` starts with the other kind of character, `a` is the first run of `a + b`. */
  lemma FirstRunWhole(a: string, b: string)
    requires a != [] && b != [] && RunLength(a) == |a|
    requires IsWordChar(b[0]) != IsWordChar(a[0])
    ensures RunLength(a + b) == |a|
  {
    var ab := a + b;
    forall k | 0 <= k < |a| ensures IsWordChar(ab[k]) == IsWordChar(ab[0]) {
      assert ab[k] == a[k];
    }
    RunLengthIs(ab, |a|);
  }

  /** When `a` is one run and `b` starts with the same kind of character, the first runs merge. */
  lemma FirstRunMerged(a: string, b: string)
    requires a != [] && b != [] && RunLength(a) == |a|
    requires IsWordChar(b[0]) == IsWordChar(a[0])
    ensures RunLength(a + b) == |a| + RunLength(b)
  {
    var ab := a + b;
    var m := RunLength(b);
    forall k | 0 <= k < |a| + m ensures IsWordChar(ab[k]) == IsWordChar(ab[0]) {
      if k < |a| { assert ab[k] == a[k]; } else { assert ab[k] == b[k - |a|]; }
    }
    if |a| + m < |ab| {
      assert ab[|a| + m] == b[m];
    }
    RunLengthIs(ab, |a| + m);
  }

  /** The first run of `a` ends inside `a`, so `a + b` starts with the same run. */
  lemma PeelInside(a: string, b: string, n: nat)
    requires a != [] && n == RunLength(a) && n < |a|
    ensures MarkWords(a + b) == Mark(a[..n]) + MarkWords(a[n..] + b)
  {
    var head, rest := a[..n], a[n..];
    assert a + b == head + (rest + b) by {
      assert a == head + rest;
    }
    FirstRunInside(a, b);
    MarkWordsFirstRun(head, rest + b);
  }

  lemma {:induction false} ConcatSplitRun(a: string, b: string)
    requires a != [] && b != [] && RunLength(a) < |a|
    requires !IsWordChar(a[|a| - 1]) || !IsWordChar(b[0])
    ensures MarkWords(a + b) == MarkWords(a) + MarkWords(b)
    decreases |a|, 0
  {
    var n := RunLength(a);
    var rest := a[n..];
    var x, y, z := Mark(a[..n]), MarkWords(rest), MarkWords(b);
    var u, v, w := MarkWords(a + b), MarkWords(rest + b), MarkWords(a);
    assert u == x + v by { PeelInside(a, b, n); }
    assert w == x + y by { MarkWordsStep(a, n); }
    assert v == y + z by {
      assert rest[|rest| - 1] == a[|a| - 1];
      MarkWordsConcat(rest, b);
    }
    Regroup(u, v, w, x, y, z);
  }

  /** `a` is one run, and `b` starts a new one. */
  lemma ConcatWholeRun(a: string, b: string)
    requires a != [] && b != [] && RunLength(a) == |a|
    requires !IsWordChar(a[|a| - 1]) || !IsWordChar(b[0])
    requires IsWordChar(a[0]) || IsWordChar(b[0])
    ensures MarkWords(a + b) == MarkWords(a) + MarkWords(b)
  {
    assert IsWordChar(a[|a| - 1]) == IsWordChar(a[0]);
    FirstRunWhole(a, b);
    MarkWordsFirstRun(a, b);
    MarkWordsOneRun(a);
  }

  /** `a` is one non-word run, and it continues into `b`. */
  lemma ConcatMergedRun(a: string, b: string)
    requires a != [] && b != [] && RunLength(a) == |a|
    requires !IsWordChar(a[0]) && !IsWordChar(b[0])
    ensures MarkWords(a + b) == MarkWords(a) + MarkWords(b)
  {
    MergedFirstRun(a, b);
    NonWordFirstRun(b);
    MarkWordsOneRun(a);
    MarkIdentity(a);
  }

  /** The merged first run of `a + b` is copied, then the reference goes on after `b`'s first run. */
  lemma MergedFirstRun(a: string, b: string)
    requires a != [] && b != [] && RunLength(a) == |a|
    requires !IsWordChar(a[0]) && !IsWordChar(b[0])
    ensures MarkWords(a + b) == a + (b[..RunLength(b)] + MarkWords(b[RunLength(b)..]))
  {
    var m := RunLength(b);
    var bh, bt := b[..m], b[m..];
    assert b == bh + bt;
    assert a + b == (a + bh) + bt;
    FirstRunMerged(a, b);
    MarkWordsFirstRun(a + bh, bt);
    MarkIdentity(a + bh);
    Assoc(a, bh, MarkWords(bt));
  }

  /** A text that starts with a non-word character: its first run is copied. */
  lemma NonWordFirstRun(b: string)
    requires b != [] && !IsWordChar(b[0])
    ensures MarkWords(b) == b[..RunLength(b)] + MarkWords(b[RunLength(b)..])
  {
    var m := RunLength(b);
    MarkWordsStep(b, m);
    MarkIdentity(b[..m]);
  }

  /** `u = x + v`, `v = y + z` and `w = x + y` give `u = w + z`. */
  lemma Regroup(u: string, v: string, w: string, x: string, y: string, z: string)
    requires u == x + v && v == y + z && w == x + y
    ensures u == w + z
  {
    assert x + (y + z) == (x + y) + z;
  }

  lemma Assoc(x: string, y: string, z: string)
    ensures x + (y + z) == (x + y) + z
  {
  }

  /** A whole word between non-word neighbours is rewritten on its own: prefixed when it is an
      operator name, untouched otherwise (so `gtex` or `lint` stay as they are). */
  lemma WordInContext(p: string, w: string, q: string)
    requires w != [] && forall k :: 0 <= k < |w| ==> IsWordChar(w[k])
    requires p == [] || !IsWordChar(p[|p| - 1])
    requires q == [] || !IsWordChar(q[0])
    ensures ReplaceOperators(p + w + q) == ReplaceOperators(p) + Mark(w) + ReplaceOperators(q)
  {
    MarkWordsAround(p, w, q);
    ReplaceIsMarkWords(p + w + q);
    ReplaceIsMarkWords(p);
    ReplaceIsMarkWords(q);
  }

  /** The reference renders a whole word between non-word neighbours as a run of its own. */
  lemma MarkWordsAround(p: string, w: string, q: string)
    requires w != [] && forall k :: 0 <= k < |w| ==> IsWordChar(w[k])
    requires p == [] || !IsWordChar(p[|p| - 1])
    requires q == [] || !IsWordChar(q[0])
    ensures MarkWords(p + w + q) == MarkWords(p) + Mark(w) + MarkWords(q)
  {
    WholeWord(w);
    MarkWordsConcat(p, w);
    MarkWordsConcat(p + w, q);
    SameJoin(MarkWords(p + w + q), MarkWords(p + w), MarkWords(p), MarkWords(w), Mark(w), MarkWords(q));
  }

  /** A word on its own is a single run. */
  lemma WholeWord(w: string)
    requires w != [] && forall k :: 0 <= k < |w| ==> IsWordChar(w[k])
    ensures MarkWords(w) == Mark(w)
  {
    RunLengthIs(w, |w|);
    MarkWordsOneRun(w);
  }

  /** Rewriting the parts of a three-part join. */
  lemma SameJoin(whole: string, front: string, x: string, y: string, y': string, z: string)
    requires whole == front + z && front == x + y && y == y'
    ensures whole == x + y' + z
  {
  }

  /** A text with no word character passes through unchanged. */
  lemma PunctuationUnchanged(p: string)
    requires forall k :: 0 <= k < |p| ==> !IsWordChar(p[k])
    ensures ReplaceOperators(p) == p
  {
    ReplaceIsMarkWords(p);
    if p != [] {
      RunLengthIs(p, |p|);
      MarkWordsOneRun(p);
      MarkIdentity(p);
    }
  }

  /** A run of punctuation. */
  predicate Punctuation(p: string) {
    p != [] && forall k :: 0 <= k < |p| ==> !IsWordChar(p[k])
  }

  /** The reference leaves punctuation as it is. */
  lemma MarkWordsPunctuation(p: string)
    requires Punctuation(p)
    ensures MarkWords(p) == p
  {
    RunLengthIs(p, |p|);
    MarkWordsOneRun(p);
    MarkIdentity(p);
  }

  /** Punctuation on both sides of `x` isolates it from its surroundings. */
  lemma Enclose(p: string, x: string, q: string)
    requires Punctuation(p) && Punctuation(q)
    ensures MarkWords(p + x + q) == p + MarkWords(x) + q
  {
    var mx := MarkWords(x);
    assert MarkWords(p + x) == p + mx by {
      MarkWordsConcat(p, x);
      MarkWordsPunctuation(p);
    }
    assert MarkWords(p + x + q) == p + mx + q by {
      MarkWordsConcat(p + x, q);
      MarkWordsPunctuation(q);
    }
  }

  /** Punctuation between `x` and `y` separates their rewrites. */
  lemma Between(x: string, p: string, y: string)
    requires Punctuation(p)
    ensures MarkWords(x + p + y) == MarkWords(x) + p + MarkWords(y)
  {
    var mx, my := MarkWords(x), MarkWords(y);
    assert MarkWords(p + y) == p + my by {
      MarkWordsConcat(p, y);
      MarkWordsPunctuation(p);
    }
    assert MarkWords(x + (p + y)) == mx + (p + my) by {
      MarkWordsConcat(x, p + y);
    }
    Assoc(x, p, y);
    Assoc(mx, p, my);
  }

  /** The rewrite adds `$` signs and no other character. */
  lemma {:induction false} MarkWordsChars(s: string)
    ensures forall c :: c in MarkWords(s) ==> c in s || c == '$'
    decreases |s|
  {
    if s != [] {
      var n := RunLength(s);
      MarkWordsStep(s, n);
      MarkWordsChars(s[n..]);
      forall c | c in Mark(s[..n]) ensures c in s || c == '$' {
        assert c in s[..n] || c == '$';
      }
      forall c | c in s[n..] ensures c in s {
        var k :| 0 <= k < |s[n..]| && s[n..][k] == c;
        assert s[n + k] == c;
      }
    }
  }
}
