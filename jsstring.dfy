/**
 * The JavaScript string operations the journal's logic relies on:
 * `trim`, `toLowerCase`, `includes`, `split(/\s+/)` followed by
 * `filter(Boolean)`, `join(" ")` and `String(n)` for integers.
 */
module JsString {

  /** A character of the ECMAScript `\s` class: WhiteSpace or LineTerminator.
      `String.prototype.trim` strips exactly these characters. */
  predicate IsSpace(c: char) {
    c == '\t' || c == '\n' || c == '\U{0B}' || c == '\U{0C}' || c == '\r' || c == ' ' ||
    c == '\U{A0}' || c == '\U{1680}' || ('\U{2000}' <= c <= '\U{200A}') ||
    c == '\U{2028}' || c == '\U{2029}' || c == '\U{202F}' || c == '\U{205F}' ||
    c == '\U{3000}' || c == '\U{FEFF}'
  }

  predicate AllSpace(s: string) {
    forall i :: 0 <= i < |s| ==> IsSpace(s[i])
  }

  predicate NoSpace(s: string) {
    forall i :: 0 <= i < |s| ==> !IsSpace(s[i])
  }

  // ---------------------------------------------------------------- trim

  /** Length of the maximal run of white space at the start of `s`. */
  function LeadingSpaces(s: string): (k: nat)
    ensures k <= |s|
    ensures AllSpace(s[..k])
    ensures k < |s| ==> !IsSpace(s[k])
  {
    if s == [] || !IsSpace(s[0]) then 0
    else
      var k := 1 + LeadingSpaces(s[1..]);
      assert s[..k] == [s[0]] + s[1..][..k - 1];
      k
  }

  /** Index just after the last non-white-space character of `s` (0 if none). */
  function TrailingStart(s: string): (k: nat)
    ensures k <= |s|
    ensures AllSpace(s[k..])
    ensures k > 0 ==> !IsSpace(s[k - 1])
  {
    if s == [] || !IsSpace(s[|s| - 1]) then |s|
    else
      var k := TrailingStart(s[..|s| - 1]);
      assert s[k..] == s[..|s| - 1][k..] + [s[|s| - 1]];
      k
  }

  /** `String.prototype.trim`: `s` without its leading and trailing white space. */
  function Trim(s: string): (r: string)
    ensures LeadingSpaces(s) + |r| <= |s|
    ensures r == s[LeadingSpaces(s)..LeadingSpaces(s) + |r|]
    ensures AllSpace(s[LeadingSpaces(s) + |r|..])
    ensures r == [] <==> AllSpace(s)
    ensures r != [] ==> !IsSpace(r[0]) && !IsSpace(r[|r| - 1])
    ensures s == [] || (!IsSpace(s[0]) && !IsSpace(s[|s| - 1])) ==> r == s
  {
    var a := LeadingSpaces(s);
    var t := s[a..];
    var r := t[..TrailingStart(t)];
    assert AllSpace(s) ==> a == |s|;
    assert r == [] ==> s[..a] == s;
    assert s[a + |r|..] == t[TrailingStart(t)..];
    r
  }

  lemma TrimIdempotent(s: string)
    ensures Trim(Trim(s)) == Trim(s)
  {
  }

  // ---------------------------------------------------------------- toLowerCase

  /** Lower-casing of one character: ASCII `A`..`Z` only (see README). */
  function LowerChar(c: char): (d: char)
    ensures 'A' <= c <= 'Z' ==> d as int == c as int + 32
    ensures !('A' <= c <= 'Z') ==> d == c
  {
    if 'A' <= c <= 'Z' then (c as int + 32) as char else c
  }

  /** `String.prototype.toLowerCase`, character by character. */
  function ToLower(s: string): (r: string)
    ensures |r| == |s|
    ensures forall i :: 0 <= i < |s| ==> r[i] == LowerChar(s[i])
  {
    seq(|s|, i requires 0 <= i < |s| => LowerChar(s[i]))
  }

  lemma {:induction false} ToLowerConcat(a: string, b: string)
    ensures ToLower(a + b) == ToLower(a) + ToLower(b)
  {
    assert ToLower(a + b) == ToLower(a) + ToLower(b) by {
      forall i | 0 <= i < |a + b|
        ensures ToLower(a + b)[i] == (ToLower(a) + ToLower(b))[i]
      {
        if i < |a| { assert (a + b)[i] == a[i]; } else { assert (a + b)[i] == b[i - |a|]; }
      }
    }
  }

  // ---------------------------------------------------------------- includes

  predicate OccursAt(s: string, t: string, i: int) {
    0 <= i && i + |t| <= |s| && s[i..i + |t|] == t
  }

  /** `String.prototype.includes`: `t` is a contiguous part of `s`. */
  predicate Includes(s: string, t: string): (b: bool)
    ensures b ==> |t| <= |s|
    ensures t == [] ==> b
  {
    assert OccursAt(s, [], 0);
    exists i :: 0 <= i <= |s| && OccursAt(s, t, i)
  }

  lemma {:induction false} IncludesExtend(a: string, b: string, t: string)
    requires Includes(a, t)
    ensures Includes(a + b, t)
  {
    var i :| 0 <= i <= |a| && OccursAt(a, t, i);
    assert (a + b)[i..i + |t|] == a[i..i + |t|];
    assert OccursAt(a + b, t, i);
  }

  // ---------------------------------------------------------------- split(/\s+/).filter(Boolean)

  /** Index of the first white-space character of `s`, or `|s|`. */
  function FirstSpace(s: string): (i: nat)
    ensures i <= |s|
    ensures NoSpace(s[..i])
    ensures i < |s| ==> IsSpace(s[i])
  {
    if s == [] || IsSpace(s[0]) then 0
    else
      var i := 1 + FirstSpace(s[1..]);
      assert s[..i] == [s[0]] + s[1..][..i - 1];
      i
  }

  /** In a word followed by white space, the first white space is where the
      word ends. */
  lemma {:induction false} FirstSpaceAfterWord(word: string, rest: string)
    requires NoSpace(word) && rest != [] && IsSpace(rest[0])
    ensures FirstSpace(word + rest) == |word|
    decreases |word|
  {
    if word == [] {
      assert word + rest == rest;
    } else {
      assert (word + rest)[0] == word[0];
      assert (word + rest)[1..] == word[1..] + rest;
      FirstSpaceAfterWord(word[1..], rest);
    }
  }

  /** `s.split(/\s+/)`: the pieces between maximal runs of white space, in
      order; a leading or trailing run yields an empty piece at that end. */
  function SplitOnSpaces(s: string): (parts: seq<string>)
    ensures |parts| >= 1
    ensures forall k :: 0 <= k < |parts| ==> NoSpace(parts[k])
    decreases |s|
  {
    var i := FirstSpace(s);
    if i == |s| then
      assert s[..i] == s;
      [s]
    else
      [s[..i]] + SplitOnSpaces(s[AfterFirstRun(s)..])
  }

  /** `filter(Boolean)` on strings: drop the empty ones. */
  function NonEmpty(parts: seq<string>): (r: seq<string>)
    ensures |r| <= |parts|
    ensures forall k :: 0 <= k < |r| ==> r[k] != []
  {
    if parts == [] then []
    else (if parts[0] == [] then [] else [parts[0]]) + NonEmpty(parts[1..])
  }

  /** `s.split(/\s+/).filter(Boolean).length`. */
  function WordCount(s: string): (n: nat)
    ensures n <= |SplitOnSpaces(s)|
    ensures s == [] ==> n == 0
  {
    assert s == [] ==> SplitOnSpaces(s) == [""];
    |NonEmpty(SplitOnSpaces(s))|
  }

  /** Independent reference count: the number of positions where a word
      starts, i.e. a non-space character preceded by a space or the start.
      `afterSpace` says whether the character before `s` was a space. */
  function WordStarts(s: string, afterSpace: bool): nat {
    if s == [] then 0
    else (if afterSpace && !IsSpace(s[0]) then 1 else 0) + WordStarts(s[1..], IsSpace(s[0]))
  }

  /** Whether the last character seen after reading `s` was a space. */
  function EndsAfterSpace(s: string, afterSpace: bool): bool {
    if s == [] then afterSpace else IsSpace(s[|s| - 1])
  }

  lemma {:induction false} WordStartsConcat(a: string, b: string, afterSpace: bool)
    ensures WordStarts(a + b, afterSpace) == WordStarts(a, afterSpace) + WordStarts(b, EndsAfterSpace(a, afterSpace))
    decreases |a|
  {
    if a == [] {
      assert a + b == b;
    } else {
      assert (a + b)[1..] == a[1..] + b;
      WordStartsConcat(a[1..], b, IsSpace(a[0]));
      assert EndsAfterSpace(a[1..], IsSpace(a[0])) == EndsAfterSpace(a, afterSpace);
    }
  }

  lemma {:induction false} WordStartsNoSpace(s: string, afterSpace: bool)
    requires NoSpace(s)
    ensures WordStarts(s, afterSpace) == if s != [] && afterSpace then 1 else 0
    decreases |s|
  {
    if s != [] {
      WordStartsNoSpace(s[1..], false);
    }
  }

  lemma {:induction false} WordStartsAllSpace(s: string, afterSpace: bool)
    requires AllSpace(s)
    ensures WordStarts(s, afterSpace) == 0
    decreases |s|
  {
    if s != [] {
      WordStartsAllSpace(s[1..], true);
    }
  }

  lemma {:induction false} NonEmptyConcat(p: seq<string>, q: seq<string>)
    ensures NonEmpty(p + q) == NonEmpty(p) + NonEmpty(q)
    decreases |p|
  {
    if p == [] {
      assert p + q == q;
    } else {
      var head := if p[0] == [] then [] else [p[0]];
      assert (p + q)[0] == p[0];
      assert (p + q)[1..] == p[1..] + q;
      assert NonEmpty(p + q) == head + NonEmpty(p[1..] + q);
      NonEmptyConcat(p[1..], q);
      assert NonEmpty(p) == head + NonEmpty(p[1..]);
    }
  }

  /** `filter(Boolean)` keeps exactly the non-empty pieces (and, by
      `NonEmptyConcat`, in their order): nothing when every piece is empty,
      everything when none is. */
  lemma {:induction false} NonEmptyKeepsWords(parts: seq<string>)
    ensures forall x :: x in NonEmpty(parts) <==> x in parts && x != []
    ensures (forall k :: 0 <= k < |parts| ==> parts[k] != []) ==> NonEmpty(parts) == parts
    decreases |parts|
  {
    if parts != [] {
      NonEmptyKeepsWords(parts[1..]);
      assert parts == [parts[0]] + parts[1..];
    }
  }

  /** Position just past the first run of white space in `s`. */
  function AfterFirstRun(s: string): (j: nat)
    requires FirstSpace(s) < |s|
    ensures FirstSpace(s) < j <= |s|
  {
    FirstSpace(s) + LeadingSpaces(s[FirstSpace(s)..])
  }

  /** A word, then a run of white space: one word start, then a fresh start. */
  lemma {:induction false} WordStartsWordThenSpace(word: string, sp: string, rest: string)
    requires NoSpace(word) && AllSpace(sp) && sp != []
    ensures WordStarts(word + (sp + rest), true) == (if word != [] then 1 else 0) + WordStarts(rest, true)
  {
    var e := EndsAfterSpace(word, true);
    WordStartsConcat(word, sp + rest, true);
    WordStartsNoSpace(word, true);
    WordStartsConcat(sp, rest, e);
    WordStartsAllSpace(sp, e);
    assert EndsAfterSpace(sp, e);
  }

  lemma {:induction false} WordStartsStep(s: string)
    requires FirstSpace(s) < |s|
    ensures WordStarts(s, true) == (if FirstSpace(s) > 0 then 1 else 0) + WordStarts(s[AfterFirstRun(s)..], true)
  {
    var i := FirstSpace(s);
    var word, tail := s[..i], s[i..];
    var k := LeadingSpaces(tail);
    var sp, rest := tail[..k], tail[k..];
    assert rest == s[AfterFirstRun(s)..];
    assert s == word + (sp + rest) by {
      assert sp + rest == tail;
    }
    WordStartsWordThenSpace(word, sp, rest);
  }

  lemma {:induction false} WordCountStep(s: string)
    requires FirstSpace(s) < |s|
    ensures WordCount(s) == (if FirstSpace(s) > 0 then 1 else 0) + WordCount(s[AfterFirstRun(s)..])
  {
    var i, rest := FirstSpace(s), s[AfterFirstRun(s)..];
    assert SplitOnSpaces(s) == [s[..i]] + SplitOnSpaces(rest);
    NonEmptyConcat([s[..i]], SplitOnSpaces(rest));
    assert |NonEmpty([s[..i]])| == if i > 0 then 1 else 0;
  }

  /** The word count of the source (split, then filter) agrees with the
      count of word starts. */
  lemma {:induction false} WordCountIsWordStarts(s: string)
    ensures WordCount(s) == WordStarts(s, true)
    decreases |s|
  {
    if FirstSpace(s) == |s| {
      assert s[..|s|] == s;
      assert SplitOnSpaces(s) == [s];
      WordStartsNoSpace(s, true);
    } else {
      WordStartsStep(s);
      WordCountStep(s);
      WordCountIsWordStarts(s[AfterFirstRun(s)..]);
    }
  }

  lemma {:induction false} NoWordStartsIffAllSpace(s: string)
    ensures WordStarts(s, true) == 0 <==> AllSpace(s)
    decreases |s|
  {
    if s != [] && IsSpace(s[0]) {
      NoWordStartsIffAllSpace(s[1..]);
      assert AllSpace(s) <==> AllSpace(s[1..]) by {
        if AllSpace(s[1..]) {
          forall i | 0 <= i < |s| ensures IsSpace(s[i]) {
            if i > 0 { assert s[i] == s[1..][i - 1]; }
          }
        }
      }
    }
  }

  /** A text has no words exactly when it is all white space, which is
      exactly when it trims to nothing. */
  lemma NoWordsIffAllSpace(s: string)
    ensures WordCount(s) == 0 <==> AllSpace(s)
    ensures WordCount(s) == 0 <==> Trim(s) == []
  {
    WordCountIsWordStarts(s);
    NoWordStartsIffAllSpace(s);
  }

  /** Joining two texts with one space adds their word counts. */
  lemma {:induction false} WordCountJoin2(a: string, b: string)
    ensures WordCount(a + " " + b) == WordCount(a) + WordCount(b)
  {
    var sb := " " + b;
    assert a + " " + b == a + sb;
    assert sb[1..] == b;
    assert WordStarts(sb, EndsAfterSpace(a, true)) == WordStarts(b, true);
    WordStartsConcat(a, sb, true);
    WordCountIsWordStarts(a + sb);
    WordCountIsWordStarts(a);
    WordCountIsWordStarts(b);
  }

  // ---------------------------------------------------------------- join(" ")

  /** `parts.join(" ")`. */
  function Join(parts: seq<string>): (r: string)
    ensures parts == [] ==> r == []
    ensures |parts| == 1 ==> r == parts[0]
  {
    if |parts| == 0 then ""
    else if |parts| == 1 then parts[0]
    else Join(parts[..|parts| - 1]) + " " + parts[|parts| - 1]
  }

  lemma JoinAppend(parts: seq<string>, t: string)
    requires parts != []
    ensures Join(parts + [t]) == Join(parts) + " " + t
  {
    assert (parts + [t])[..|parts|] == parts;
  }

  function SumWordCounts(parts: seq<string>): nat {
    if parts == [] then 0 else SumWordCounts(parts[..|parts| - 1]) + WordCount(parts[|parts| - 1])
  }

  /** The words of the joined text are the words of its parts. */
  lemma {:induction false} WordCountJoin(parts: seq<string>)
    ensures WordCount(Join(parts)) == SumWordCounts(parts)
    decreases |parts|
  {
    if |parts| == 0 {
      assert SplitOnSpaces("") == [""];
    } else if |parts| == 1 {
      assert parts[..0] == [];
    } else {
      WordCountJoin(parts[..|parts| - 1]);
      WordCountJoin2(Join(parts[..|parts| - 1]), parts[|parts| - 1]);
    }
  }

  // ---------------------------------------------------------------- String(n)

  function DigitChar(d: nat): (c: char)
    requires d < 10
    ensures '0' <= c <= '9'
    ensures c as int - '0' as int == d
  {
    ('0' as int + d) as char
  }

  /** Reference reading of a string of decimal digits, most significant
      first (non-digits are not expected). */
  function DigitsValue(ds: string): int
    decreases |ds|
  {
    if ds == [] then 0
    else DigitsValue(ds[..|ds| - 1]) * 10 + (ds[|ds| - 1] as int - '0' as int)
  }

  /** Decimal digits of a natural number, most significant first. */
  function NatToString(n: nat): (r: string)
    ensures r != []
    ensures forall i :: 0 <= i < |r| ==> '0' <= r[i] <= '9'
    ensures DigitsValue(r) == n
    decreases n
  {
    if n < 10 then
      var r := [DigitChar(n)];
      assert r[..0] == [];
      r
    else
      var r := NatToString(n / 10) + [DigitChar(n % 10)];
      assert r[..|r| - 1] == NatToString(n / 10);
      r
  }

  /** Reference reading of `String(i)`: an optional minus sign, then digits. */
  function ParseInt(s: string): int {
    if s != [] && s[0] == '-' then -DigitsValue(s[1..]) else DigitsValue(s)
  }

  /** `String(i)` for an integer. */
  function IntToString(i: int): (r: string)
    ensures r != []
    ensures (r[0] == '-') <==> i < 0
    ensures NoSpace(r)
    ensures ParseInt(r) == i
  {
    if i < 0 then
      var r := "-" + NatToString(-i);
      assert r[1..] == NatToString(-i);
      r
    else NatToString(i)
  }

  /** Different integers are spoken differently. */
  lemma IntToStringInjective(i: int, j: int)
    requires IntToString(i) == IntToString(j)
    ensures i == j
  {
    assert ParseInt(IntToString(i)) == ParseInt(IntToString(j));
  }
}
