/**
 String operations of the Python standard library that the modelled code relies on.

 Replacing, splitting and partitioning work on one-character patterns, or on two for the escapes of JSON Pointers.
 Stripping takes off what Python counts as blank. Decimal numbers are written without a leading zero, so that two
 texts of the index form name the same number only when they are equal.
 */
module Text {

  /** `s.replace(c, r)` for a one-character pattern. */
  function ReplaceChar(s: string, c: char, r: string): string {
    if s == "" then "" else (if s[0] == c then r else [s[0]]) + ReplaceChar(s[1..], c, r)
  }

  /** `s.replace(ab, r)` for a two-character pattern: left to right, without overlap. */
  function ReplacePair(s: string, a: char, b: char, r: string): string {
    if |s| < 2 then s
    else if s[0] == a && s[1] == b then r + ReplacePair(s[2..], a, b, r)
    else [s[0]] + ReplacePair(s[1..], a, b, r)
  }

  /** `s.split(sep)` for a one-character separator: never empty. */
  function Split(s: string, sep: char): (parts: seq<string>)
    ensures |parts| > 0
  {
    if s == "" then [""]
    else
      var rest := Split(s[1..], sep);
      if s[0] == sep then [""] + rest else [[s[0]] + rest[0]] + rest[1..]
  }

  /** `s.partition(sep)`, the separator left out: what is before its first occurrence, and after. */
  function Partition(s: string, sep: char): (string, string) {
    if s == "" then ("", "")
    else if s[0] == sep then ("", s[1..])
    else
      var (before, after) := Partition(s[1..], sep);
      ([s[0]] + before, after)
  }

  /** A string without `sep` splits into itself. */
  lemma {:induction false} SplitWhole(s: string, sep: char)
    requires sep !in s
    ensures Split(s, sep) == [s]
  {
    if s != "" {
      SplitWhole(s[1..], sep);
      assert s == [s[0]] + s[1..];
    }
  }

  /** The part before the first separator is the first part. */
  lemma {:induction false} SplitHead(a: string, sep: char, rest: string)
    requires sep !in a
    ensures Split(a + [sep] + rest, sep) == [a] + Split(rest, sep)
  {
    var s := a + [sep] + rest;
    if a == "" {
      assert s[1..] == rest;
    } else {
      SplitHead(a[1..], sep, rest);
      assert s[1..] == a[1..] + [sep] + rest;
      assert a == [a[0]] + a[1..];
    }
  }

  /** A text is cut at its first separator. */
  lemma {:induction false} PartitionAt(a: string, sep: char, b: string)
    requires sep !in a
    ensures Partition(a + [sep] + b, sep) == (a, b)
  {
    var s := a + [sep] + b;
    if a == "" {
      assert s[1..] == b;
    } else {
      assert s[1..] == a[1..] + [sep] + b;
      PartitionAt(a[1..], sep, b);
      assert s[0] == a[0];
      assert [a[0]] + a[1..] == a;
    }
  }

  /** The longest start of a text without a newline. */
  predicate LineStart(text: string, line: string) {
    && line <= text && '\n' !in line
    && (|line| < |text| ==> text[|line|] == '\n')
  }

  lemma {:induction false} PartitionStarts(text: string)
    ensures LineStart(text, Partition(text, '\n').0)
  {
    if text != "" && text[0] != '\n' {
      PartitionStarts(text[1..]);
      assert text == [text[0]] + text[1..];
    }
  }

  // ----- blanks -----

  /** `str.isspace` for one character. */
  predicate PySpace(c: char) {
    || '\t' <= c <= '\r'
    || '\U{1c}' <= c <= ' '
    || c in {'\U{85}', '\U{a0}', '\U{1680}', '\U{2028}', '\U{2029}', '\U{202f}', '\U{205f}', '\U{3000}'}
    || '\U{2000}' <= c <= '\U{200a}'
  }

  function LStrip(s: string): string {
    if s != "" && PySpace(s[0]) then LStrip(s[1..]) else s
  }

  function RStrip(s: string): string {
    if s != "" && PySpace(s[|s| - 1]) then RStrip(s[..|s| - 1]) else s
  }

  function Strip(s: string): string { RStrip(LStrip(s)) }

  /** `s.split()`: the maximal runs of non-blank characters. */
  function Words(s: string): seq<string> {
    if s == "" then []
    else if PySpace(s[0]) then Words(s[1..])
    else if |s| == 1 || PySpace(s[1]) then [[s[0]]] + Words(s[1..])
    else
      var rest := Words(s[1..]);
      if rest == [] then [[s[0]]] else [[s[0]] + rest[0]] + rest[1..]
  }

  /** `s.strip(c)` for one character. */
  function Trim(s: string, c: char): string {
    if s == "" then "" else if s[0] == c then Trim(s[1..], c) else TrimEnd(s, c)
  }

  /** `s.rstrip(c)` for one character. */
  function TrimEnd(s: string, c: char): string {
    if s != "" && s[|s| - 1] == c then TrimEnd(s[..|s| - 1], c) else s
  }

  /** `s.lower()` on ASCII letters. */
  function Lower(s: string): string {
    if s == "" then ""
    else [if 'A' <= s[0] <= 'Z' then ((s[0] as int) + 32) as char else s[0]] + Lower(s[1..])
  }

  lemma {:induction false} LowerStays(s: string)
    requires forall i :: 0 <= i < |s| ==> !('A' <= s[i] <= 'Z')
    ensures Lower(s) == s
  {
    if s != "" {
      LowerStays(s[1..]);
      assert s == [s[0]] + s[1..];
    }
  }

  predicate NoBlank(s: string) { forall i :: 0 <= i < |s| ==> !PySpace(s[i]) }

  lemma {:induction false} WordAlone(s: string)
    requires s != "" && NoBlank(s)
    ensures Words(s) == [s]
  {
    if |s| == 1 {
      assert s == [s[0]] && s[1..] == "";
    } else {
      WordAlone(s[1..]);
      assert s == [s[0]] + s[1..];
    }
  }

  /** The text before the first space is the first word. */
  lemma {:induction false} WordsHead(a: string, rest: string)
    requires a != "" && NoBlank(a)
    ensures Words(a + " " + rest) == [a] + Words(rest)
  {
    var s := a + " " + rest;
    assert (" " + rest)[1..] == rest;
    if |a| == 1 {
      assert s[1..] == " " + rest && a == [s[0]];
    } else {
      assert s[1..] == a[1..] + " " + rest && s[1] == a[1];
      WordsHead(a[1..], rest);
      assert a == [a[0]] + a[1..];
    }
  }

  lemma {:induction false} RStripIsPrefix(s: string)
    ensures RStrip(s) <= s
    ensures RStrip(s) != "" ==> !PySpace(RStrip(s)[|RStrip(s)| - 1])
  {
    if s != "" && PySpace(s[|s| - 1]) {
      RStripIsPrefix(s[..|s| - 1]);
    }
  }

  lemma {:induction false} LStripEnds(s: string)
    ensures LStrip(s) != "" ==> !PySpace(LStrip(s)[0])
  {
    if s != "" && PySpace(s[0]) {
      LStripEnds(s[1..]);
    }
  }

  /** A stripped text has no blank at either end, so stripping it again changes nothing. */
  lemma StripTwice(s: string)
    ensures Strip(Strip(s)) == Strip(s)
    ensures Strip(s) != "" ==> !PySpace(Strip(s)[0]) && !PySpace(Strip(s)[|Strip(s)| - 1])
  {
    LStripEnds(s);
    RStripIsPrefix(LStrip(s));
    assert Strip(s) != "" ==> Strip(s)[0] == LStrip(s)[0];
  }

  predicate AllSpace(s: string) { forall i :: 0 <= i < |s| ==> PySpace(s[i]) }

  lemma {:induction false} LStripIs(s: string) returns (before: string)
    ensures AllSpace(before) && s == before + LStrip(s)
  {
    before := "";
    if s != "" && PySpace(s[0]) {
      var more := LStripIs(s[1..]);
      before := [s[0]] + more;
      assert s == [s[0]] + s[1..];
    }
  }

  lemma {:induction false} RStripIs(s: string) returns (after: string)
    ensures AllSpace(after) && s == RStrip(s) + after
  {
    after := "";
    if s != "" && PySpace(s[|s| - 1]) {
      var n := |s| - 1;
      var more := RStripIs(s[..n]);
      after := more + [s[n]];
      assert s == s[..n] + [s[n]];
    }
  }

  /** Stripping takes off the blanks at both ends and nothing else. */
  lemma StripIs(s: string) returns (before: string, after: string)
    ensures AllSpace(before) && AllSpace(after) && s == before + Strip(s) + after
    ensures Strip(s) != "" ==> !PySpace(Strip(s)[0]) && !PySpace(Strip(s)[|Strip(s)| - 1])
  {
    before := LStripIs(s);
    after := RStripIs(LStrip(s));
    StripTwice(s);
  }

  // ----- upper and lower case, of ASCII letters -----

  /** `s.upper()` on ASCII letters. */
  function Upper(s: string): string {
    if s == "" then "" else [if 'a' <= s[0] <= 'z' then ((s[0] as int) - 32) as char else s[0]] + Upper(s[1..])
  }

  /** One letter in either case. */
  predicate SameLetter(a: char, b: char) {
    || a == b
    || ('a' <= a <= 'z' && b as int == a as int - 32)
    || ('a' <= b <= 'z' && a as int == b as int - 32)
  }

  predicate SameUpToCase(a: string, b: string) {
    |a| == |b| && forall i :: 0 <= i < |a| ==> SameLetter(a[i], b[i])
  }

  lemma {:induction false} UpperIsCaseless(a: string, b: string)
    ensures Upper(a) == Upper(b) <==> SameUpToCase(a, b)
  {
    if a != "" && b != "" {
      UpperIsCaseless(a[1..], b[1..]);
      assert SameUpToCase(a, b) <==> SameLetter(a[0], b[0]) && SameUpToCase(a[1..], b[1..]) by {
        assert forall i :: 1 <= i < |a| ==> a[i] == a[1..][i - 1];
        assert forall i :: 1 <= i < |b| ==> b[i] == b[1..][i - 1];
      }
      UpperFirst(a, b);
    } else {
      UpperLength(a);
      UpperLength(b);
    }
  }

  lemma {:induction false} UpperLength(s: string)
    ensures |Upper(s)| == |s|
  {
    if s != "" {
      UpperLength(s[1..]);
    }
  }

  lemma UpperFirst(a: string, b: string)
    requires a != "" && b != ""
    ensures Upper(a) == Upper(b) <==> SameLetter(a[0], b[0]) && Upper(a[1..]) == Upper(b[1..])
  {
    var u, w := Upper(a), Upper(b);
    assert u == [u[0]] + Upper(a[1..]) && w == [w[0]] + Upper(b[1..]);
    assert u[1..] == Upper(a[1..]) && w[1..] == Upper(b[1..]);
  }

  lemma {:induction false} LowerIsCaseless(a: string, b: string)
    ensures Lower(a) == Lower(b) <==> SameUpToCase(a, b)
  {
    if a != "" && b != "" {
      LowerIsCaseless(a[1..], b[1..]);
      assert SameUpToCase(a, b) <==> SameLetter(a[0], b[0]) && SameUpToCase(a[1..], b[1..]) by {
        assert forall i :: 1 <= i < |a| ==> a[i] == a[1..][i - 1];
        assert forall i :: 1 <= i < |b| ==> b[i] == b[1..][i - 1];
      }
      LowerFirst(a, b);
    } else {
      LowerLength(a);
      LowerLength(b);
    }
  }

  lemma LowerFirst(a: string, b: string)
    requires a != "" && b != ""
    ensures Lower(a) == Lower(b) <==> SameLetter(a[0], b[0]) && Lower(a[1..]) == Lower(b[1..])
  {
    var u, w := Lower(a), Lower(b);
    assert u == [u[0]] + Lower(a[1..]) && w == [w[0]] + Lower(b[1..]);
    assert u[1..] == Lower(a[1..]) && w[1..] == Lower(b[1..]);
  }

  lemma {:induction false} LowerLength(s: string)
    ensures |Lower(s)| == |s|
  {
    if s != "" {
      LowerLength(s[1..]);
    }
  }

  // ----- decimal numbers -----

  predicate IsDigit(c: char) { '0' <= c <= '9' }

  predicate AllDigits(s: string) { forall i :: 0 <= i < |s| ==> IsDigit(s[i]) }

  function DigitChar(d: nat): char
    requires d < 10
  {
    '0' + d as char
  }

  function DigitValue(c: char): nat
    requires IsDigit(c)
  {
    (c - '0') as nat
  }

  /** `int(s)` for a string of ASCII digits. */
  function NatOf(s: string): nat
    requires AllDigits(s)
  {
    if s == "" then 0 else 10 * NatOf(s[..|s| - 1]) + DigitValue(s[|s| - 1])
  }

  /** `str(n)`. */
  function NatText(n: nat): (s: string)
    ensures s != "" && AllDigits(s)
  {
    if n < 10 then [DigitChar(n)] else NatText(n / 10) + [DigitChar(n % 10)]
  }

  /** Decimal digits as an index writes them, `0|[1-9]\d*`: no leading zero. */
  predicate IsIndex(s: string) {
    s != "" && AllDigits(s) && (s == "0" || s[0] != '0')
  }

  /** `str(n)` of an integer. */
  function IntText(n: int): string {
    if n < 0 then "-" + NatText(-n) else NatText(n)
  }

  lemma IntTextInjective(a: int, b: int)
    requires IntText(a) == IntText(b)
    ensures a == b
  {
    var x, y := if a < 0 then -a else a, if b < 0 then -b else b;
    NatTextReadsBack(x);
    NatTextReadsBack(y);
    assert IsDigit(NatText(x)[0]) && IsDigit(NatText(y)[0]);
    if a < 0 && b < 0 {
      assert NatText(x) == IntText(a)[1..] == IntText(b)[1..] == NatText(y);
    }
  }

  lemma {:induction false} NatTextReadsBack(n: nat)
    ensures IsIndex(NatText(n)) && NatOf(NatText(n)) == n
    ensures n > 0 ==> NatText(n)[0] != '0'
  {
    if n < 10 {
      var s := NatText(n);
      assert s[..|s| - 1] == "";
    } else {
      NatTextReadsBack(n / 10);
      var s := NatText(n);
      assert s[..|s| - 1] == NatText(n / 10);
    }
  }

  lemma {:induction false} LongIndexIsLarge(s: string)
    requires IsIndex(s) && |s| > 1
    ensures NatOf(s) >= 10
  {
    var p := s[..|s| - 1];
    if |p| == 1 {
      assert p[..0] == "";
      assert p[0] != '0';
    } else {
      LongIndexIsLarge(p);
    }
  }

  /** An index is written one way only, so two index tokens name the same element iff they are equal. */
  lemma {:induction false} IndexInjective(a: string, b: string)
    requires IsIndex(a) && IsIndex(b) && NatOf(a) == NatOf(b)
    ensures a == b
    decreases |a|
  {
    var pa, pb := a[..|a| - 1], b[..|b| - 1];
    if |a| == 1 && |b| == 1 {
      assert pa == "" == pb;
    } else if |a| == 1 {
      assert pa == "";
      LongIndexIsLarge(b);
    } else if |b| == 1 {
      assert pb == "";
      LongIndexIsLarge(a);
    } else {
      assert NatOf(pa) == NatOf(a) / 10 && NatOf(pb) == NatOf(b) / 10;
      IndexInjective(pa, pb);
      assert a == pa + [a[|a| - 1]] && b == pb + [b[|b| - 1]];
    }
  }
}
