/**
 The `.env` file of a channel: reading it into a map, and setting one key in place.

 A file is the text that opening it in text mode yields, so a carriage return is already a newline.
 It is written back as its lines joined by newlines, with the blank end stripped and one newline after it.
 */
module EnvFile {
  import opened Options
  import opened Text
  import opened PlainText

  // ----- lines -----

  /** Where `str.splitlines` breaks. */
  predicate Break(c: char) {
    c in {'\n', '\U{b}', '\U{c}', '\r', '\U{1c}', '\U{1d}', '\U{1e}', '\U{85}', '\U{2028}', '\U{2029}'}
  }

  predicate OneLine(s: string) { forall i :: 0 <= i < |s| ==> !Break(s[i]) }

  /** `s.splitlines()`. */
  function SplitLines(s: string): (r: seq<string>)
    ensures s != "" ==> r != []
  {
    if s == "" then []
    else
      var rest := SplitLines(s[1..]);
      if Break(s[0]) then [""] + rest
      else if rest == [] then [[s[0]]]
      else [[s[0]] + rest[0]] + rest[1..]
  }

  lemma {:induction false} LinesAreLines(s: string)
    ensures forall i :: 0 <= i < |SplitLines(s)| ==> OneLine(SplitLines(s)[i])
  {
    if s != "" {
      LinesAreLines(s[1..]);
    }
  }

  lemma {:induction false} SplitFirstLine(line: string, rest: string)
    requires OneLine(line)
    ensures SplitLines(line + "\n" + rest) == [line] + SplitLines(rest)
  {
    var s := line + "\n" + rest;
    if line == "" {
      assert s[1..] == rest;
    } else {
      assert s[1..] == line[1..] + "\n" + rest;
      SplitFirstLine(line[1..], rest);
      assert line == [line[0]] + line[1..];
    }
  }

  predicate AllLines(lines: seq<string>) { forall i :: 0 <= i < |lines| ==> OneLine(lines[i]) }

  /** Joined lines, ended by a newline, split into themselves. */
  lemma {:induction false} SplitJoined(lines: seq<string>)
    requires lines != [] && AllLines(lines)
    ensures SplitLines(Join(lines, "\n") + "\n") == lines
  {
    if |lines| == 1 {
      SplitFirstLine(lines[0], "");
      assert lines[0] + "\n" + "" == lines[0] + "\n";
    } else {
      SplitJoined(lines[1..]);
      SplitFirstLine(lines[0], Join(lines[1..], "\n") + "\n");
      assert Join(lines, "\n") + "\n" == lines[0] + "\n" + (Join(lines[1..], "\n") + "\n");
    }
  }

  // ----- reading -----

  function Unquote(v: string): string {
    if |v| >= 2 && v[0] == v[|v| - 1] && v[0] in {'"', '\''} then v[1..|v| - 1] else v
  }

  datatype Binding = Binding(key: string, value: string)

  function ParseLine(raw: string): Option<Binding> {
    var line := Strip(raw);
    if line == "" || line[0] == '#' || '=' !in line then None
    else
      var (key, value) := Partition(line, '=');
      Some(Binding(Strip(key), Unquote(Strip(value))))
  }

  /** A text in quotes of one kind. */
  ghost predicate InQuotes(v: string, inner: string) {
    v == "\"" + inner + "\"" || v == "'" + inner + "'"
  }

  /** One pair of quotes around a value is taken off. */
  lemma UnquoteIs(v: string)
    ensures forall inner :: InQuotes(v, inner) ==> Unquote(v) == inner
    ensures (forall inner :: !InQuotes(v, inner)) ==> Unquote(v) == v
  {
    if |v| >= 2 && v[0] == v[|v| - 1] && v[0] in {'"', '\''} {
      var inner := v[1..|v| - 1];
      assert v == [v[0]] + inner + [v[0]];
      assert InQuotes(v, inner);
    }
    forall inner | InQuotes(v, inner)
      ensures Unquote(v) == inner
    {
      assert v[1..|v| - 1] == inner;
    }
  }

  /** A stripped line that is no comment, cut at its first `=`. */
  predicate BindingLine(line: string, key: string, value: string) {
    '=' !in key && line == key + "=" + value && line[0] != '#'
  }

  lemma {:induction false} CutAt(line: string)
    requires '=' in line
    ensures var (key, value) := Partition(line, '='); '=' !in key && line == key + "=" + value
  {
    if line[0] != '=' {
      CutAt(line[1..]);
      assert line == [line[0]] + line[1..];
    }
  }

  /** A line binds a key to a value exactly when, stripped, it is no comment and has them around its first `=`: both
      stripped, and the value without one pair of quotes. */
  lemma ParseLineIff(raw: string)
    ensures ParseLine(raw).None? <==> forall key, value :: !BindingLine(Strip(raw), key, value)
    ensures forall key, value :: BindingLine(Strip(raw), key, value) ==>
      ParseLine(raw) == Some(Binding(Strip(key), Unquote(Strip(value))))
  {
    var line := Strip(raw);
    forall key, value | BindingLine(line, key, value)
      ensures ParseLine(raw) == Some(Binding(Strip(key), Unquote(Strip(value))))
    {
      assert line[|key|] == '=' && key + ['='] + value == line;
      PartitionAt(key, '=', value);
    }
    if ParseLine(raw).Some? {
      CutAt(line);
      var (key, value) := Partition(line, '=');
      assert BindingLine(line, key, value);
    }
  }

  function ParseLines(lines: seq<string>): map<string, string> {
    if lines == [] then map[]
    else
      var n := |lines| - 1;
      var before, b := ParseLines(lines[..n]), ParseLine(lines[n]);
      if b.None? then before else before[b.value.key := b.value.value]
  }

  /** The file as a map; a missing file is empty. */
  function Parse(text: Option<string>): map<string, string> {
    if text.None? then map[] else ParseLines(SplitLines(text.value))
  }

  // ----- setting one key -----

  function Entry(key: string, value: string): string { key + "=" + value }

  predicate Sets(line: string, key: string) { key + "=" <= line }

  /** The lines with the key's first one replaced and its later ones dropped. */
  function Replaced(lines: seq<string>, key: string, value: string, seen: bool): seq<string> {
    if lines == [] then []
    else if Sets(lines[0], key) then
      (if seen then [] else [Entry(key, value)]) + Replaced(lines[1..], key, value, true)
    else [lines[0]] + Replaced(lines[1..], key, value, seen)
  }

  predicate SetsAny(lines: seq<string>, key: string) {
    exists i :: 0 <= i < |lines| && Sets(lines[i], key)
  }

  function Upserted(lines: seq<string>, key: string, value: string): seq<string> {
    Replaced(lines, key, value, false) + if SetsAny(lines, key) then [] else [Entry(key, value)]
  }

  datatype Action = Added | Changed | Unchanged

  function ActionOf(lines: seq<string>, key: string, value: string): Action {
    if !SetsAny(lines, key) then Added
    else if Upserted(lines, key, value) == lines then Unchanged else Changed
  }

  function TextOf(lines: seq<string>): string { RStrip(Join(lines, "\n")) + "\n" }

  // ----- the text of the new lines -----

  lemma {:induction false} RStripAppend(a: string, b: string)
    ensures RStrip(a + b) == if AllSpace(b) then RStrip(a) else a + RStrip(b)
    decreases |b|
  {
    if b == "" {
      assert a + b == a;
    } else {
      var init := b[..|b| - 1];
      assert (a + b)[..|a + b| - 1] == a + init;
      assert b == init + [b[|b| - 1]];
      if PySpace(b[|b| - 1]) {
        RStripAppend(a, init);
        assert AllSpace(b) <==> AllSpace(init);
      }
    }
  }

  /** What right-stripping the joined text leaves of the lines. */
  function TrimLines(lines: seq<string>): seq<string> {
    if lines == [] then []
    else
      var init, last := lines[..|lines| - 1], lines[|lines| - 1];
      if AllSpace(last) then TrimLines(init) else init + [RStrip(last)]
  }

  lemma StripLastLine(last: string)
    ensures AllSpace("\n" + last) <==> AllSpace(last)
    ensures !AllSpace(last) ==> RStrip("\n" + last) == "\n" + RStrip(last)
  {
    RStripAppend("\n", last);
    if !AllSpace(last) {
      var i :| 0 <= i < |last| && !PySpace(last[i]);
      assert ("\n" + last)[i + 1] == last[i];
    }
  }

  /** Stripping an appended line: gone when blank, otherwise only its own end is stripped. */
  lemma StripSnoc(text: string, last: string)
    ensures RStrip(text + ("\n" + last)) == if AllSpace(last) then RStrip(text) else text + ("\n" + RStrip(last))
  {
    StripLastLine(last);
    RStripAppend(text, "\n" + last);
  }

  lemma {:induction false} StripJoined(lines: seq<string>)
    ensures RStrip(Join(lines, "\n")) == Join(TrimLines(lines), "\n")
    decreases |lines|
  {
    if |lines| == 1 {
      RStripAppend("", lines[0]);
      assert "" + lines[0] == lines[0] && "" + RStrip(lines[0]) == RStrip(lines[0]);
      assert lines[..0] == [];
    } else if lines != [] {
      var init, last := lines[..|lines| - 1], lines[|lines| - 1];
      assert lines == init + [last];
      JoinSnoc(init, last, "\n");
      StripSnoc(Join(init, "\n"), last);
      StripJoined(init);
      JoinSnoc(init, RStrip(last), "\n");
    }
  }

  lemma {:induction false} TrimmedAreLines(lines: seq<string>)
    requires AllLines(lines)
    ensures AllLines(TrimLines(lines))
  {
    if lines != [] {
      TrimmedAreLines(lines[..|lines| - 1]);
      RStripIsPrefix(lines[|lines| - 1]);
    }
  }

  lemma {:induction false} StripBlank(s: string)
    ensures Strip(s) == "" <==> AllSpace(s)
  {
    if s != "" && PySpace(s[0]) {
      StripBlank(s[1..]);
      assert AllSpace(s) <==> AllSpace(s[1..]) by {
        assert forall i :: 1 <= i < |s| ==> s[i] == s[1..][i - 1];
      }
    } else if s != "" {
      RStripAppend([s[0]], s[1..]);
      assert s == [s[0]] + s[1..];
    }
  }

  /** A line parses as it does with its blank end cut off. */
  lemma {:induction false} StripOfRStrip(s: string)
    ensures Strip(RStrip(s)) == Strip(s)
  {
    if s != "" && PySpace(s[0]) {
      RStripAppend([s[0]], s[1..]);
      assert s == [s[0]] + s[1..];
      StripOfRStrip(s[1..]);
      if AllSpace(s[1..]) {
        StripBlank(s[1..]);
        StripBlank(s);
        assert AllSpace(s);
        AllBlank(s);
      } else {
        assert RStrip(s)[1..] == RStrip(s[1..]);
      }
    } else if s != "" {
      RStripAppend([s[0]], s[1..]);
      assert s == [s[0]] + s[1..];
      RStripTwice(s);
    }
  }

  lemma {:induction false} AllBlank(s: string)
    requires AllSpace(s)
    ensures RStrip(s) == ""
  {
    RStripAppend("", s);
    assert "" + s == s;
  }

  lemma RStripTwice(s: string)
    ensures RStrip(RStrip(s)) == RStrip(s)
  {
    RStripIsPrefix(s);
  }

  lemma {:induction false} TrimParses(lines: seq<string>)
    ensures ParseLines(TrimLines(lines)) == ParseLines(lines)
    decreases |lines|
  {
    if lines != [] {
      var init, last := lines[..|lines| - 1], lines[|lines| - 1];
      if AllSpace(last) {
        StripBlank(last);
        TrimParses(init);
      } else {
        StripOfRStrip(last);
        assert (init + [RStrip(last)])[..|init|] == init;
      }
    }
  }
}
