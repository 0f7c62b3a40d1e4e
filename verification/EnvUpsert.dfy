/** Setting a key in a `.env` file is a map update, seen through the reader. */
module EnvUpsert {
  import opened Options
  import opened Text
  import opened PlainText
  import opened EnvFile

  /** A key that a line can carry: one line, no blank ends, no `=`, not a comment. */
  predicate KeyOk(key: string) {
    OneLine(key) && Strip(key) == key && '=' !in key && (key != "" ==> key[0] != '#')
  }

  // ----- one line -----

  lemma StripEntry(key: string, value: string)
    requires KeyOk(key)
    ensures Strip(Entry(key, value)) == Entry(key, RStrip(value))
  {
    StripTwice(key);
    var head := key + "=";
    assert LStrip(head + value) == head + value;
    RStripAppend(head, value);
    if AllSpace(value) {
      AllBlank(value);
      assert head + "" == head;
    }
  }

  /** A line that starts with `key=` is read as that key. */
  lemma EntryParses(key: string, value: string)
    requires KeyOk(key)
    ensures ParseLine(Entry(key, value)) == Some(Binding(key, Unquote(Strip(value))))
  {
    StripEntry(key, value);
    StripOfRStrip(value);
    PartitionAt(key, '=', RStrip(value));
    var line := Entry(key, RStrip(value));
    assert line[|key|] == '=';
  }

  function Bound(line: string): map<string, string> {
    match ParseLine(line)
    case None => map[]
    case Some(b) => map[b.key := b.value]
  }

  /** Reading in two parts: later lines win. */
  lemma {:induction false} ParseAppend(a: seq<string>, b: seq<string>)
    ensures ParseLines(a + b) == ParseLines(a) + ParseLines(b)
    decreases |b|
  {
    if b == [] {
      assert a + b == a;
    } else {
      var n := |b| - 1;
      assert (a + b)[..|a + b| - 1] == a + b[..n];
      ParseAppend(a, b[..n]);
    }
  }

  lemma ParseFirst(lines: seq<string>)
    requires lines != []
    ensures ParseLines(lines) == Bound(lines[0]) + ParseLines(lines[1..])
  {
    assert lines == [lines[0]] + lines[1..];
    ParseAppend([lines[0]], lines[1..]);
    assert [lines[0]][..0] == [];
  }

  lemma ParseCons(line: string, lines: seq<string>)
    ensures ParseLines([line] + lines) == Bound(line) + ParseLines(lines)
  {
    ParseFirst([line] + lines);
    assert ([line] + lines)[1..] == lines;
  }

  // ----- the map that an upsert leaves -----

  /** The lines that do not start with `key=`. */
  function Others(lines: seq<string>, key: string): seq<string> {
    if lines == [] then []
    else (if Sets(lines[0], key) then [] else [lines[0]]) + Others(lines[1..], key)
  }

  /** The lines not starting with `key=` that come after the first one that does. */
  function OthersAfter(lines: seq<string>, key: string): seq<string> {
    if lines == [] then []
    else if Sets(lines[0], key) then Others(lines[1..], key)
    else OthersAfter(lines[1..], key)
  }

  lemma {:induction false} ReplacedSeen(lines: seq<string>, key: string, value: string)
    ensures Replaced(lines, key, value, true) == Others(lines, key)
  {
    if lines != [] {
      ReplacedSeen(lines[1..], key, value);
    }
  }

  lemma SetsParses(line: string, key: string)
    requires KeyOk(key) && Sets(line, key)
    ensures Bound(line).Keys == {key}
  {
    var value := line[|key| + 1..];
    assert line == Entry(key, value);
    EntryParses(key, value);
  }

  lemma OverlaySame<V>(first: map<string, V>, a: map<string, V>, b: map<string, V>, key: string)
    requires a - {key} == b - {key}
    ensures (first + a) - {key} == (first + b) - {key}
  {
    SameElsewhere(a, b, key);
  }

  lemma SameElsewhere<V>(a: map<string, V>, b: map<string, V>, key: string)
    requires a - {key} == b - {key}
    ensures forall k :: k != key ==> (k in a <==> k in b)
    ensures forall k :: k != key && k in a ==> a[k] == b[k]
  {
    forall k | k != key
      ensures k in a <==> k in b
      ensures k in a ==> a[k] == b[k]
    {
      assert k in a <==> k in a - {key};
      assert k in b <==> k in b - {key};
      if k in a {
        assert (a - {key})[k] == (b - {key})[k];
      }
    }
  }

  lemma OverlayKey<V>(first: map<string, V>, a: map<string, V>, key: string)
    requires first.Keys == {key}
    ensures (first + a) - {key} == a - {key}
  {
  }

  lemma OverlayPut<V>(first: map<string, V>, a: map<string, V>, key: string, value: V)
    ensures first + a[key := value] == (first + a)[key := value]
  {
  }

  lemma OverlayOthers<V>(first: map<string, V>, rest: map<string, V>, others: map<string, V>, key: string, value: V)
    requires first.Keys == {key} && others - {key} == rest - {key}
    ensures map[key := value] + others
         == (first + rest)[key := if key in others then others[key] else value]
  {
    SameElsewhere(others, rest, key);
  }

  /** Dropping the lines that start with `key=` loses no other key. */
  lemma {:induction false} OthersParse(lines: seq<string>, key: string)
    requires KeyOk(key)
    ensures ParseLines(Others(lines, key)) - {key} == ParseLines(lines) - {key}
  {
    if lines != [] {
      OthersParse(lines[1..], key);
      ParseFirst(lines);
      OthersFirst(lines, key);
      var a, b := ParseLines(Others(lines[1..], key)), ParseLines(lines[1..]);
      if Sets(lines[0], key) {
        SetsParses(lines[0], key);
        OverlayKey(Bound(lines[0]), b, key);
      } else {
        OverlaySame(Bound(lines[0]), a, b, key);
      }
    }
  }

  lemma OthersFirst(lines: seq<string>, key: string)
    requires lines != []
    ensures ParseLines(Others(lines, key))
         == (if Sets(lines[0], key) then map[] else Bound(lines[0])) + ParseLines(Others(lines[1..], key))
  {
    var rest := Others(lines[1..], key);
    if Sets(lines[0], key) {
      assert Others(lines, key) == rest;
    } else {
      ParseCons(lines[0], rest);
    }
  }

  lemma UpsertedFirst(lines: seq<string>, key: string, value: string)
    requires lines != []
    ensures Sets(lines[0], key) ==> Upserted(lines, key, value) == [Entry(key, value)] + Others(lines[1..], key)
    ensures !Sets(lines[0], key) ==> Upserted(lines, key, value) == [lines[0]] + Upserted(lines[1..], key, value)
  {
    if Sets(lines[0], key) {
      ReplacedSeen(lines[1..], key, value);
    } else {
      assert SetsAny(lines, key) <==> SetsAny(lines[1..], key) by {
        assert forall i :: 1 <= i < |lines| ==> lines[i] == lines[1..][i - 1];
      }
    }
  }

  /** The value that the key is read as after an upsert: the new one, unless a later line hides it. */
  function ReadAfter(lines: seq<string>, key: string, value: string): string {
    var hiding := ParseLines(OthersAfter(lines, key));
    if key in hiding then hiding[key] else Unquote(Strip(value))
  }

  lemma {:induction false} UpsertedParse(lines: seq<string>, key: string, value: string)
    requires KeyOk(key)
    ensures ParseLines(Upserted(lines, key, value)) == ParseLines(lines)[key := ReadAfter(lines, key, value)]
  {
    var entry := Entry(key, value);
    EntryBound(key, value);
    if lines == [] {
      assert Upserted(lines, key, value) == [entry];
      ParseCons(entry, []);
      assert [entry] + [] == [entry];
    } else {
      UpsertedFirst(lines, key, value);
      ParseFirst(lines);
      if Sets(lines[0], key) {
        SetsParses(lines[0], key);
        ParseCons(entry, Others(lines[1..], key));
        OthersParse(lines[1..], key);
        OverlayOthers(Bound(lines[0]), ParseLines(lines[1..]), ParseLines(Others(lines[1..], key)), key,
          Unquote(Strip(value)));
      } else {
        ParseCons(lines[0], Upserted(lines[1..], key, value));
        UpsertedParse(lines[1..], key, value);
        OverlayPut(Bound(lines[0]), ParseLines(lines[1..]), key, ReadAfter(lines, key, value));
      }
    }
  }

  lemma EntryBound(key: string, value: string)
    requires KeyOk(key)
    ensures Bound(Entry(key, value)) == map[key := Unquote(Strip(value))]
  {
    EntryParses(key, value);
  }

  // ----- the file an upsert leaves -----

  lemma {:induction false} TrimKeeps(lines: seq<string>, i: nat)
    requires i < |lines| && !AllSpace(lines[i])
    ensures TrimLines(lines) != []
    decreases |lines|
  {
    if AllSpace(lines[|lines| - 1]) {
      TrimKeeps(lines[..|lines| - 1], i);
    }
  }

  lemma NotBlank(line: string, key: string)
    requires Sets(line, key)
    ensures !AllSpace(line)
  {
    assert line[|key|] == (key + "=")[|key|] == '=';
  }

  /** What is written back splits into the lines without their blank end. */
  lemma WrittenLines(lines: seq<string>, i: nat, key: string)
    requires AllLines(lines) && i < |lines| && Sets(lines[i], key)
    ensures SplitLines(TextOf(lines)) == TrimLines(lines)
  {
    NotBlank(lines[i], key);
    TrimKeeps(lines, i);
    StripJoined(lines);
    TrimmedAreLines(lines);
    SplitJoined(TrimLines(lines));
  }

  lemma {:induction false} ReplacedLines(lines: seq<string>, key: string, value: string, seen: bool)
    requires AllLines(lines) && OneLine(Entry(key, value))
    ensures AllLines(Replaced(lines, key, value, seen))
  {
    if lines != [] {
      ReplacedLines(lines[1..], key, value, seen || Sets(lines[0], key));
    }
  }

  lemma {:induction false} ReplacedSets(lines: seq<string>, key: string, value: string) returns (i: nat)
    requires SetsAny(lines, key)
    ensures i < |Replaced(lines, key, value, false)| && Sets(Replaced(lines, key, value, false)[i], key)
  {
    if Sets(lines[0], key) {
      i := 0;
    } else {
      assert SetsAny(lines[1..], key) by {
        var j :| 0 <= j < |lines| && Sets(lines[j], key);
        assert lines[1..][j - 1] == lines[j];
      }
      i := ReplacedSets(lines[1..], key, value);
      i := i + 1;
    }
  }

  lemma UpsertedSets(lines: seq<string>, key: string, value: string) returns (i: nat)
    ensures i < |Upserted(lines, key, value)| && Sets(Upserted(lines, key, value)[i], key)
  {
    if SetsAny(lines, key) {
      i := ReplacedSets(lines, key, value);
    } else {
      i := |Replaced(lines, key, value, false)|;
      assert Sets(Entry(key, value), key);
    }
  }

  lemma OneLineEntry(key: string, value: string)
    requires OneLine(key) && OneLine(value)
    ensures OneLine(Entry(key, value))
  {
  }

  lemma UpsertedWritten(lines: seq<string>, key: string, value: string)
    requires AllLines(lines) && OneLine(key) && OneLine(value)
    ensures SplitLines(TextOf(Upserted(lines, key, value))) == TrimLines(Upserted(lines, key, value))
  {
    OneLineEntry(key, value);
    ReplacedLines(lines, key, value, false);
    var i := UpsertedSets(lines, key, value);
    WrittenLines(Upserted(lines, key, value), i, key);
  }

  /** The file's lines; a missing file has none. */
  function LinesOf(text: Option<string>): (lines: seq<string>)
    ensures AllLines(lines)
  {
    if text.None? then [] else (LinesAreLines(text.value); SplitLines(text.value))
  }

  /** The text an upsert writes. */
  function After(text: Option<string>, key: string, value: string): string {
    TextOf(Upserted(LinesOf(text), key, value))
  }

  /**
   An upsert is a map update for every file, key and one-line value, exactly when no line that merely parses to
   the key comes after the first `key=` line and binds it to something else.
   */
  lemma UpsertIsUpdate(text: Option<string>, key: string, value: string)
    requires KeyOk(key) && OneLine(value)
    ensures
      var hiding := ParseLines(OthersAfter(LinesOf(text), key));
      var read := Unquote(Strip(value));
      Parse(Some(After(text, key, value))) == Parse(text)[key := read] <==> (key in hiding ==> hiding[key] == read)
  {
    var lines := LinesOf(text);
    AfterParses(text, key, value);
    PutDiffers(Parse(text), key, ReadAfter(lines, key, value), Unquote(Strip(value)));
  }

  lemma AfterParses(text: Option<string>, key: string, value: string)
    requires KeyOk(key) && OneLine(value)
    ensures Parse(Some(After(text, key, value))) == Parse(text)[key := ReadAfter(LinesOf(text), key, value)]
  {
    var lines := LinesOf(text);
    UpsertedWritten(lines, key, value);
    TrimParses(Upserted(lines, key, value));
    UpsertedParse(lines, key, value);
  }

  lemma PutDiffers<V>(m: map<string, V>, key: string, a: V, b: V)
    ensures m[key := a] == m[key := b] <==> a == b
  {
    assert m[key := a][key] == a && m[key := b][key] == b;
  }

  /** Every line that parses to the key starts with `key=`. */
  predicate Tidy(lines: seq<string>, key: string) {
    forall i :: 0 <= i < |lines| ==> key in Bound(lines[i]) ==> Sets(lines[i], key)
  }

  lemma {:induction false} TidyOthers(lines: seq<string>, key: string)
    requires Tidy(lines, key)
    ensures key !in ParseLines(Others(lines, key)) && key !in ParseLines(OthersAfter(lines, key))
  {
    if lines != [] {
      assert Tidy(lines[1..], key);
      TidyOthers(lines[1..], key);
      OthersFirst(lines, key);
      assert key in Bound(lines[0]) ==> Sets(lines[0], key);
    }
  }

  /** In a tidy file, a value is the one binding that changes exactly when it reads as itself. */
  lemma TidyUpsert(text: Option<string>, key: string, value: string)
    requires KeyOk(key) && OneLine(value) && Tidy(LinesOf(text), key)
    ensures Parse(Some(After(text, key, value))) == Parse(text)[key := value] <==> Unquote(Strip(value)) == value
  {
    TidyOthers(LinesOf(text), key);
    AfterParses(text, key, value);
    PutDiffers(Parse(text), key, ReadAfter(LinesOf(text), key, value), value);
  }

  /** An indented binding after the replaced line still wins. */
  lemma IndentedLineHides()
    ensures Parse(Some(After(Some("A=1\n A=3"), "A", "2"))) != Parse(Some("A=1\n A=3"))["A" := "2"]
  {
    var text := Some("A=1\n A=3");
    IndentedLines();
    IndentedBound();
    IndentedReads();
    StripTwo();
    AfterParses(text, "A", "2");
    PutDiffers(Parse(text), "A", ReadAfter(LinesOf(text), "A", "2"), "2");
  }

  lemma StripTwo()
    ensures OneLine("2") && Unquote(Strip("2")) == "2"
  {
  }

  lemma IndentedReads()
    ensures ReadAfter(["A=1", " A=3"], "A", "2") == "3"
  {
    var lines := ["A=1", " A=3"];
    IndentedBound();
    assert OthersAfter(lines, "A") == [" A=3"] by {
      assert Sets(lines[0], "A") && !Sets(lines[1], "A");
      assert lines[1..] == [" A=3"];
      assert Others([" A=3"], "A") == [" A=3"] + Others([], "A");
    }
    ParseFirst([" A=3"]);
  }

  lemma IndentedLines()
    ensures SplitLines("A=1\n A=3") == ["A=1", " A=3"]
  {
    assert "A=1\n A=3" == "A=1" + "\n" + " A=3";
    SplitFirstLine("A=1", " A=3");
    LineAlone(" A=3");
  }

  lemma IndentedBound()
    ensures Bound(" A=3") == map["A" := "3"] && KeyOk("A")
  {
    StripSpaced();
    assert Strip("A") == "A" && Strip("3") == "3";
    EntryParses("A", "3");
    assert Entry("A", "3") == "A=3";
    assert ParseLine(" A=3") == ParseLine("A=3");
  }

  lemma {:induction false} LineAlone(line: string)
    requires OneLine(line) && line != ""
    ensures SplitLines(line) == [line]
  {
    if |line| == 1 {
      assert line == [line[0]] && line[1..] == "";
    } else {
      LineAlone(line[1..]);
      assert line == [line[0]] + line[1..];
    }
  }

  lemma StripSpaced()
    ensures Strip(" A=3") == "A=3" == Strip("A=3")
  {
    assert " A=3"[1..] == "A=3";
  }

  // ----- a second identical upsert -----

  lemma {:induction false} ReplacedAppend(a: seq<string>, b: seq<string>, key: string, value: string, seen: bool)
    ensures Replaced(a + b, key, value, seen)
         == Replaced(a, key, value, seen) + Replaced(b, key, value, seen || SetsAny(a, key))
    ensures |Replaced(a, key, value, seen)| <= |a|
  {
    if a == [] {
      assert a + b == b;
    } else {
      assert (a + b)[1..] == a[1..] + b;
      ReplacedAppend(a[1..], b, key, value, seen || Sets(a[0], key));
      assert SetsAny(a, key) <==> Sets(a[0], key) || SetsAny(a[1..], key) by {
        assert forall i :: 1 <= i < |a| ==> a[i] == a[1..][i - 1];
      }
    }
  }

  predicate NoneSets(lines: seq<string>, key: string) { forall i :: 0 <= i < |lines| ==> !Sets(lines[i], key) }

  predicate AllBlankLines(lines: seq<string>) { forall i :: 0 <= i < |lines| ==> AllSpace(lines[i]) }

  /** The lines before the first one that starts with `key=`. */
  function LinesBefore(lines: seq<string>, key: string): seq<string> {
    if lines == [] || Sets(lines[0], key) then [] else [lines[0]] + LinesBefore(lines[1..], key)
  }

  lemma {:induction false} OthersSetNone(lines: seq<string>, key: string)
    ensures NoneSets(Others(lines, key), key)
  {
    if lines != [] {
      OthersSetNone(lines[1..], key);
    }
  }

  /** An upsert leaves one line for the key, where the first one was or at the end. */
  lemma {:induction false} UpsertedShape(lines: seq<string>, key: string, value: string)
    ensures Upserted(lines, key, value) == LinesBefore(lines, key) + [Entry(key, value)] + OthersAfter(lines, key)
    ensures NoneSets(LinesBefore(lines, key), key) && NoneSets(OthersAfter(lines, key), key)
  {
    if lines != [] {
      UpsertedFirst(lines, key, value);
      if Sets(lines[0], key) {
        OthersSetNone(lines[1..], key);
      } else {
        UpsertedShape(lines[1..], key, value);
      }
    }
  }

  lemma {:induction false} OthersOfNone(lines: seq<string>, key: string)
    requires NoneSets(lines, key)
    ensures Others(lines, key) == lines
  {
    if lines != [] {
      OthersOfNone(lines[1..], key);
    }
  }

  /** Where a file has one line for the key, an upsert replaces that line and no other. */
  lemma {:induction false} UpsertedOne(before: seq<string>, line: string, after: seq<string>, key: string, value: string)
    requires NoneSets(before, key) && Sets(line, key) && NoneSets(after, key)
    ensures SetsAny(before + [line] + after, key)
    ensures Upserted(before + [line] + after, key, value) == before + [Entry(key, value)] + after
  {
    var lines := before + [line] + after;
    assert lines[|before|] == line;
    UpsertedFirst(lines, key, value);
    if before == [] {
      assert lines[0] == line && lines[1..] == after;
      OthersOfNone(after, key);
    } else {
      assert lines[0] == before[0] && lines[1..] == before[1..] + [line] + after;
      UpsertedOne(before[1..], line, after, key, value);
    }
  }

  /** What is trimmed off the end of two groups of lines. */
  lemma {:induction false} TrimAppend(a: seq<string>, b: seq<string>)
    ensures TrimLines(a + b) == if AllBlankLines(b) then TrimLines(a) else a + TrimLines(b)
    decreases |b|
  {
    if b == [] {
      assert a + b == a;
    } else {
      var init, last := b[..|b| - 1], b[|b| - 1];
      assert (a + b)[..|a + b| - 1] == a + init;
      if AllSpace(last) {
        TrimAppend(a, init);
        assert AllBlankLines(b) <==> AllBlankLines(init);
      }
    }
  }

  lemma {:induction false} TrimSetsNone(lines: seq<string>, key: string)
    requires NoneSets(lines, key)
    ensures NoneSets(TrimLines(lines), key)
  {
    if lines != [] {
      var init, last := lines[..|lines| - 1], lines[|lines| - 1];
      if AllSpace(last) {
        TrimSetsNone(init, key);
      } else {
        RStripIsPrefix(last);
      }
    }
  }

  lemma RStripEntry(key: string, value: string)
    ensures RStrip(Entry(key, value)) == Entry(key, RStrip(value)) && Sets(Entry(key, value), key)
    ensures Entry(key, RStrip(value)) == Entry(key, value) <==> RStrip(value) == value
  {
    var head := key + "=";
    RStripAppend(head, value);
    if AllSpace(value) {
      AllBlank(value);
      assert head + "" == head;
    }
    assert Entry(key, value)[|head|..] == value && Entry(key, RStrip(value))[|head|..] == RStrip(value);
  }

  lemma TrimEntry(before: seq<string>, key: string, value: string)
    ensures TrimLines(before + [Entry(key, value)]) == before + [Entry(key, RStrip(value))]
  {
    RStripEntry(key, value);
    NotBlank(Entry(key, value), key);
    TrimAppend(before, [Entry(key, value)]);
  }

  lemma WrittenTwice(lines: seq<string>)
    ensures TextOf(TrimLines(lines)) == TextOf(lines)
  {
    StripJoined(lines);
    RStripTwice(Join(lines, "\n"));
  }

  /** A second upsert over lines of which one sets the key: a line that is not blank follows it, or none does. */
  lemma UpsertedAgain(before: seq<string>, after: seq<string>, key: string, value: string)
    requires NoneSets(before, key) && NoneSets(after, key)
    ensures
      var lines := before + [Entry(key, value)] + after;
      var read := TrimLines(lines);
      && TextOf(Upserted(read, key, value)) == TextOf(lines)
      && (ActionOf(read, key, value) == Unchanged <==> RStrip(value) == value || !AllBlankLines(after))
  {
    var entry := Entry(key, value);
    var lines := before + [entry] + after;
    RStripEntry(key, value);
    RStripEntry(key, RStrip(value));
    TrimAppend(before + [entry], after);
    TrimEntry(before, key, value);
    WrittenTwice(lines);
    if AllBlankLines(after) {
      var read := before + [Entry(key, RStrip(value))];
      UpsertedOne(before, Entry(key, RStrip(value)), [], key, value);
      assert read + [] == read && before + [entry] + [] == before + [entry];
      WrittenTwice(before + [entry]);
      assert (before + [entry])[|before|] == entry && read[|before|] == Entry(key, RStrip(value));
    } else {
      TrimSetsNone(after, key);
      UpsertedOne(before, entry, TrimLines(after), key, value);
    }
  }

  /** Upserting the same value again writes the same text, for every one-line value. It reports no change exactly when
      the value does not end in a blank or a line that is not blank comes after the key's. */
  lemma SecondUpsertIsNoChange(text: Option<string>, key: string, value: string)
    requires OneLine(key) && OneLine(value)
    ensures
      var after := After(text, key, value);
      && After(Some(after), key, value) == after
      && (ActionOf(LinesOf(Some(after)), key, value) == Unchanged
          <==> RStrip(value) == value || !AllBlankLines(OthersAfter(LinesOf(text), key)))
  {
    var lines := LinesOf(text);
    UpsertedWritten(lines, key, value);
    UpsertedShape(lines, key, value);
    UpsertedAgain(LinesBefore(lines, key), OthersAfter(lines, key), key, value);
  }

  /** A value that ends in a blank is stripped at the end of a file, so upserting it again reports a change. */
  lemma TrailingBlankIsAChange(key: string)
    requires OneLine(key)
    ensures
      var after := After(None, key, "x ");
      After(Some(after), key, "x ") == after && ActionOf(LinesOf(Some(after)), key, "x ") != Unchanged
  {
    assert RStrip("x ") == "x" by {
      assert "x "[..1] == "x";
    }
    SecondUpsertIsNoChange(None, key, "x ");
  }
}
