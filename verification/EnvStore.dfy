/** The `.env` file as it is read and rewritten, and the comma-separated lists kept in it. */
module EnvStore {
  import opened Options
  import opened Text
  import opened PlainText
  import opened EnvFile
  import opened EnvUpsert

  // ----- lists -----

  /** The parts, stripped, without the empty ones. */
  function Kept(parts: seq<string>): seq<string> {
    if parts == [] then []
    else (if Strip(parts[0]) == "" then [] else [Strip(parts[0])]) + Kept(parts[1..])
  }

  function Items(value: string): seq<string> { Kept(Split(value, ',')) }

  /** The list that a file holds under a key. */
  function Listed(text: Option<string>, key: string): seq<string> {
    var all := Parse(text);
    Items(if key in all then all[key] else "")
  }

  /** An item that a list can carry. */
  predicate ItemOk(item: string) {
    item != "" && Strip(item) == item && ',' !in item && OneLine(item)
  }

  predicate AllItems(items: seq<string>) { forall i :: 0 <= i < |items| ==> ItemOk(items[i]) }

  // ----- the file -----

  class ChannelEnv {
    /** The file's text, or nothing when there is no file. */
    var text: Option<string>

    method ReadMap() returns (out: map<string, string>)
      ensures out == Parse(text)
    {
      out := map[];
      if text.None? {
        return;
      }
      var lines := SplitLines(text.value);
      for i := 0 to |lines|
        invariant out == ParseLines(lines[..i])
      {
        assert lines[..i + 1][..i] == lines[..i];
        var binding := ParseLine(lines[i]);
        if binding.Some? {
          out := out[binding.value.key := binding.value.value];
        }
      }
      assert lines[..|lines|] == lines;
    }

    method Upsert(key: string, value: string) returns (action: Action)
      modifies this
      ensures action == ActionOf(LinesOf(old(text)), key, value)
      ensures text == Some(After(old(text), key, value))
    {
      var lines := if text.Some? then SplitLines(text.value) else [];
      var written: seq<string>, seen, changed := [], false, false;
      for i := 0 to |lines|
        invariant text == old(text)
        invariant Swept(lines[..i], key, value, written, seen, changed)
      {
        SweepStep(lines, i, key, value, written, seen, changed);
        if Sets(lines[i], key) {
          if !seen {
            written := written + [Entry(key, value)];
            changed := changed || lines[i] != Entry(key, value);
            seen := true;
          } else {
            changed := true;
          }
          continue;
        }
        written := written + [lines[i]];
      }
      assert lines[..|lines|] == lines;
      assert written + [] == written;
      if !seen {
        written := written + [Entry(key, value)];
        action := Added;
      } else {
        action := if changed then Changed else Unchanged;
      }
      text := Some(TextOf(written));
    }

    method EnsureList(key: string, item: string) returns (action: Action)
      modifies this
      ensures item in Listed(old(text), key) ==> action == Unchanged && text == old(text)
      ensures item !in Listed(old(text), key) ==>
        var value := Join(Listed(old(text), key) + [item], ",");
        text == Some(After(old(text), key, value)) && action == ActionOf(LinesOf(old(text)), key, value)
    {
      var all := ReadMap();
      var items := Items(if key in all then all[key] else "");
      if item in items {
        return Unchanged;
      }
      items := items + [item];
      action := Upsert(key, Join(items, ","));
    }
  }

  /** What the loop over the lines knows after some of them. */
  predicate Swept(lines: seq<string>, key: string, value: string, written: seq<string>, seen: bool, changed: bool) {
    && written == Replaced(lines, key, value, false)
    && seen == SetsAny(lines, key)
    && |written| <= |lines|
    && changed == (written != lines)
  }

  lemma SweepStep(lines: seq<string>, i: nat, key: string, value: string, written: seq<string>, seen: bool,
      changed: bool)
    requires i < |lines| && Swept(lines[..i], key, value, written, seen, changed)
    ensures
      var more, line, entry := lines[..i + 1], lines[i], Entry(key, value);
      if !Sets(line, key) then Swept(more, key, value, written + [line], seen, changed)
      else if seen then Swept(more, key, value, written, seen, true)
      else Swept(more, key, value, written + [entry], true, changed || line != entry)
  {
    ReplacedSnoc(lines, i, key, value);
    SnocDiffers(written, lines[..i], lines[i], lines[i]);
    SnocDiffers(written, lines[..i], Entry(key, value), lines[i]);
    assert written + [] == written;
  }

  lemma SnocDiffers(a: seq<string>, b: seq<string>, x: string, y: string)
    ensures a + [x] != b + [y] <==> a != b || x != y
  {
    if a + [x] == b + [y] {
      assert a == (a + [x])[..|a|] && b == (b + [y])[..|b|];
      assert x == (a + [x])[|a|] && y == (b + [y])[|b|];
    }
  }

  lemma ReplacedSnoc(lines: seq<string>, i: nat, key: string, value: string)
    requires i < |lines|
    ensures Replaced(lines[..i + 1], key, value, false)
         == Replaced(lines[..i], key, value, false) +
            if !Sets(lines[i], key) then [lines[i]]
            else if SetsAny(lines[..i], key) then [] else [Entry(key, value)]
    ensures SetsAny(lines[..i + 1], key) <==> SetsAny(lines[..i], key) || Sets(lines[i], key)
    ensures lines[..i + 1] == lines[..i] + [lines[i]]
  {
    assert lines[..i + 1] == lines[..i] + [lines[i]];
    ReplacedAppend(lines[..i], [lines[i]], key, value, false);
    var last := [lines[i]];
    assert last[1..] == [];
    var l := lines[..i + 1];
    assert Sets(lines[i], key) ==> Sets(l[i], key);
    assert forall j :: 0 <= j < i ==> l[j] == lines[..i][j];
  }

  // ----- lists read back -----

  lemma {:induction false} KeptAsIs(items: seq<string>)
    requires AllItems(items)
    ensures Kept(items) == items
  {
    if items != [] {
      KeptAsIs(items[1..]);
    }
  }

  lemma ItemsOfJoin(items: seq<string>)
    requires AllItems(items) && items != []
    ensures Items(Join(items, ",")) == items
  {
    SplitJoin(items, ',');
    KeptAsIs(items);
  }

  /** The parts of a one-line value are one line each and hold no separator. */
  lemma {:induction false} PartsOfLine(s: string)
    requires OneLine(s)
    ensures forall i :: 0 <= i < |Split(s, ',')| ==> OneLine(Split(s, ',')[i]) && ',' !in Split(s, ',')[i]
  {
    if s != "" {
      PartsOfLine(s[1..]);
    }
  }

  lemma {:induction false} LStripDrops(s: string) returns (n: nat)
    ensures n <= |s| && LStrip(s) == s[n..]
  {
    n := 0;
    if s != "" && PySpace(s[0]) {
      n := LStripDrops(s[1..]);
      n := n + 1;
    }
  }

  lemma StripIsSlice(s: string)
    ensures |Strip(s)| <= |s|
    ensures OneLine(s) ==> OneLine(Strip(s))
    ensures ',' !in s ==> ',' !in Strip(s)
  {
    var n := LStripDrops(s);
    RStripIsPrefix(LStrip(s));
    forall i | 0 <= i < |Strip(s)|
      ensures Strip(s)[i] in s && Strip(s)[i] == s[n + i]
    {
    }
  }

  lemma {:induction false} KeptItems(parts: seq<string>)
    requires forall i :: 0 <= i < |parts| ==> OneLine(parts[i]) && ',' !in parts[i]
    ensures AllItems(Kept(parts))
  {
    if parts != [] {
      KeptItems(parts[1..]);
      StripIsSlice(parts[0]);
      StripTwice(parts[0]);
    }
  }

  lemma ItemsAreItems(value: string)
    requires OneLine(value)
    ensures AllItems(Items(value))
  {
    PartsOfLine(value);
    KeptItems(Split(value, ','));
  }

  lemma {:induction false} PartitionIsSlice(s: string, sep: char)
    requires OneLine(s)
    ensures OneLine(Partition(s, sep).1)
  {
    if s != "" && s[0] != sep {
      PartitionIsSlice(s[1..], sep);
    }
  }

  lemma ValueIsLine(raw: string)
    requires OneLine(raw) && ParseLine(raw).Some?
    ensures OneLine(ParseLine(raw).value.value)
  {
    StripIsSlice(raw);
    PartitionIsSlice(Strip(raw), '=');
    StripIsSlice(Partition(Strip(raw), '=').1);
  }

  lemma {:induction false} ValuesAreLines(lines: seq<string>, key: string)
    requires AllLines(lines) && key in ParseLines(lines)
    ensures OneLine(ParseLines(lines)[key])
  {
    var n := |lines| - 1;
    var b := ParseLine(lines[n]);
    if b.Some? && b.value.key == key {
      ValueIsLine(lines[n]);
    } else {
      ValuesAreLines(lines[..n], key);
    }
  }

  lemma ListedAreItems(text: Option<string>, key: string)
    ensures AllItems(Listed(text, key))
  {
    if key in Parse(text) {
      ValuesAreLines(LinesOf(text), key);
      ItemsAreItems(Parse(text)[key]);
    } else {
      ItemsAreItems("");
    }
  }

  lemma {:induction false} JoinedLine(items: seq<string>)
    requires AllItems(items) && items != []
    ensures OneLine(Join(items, ",")) && Join(items, ",") != ""
    ensures Join(items, ",")[0] == items[0][0]
    ensures var s, last := Join(items, ","), items[|items| - 1]; s[|s| - 1] == last[|last| - 1]
  {
    if |items| > 1 {
      JoinedLine(items[1..]);
      assert Join(items, ",") == items[0] + "," + Join(items[1..], ",");
      assert items[1..][|items| - 2] == items[|items| - 1];
    }
  }

  lemma JoinedIsStripped(items: seq<string>)
    requires AllItems(items) && items != []
    ensures Strip(Join(items, ",")) == Join(items, ",")
  {
    JoinedLine(items);
    StripTwice(items[0]);
    StripTwice(items[|items| - 1]);
  }

  // ----- a quoted-looking list is shorter when read -----

  /** The length of the parts, one separator counted for each. */
  function Weight(parts: seq<string>): nat {
    if parts == [] then 0 else |parts[0]| + 1 + Weight(parts[1..])
  }

  lemma {:induction false} WeightOfSplit(s: string)
    ensures Weight(Split(s, ',')) == |s| + 1
  {
    if s != "" {
      WeightOfSplit(s[1..]);
      var rest := Split(s[1..], ',');
      if s[0] == ',' {
        WeightCons("", rest);
      } else {
        WeightCons([s[0]] + rest[0], rest[1..]);
      }
    }
  }

  lemma WeightCons(part: string, rest: seq<string>)
    ensures Weight([part] + rest) == |part| + 1 + Weight(rest)
  {
    assert ([part] + rest)[1..] == rest;
  }

  lemma {:induction false} WeightOfKept(parts: seq<string>)
    ensures Weight(Kept(parts)) <= Weight(parts)
  {
    if parts != [] {
      WeightOfKept(parts[1..]);
      var first, rest := Strip(parts[0]), Kept(parts[1..]);
      assert |first| <= |parts[0]| by {
        StripIsSlice(parts[0]);
      }
      WeightCons(first, rest);
      assert Kept(parts) == (if first == "" then [] else [first]) + rest;
      assert [] + rest == rest;
    }
  }

  lemma ItemsWeigh(value: string)
    ensures Weight(Items(value)) <= |value| + 1
  {
    WeightOfSplit(value);
    WeightOfKept(Split(value, ','));
  }

  lemma {:induction false} WeightOfJoin(items: seq<string>)
    requires items != []
    ensures Weight(items) == |Join(items, ",")| + 1
  {
    if |items| > 1 {
      WeightOfJoin(items[1..]);
    } else {
      assert items[1..] == [];
    }
  }

  /**
   In a tidy file a new item joins the list after all earlier ones, in order, and nothing else changes: exactly
   when the joined text does not itself look quoted.
   */
  lemma EnsureKeepsItems(text: Option<string>, key: string, item: string)
    requires KeyOk(key) && ItemOk(item) && Tidy(LinesOf(text), key)
    ensures
      var joined := Join(Listed(text, key) + [item], ",");
      var after := Some(After(text, key, joined));
      && Parse(after) == Parse(text)[key := Unquote(joined)]
      && (Listed(after, key) == Listed(text, key) + [item] <==> Unquote(joined) == joined)
  {
    var items := Listed(text, key) + [item];
    ListedAreItems(text, key);
    JoinedReads(items);
    TidyOthers(LinesOf(text), key);
    UpsertIsUpdate(text, key, Join(items, ","));
  }

  lemma JoinedReads(items: seq<string>)
    requires AllItems(items) && items != []
    ensures OneLine(Join(items, ",")) && Strip(Join(items, ",")) == Join(items, ",")
    ensures Items(Unquote(Join(items, ","))) == items <==> Unquote(Join(items, ",")) == Join(items, ",")
  {
    JoinedLine(items);
    JoinedIsStripped(items);
    ItemsOfJoin(items);
    ItemsWeigh(Unquote(Join(items, ",")));
    WeightOfJoin(items);
  }

  lemma OneEntry(key: string, value: string)
    requires KeyOk(key) && ItemOk(value) && Unquote(value) == value
    ensures LinesOf(Some(Entry(key, value))) == [Entry(key, value)] && Tidy([Entry(key, value)], key)
    ensures Listed(Some(Entry(key, value)), key) == [value]
  {
    var line := Entry(key, value);
    LineAlone(line);
    EntryParses(key, value);
    assert Sets(line, key);
    assert [line][..0] == [];
    assert ParseLines([line]) == ParseLines([])[key := value];
    assert [value][1..] == [];
    ItemsOfJoin([value]);
  }

  lemma JoinTwo(a: string, b: string)
    ensures Join([a, b], ",") == a + "," + b
  {
    assert [a, b][1..] == [b];
  }

  lemma CutItems(a: string, b: string)
    requires a == "\"a" && b == "b\""
    ensures ItemOk(b) && Items(Unquote(a + "," + b)) == ["a", "b"]
  {
    var joined := a + "," + b;
    assert LStrip(b) == b && LStrip("a") == "a" && LStrip("b") == "b";
    assert Unquote(joined) == joined[1..4] == "a" + "," + "b";
    JoinTwo("a", "b");
    ItemsOfJoin(["a", "b"]);
  }

  /** Two items that open and close a quote between them lose it: `"a` and then `b"` read back as `a` and `b`. */
  lemma QuotedListIsCut(key: string, first: string, item: string)
    requires KeyOk(key) && first == "\"a" && item == "b\""
    ensures var text := Some(Entry(key, first));
      && ItemOk(item) && Tidy(LinesOf(text), key) && Listed(text, key) == [first]
      && Listed(Some(After(text, key, Join([first] + [item], ","))), key) == ["a", "b"]
  {
    var text := Some(Entry(key, first));
    assert LStrip(first) == first;
    OneEntry(key, first);
    CutItems(first, item);
    EnsureKeepsItems(text, key, item);
    assert [first] + [item] == [first, item];
    JoinTwo(first, item);
  }
}
