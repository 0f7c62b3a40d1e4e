/**
 Reading JSON text (RFC 8259), and the canonical text read back.

 A number that is no integer is kept as its text, and so are the names that Python writes for floats that are none.
 */
module JsonReader {
  import opened Options
  import opened Text
  import opened Json
  import opened CanonicalJson

  // ----- strings -----

  function HexValue(c: char): Option<nat> {
    if '0' <= c <= '9' then Some((c - '0') as nat)
    else if 'a' <= c <= 'f' then Some((c - 'a') as nat + 10)
    else if 'A' <= c <= 'F' then Some((c - 'A') as nat + 10)
    else None
  }

  /** The character of four hexadecimal digits; half of a surrogate pair is none. */
  function HexChar(s: string): Option<char>
    requires |s| == 4
  {
    var a, b, c, d := HexValue(s[0]), HexValue(s[1]), HexValue(s[2]), HexValue(s[3]);
    if a.None? || b.None? || c.None? || d.None? then None
    else
      var code := ((a.value * 16 + b.value) * 16 + c.value) * 16 + d.value;
      if code < 0xD800 || 0xE000 <= code < 0x10000 then Some(code as char) else None
  }

  /** The character that a backslash and this one stand for. */
  function Unescaped(c: char): Option<char> {
    match c
    case '"' => Some('"')
    case '\\' => Some('\\')
    case '/' => Some('/')
    case 'b' => Some('\U{8}')
    case 'f' => Some('\U{c}')
    case 'n' => Some('\n')
    case 'r' => Some('\r')
    case 't' => Some('\t')
    case _ => None
  }

  function Before(c: char, rest: Option<(string, string)>): Option<(string, string)> {
    if rest.None? then None else Some(([c] + rest.value.0, rest.value.1))
  }

  /** After an opening quote: the string, and what follows its closing one. */
  function ReadChars(s: string): (r: Option<(string, string)>)
    ensures r.Some? ==> |r.value.1| < |s|
    decreases |s|
  {
    if s == "" || s[0] < ' ' then None
    else if s[0] == '"' then Some(("", s[1..]))
    else if s[0] != '\\' then Before(s[0], ReadChars(s[1..]))
    else if |s| >= 6 && s[1] == 'u' then
      var c := HexChar(s[2..6]);
      if c.None? then None else Before(c.value, ReadChars(s[6..]))
    else if |s| < 2 then None
    else
      var c := Unescaped(s[1]);
      if c.None? then None else Before(c.value, ReadChars(s[2..]))
  }

  // ----- values -----

  predicate Ws(c: char) { c in {' ', '\t', '\n', '\r'} }

  function Skip(s: string): (r: string)
    ensures |r| <= |s|
  {
    if s != "" && Ws(s[0]) then Skip(s[1..]) else s
  }

  predicate WordChar(c: char) {
    IsDigit(c) || 'a' <= c <= 'z' || 'A' <= c <= 'Z' || c in {'+', '-', '.'}
  }

  /** The characters of a number or a name, and what follows. */
  function Run(s: string): (r: (string, string))
    ensures r.0 + r.1 == s
  {
    if s == "" || !WordChar(s[0]) then ("", s)
    else
      var (word, rest) := Run(s[1..]);
      ([s[0]] + word, rest)
  }

  /** `-?(0|[1-9]\d*)`. */
  predicate IsInteger(s: string) { IsIndex(s) || (s != "" && s[0] == '-' && IsIndex(s[1..])) }

  function IntegerOf(s: string): int
    requires IsInteger(s)
  {
    if IsIndex(s) then NatOf(s) else -(NatOf(s[1..]) as int)
  }

  function WordValue(word: string): Option<Json> {
    if word == "null" then Some(Null)
    else if word == "true" then Some(Bool(true))
    else if word == "false" then Some(Bool(false))
    else if IsInteger(word) then Some(Int(IntegerOf(word)))
    else if word != "" then Some(Float(word))
    else None
  }

  /** A value, and what follows it. */
  function Read(s: string): (r: Option<(Json, string)>)
    ensures r.Some? ==> |r.value.1| < |s|
    decreases |s|, 0
  {
    var t := Skip(s);
    if t == "" then None
    else if t[0] == '"' then
      var chars := ReadChars(t[1..]);
      if chars.None? then None else Some((Str(chars.value.0), chars.value.1))
    else if t[0] == '[' then
      var u := Skip(t[1..]);
      if u != "" && u[0] == ']' then Some((Arr([]), u[1..]))
      else
        var items := ReadItems(t[1..]);
        if items.None? then None else Some((Arr(items.value.0), items.value.1))
    else if t[0] == '{' then
      var u := Skip(t[1..]);
      if u != "" && u[0] == '}' then Some((Obj([]), u[1..]))
      else
        var fields := ReadFields(t[1..]);
        if fields.None? then None else Some((Obj(fields.value.0), fields.value.1))
    else
      var (word, rest) := Run(t);
      var value := WordValue(word);
      if value.None? then None else Some((value.value, rest))
  }

  /** The items of a list up to its bracket. */
  function ReadItems(s: string): (r: Option<(seq<Json>, string)>)
    ensures r.Some? ==> |r.value.1| < |s|
    decreases |s|, 1
  {
    var first := Read(s);
    if first.None? then None
    else
      var t := Skip(first.value.1);
      if t != "" && t[0] == ']' then Some(([first.value.0], t[1..]))
      else if t != "" && t[0] == ',' then
        var rest := ReadItems(t[1..]);
        if rest.None? then None else Some(([first.value.0] + rest.value.0, rest.value.1))
      else None
  }

  /** A key, a colon and a value. */
  function ReadField(s: string): (r: Option<(Field, string)>)
    ensures r.Some? ==> |r.value.1| < |s|
    decreases |s|, 1
  {
    var t := Skip(s);
    if t == "" || t[0] != '"' then None
    else
      var key := ReadChars(t[1..]);
      if key.None? then None
      else
        var u := Skip(key.value.1);
        if u == "" || u[0] != ':' then None
        else
          var value := Read(u[1..]);
          if value.None? then None else Some((Field(key.value.0, value.value.0), value.value.1))
  }

  /** The fields of an object up to its brace. */
  function ReadFields(s: string): (r: Option<(seq<Field>, string)>)
    ensures r.Some? ==> |r.value.1| < |s|
    decreases |s|, 2
  {
    var first := ReadField(s);
    if first.None? then None
    else
      var t := Skip(first.value.1);
      if t != "" && t[0] == '}' then Some(([first.value.0], t[1..]))
      else if t != "" && t[0] == ',' then
        var rest := ReadFields(t[1..]);
        if rest.None? then None else Some(([first.value.0] + rest.value.0, rest.value.1))
      else None
  }

  // ----- a printed string read back -----

  lemma HexDigitValue(d: nat)
    requires d < 16
    ensures HexValue(HexDigit(d)) == Some(d)
  {
  }

  lemma ReadControl(c: char, x: string)
    requires c < ' '
    ensures ReadChars("\\u00" + [HexDigit(c as nat / 16), HexDigit(c as nat % 16)] + x) == Before(c, ReadChars(x))
  {
    var h, l := HexDigit(c as nat / 16), HexDigit(c as nat % 16);
    var s := "\\u00" + [h, l] + x;
    HexDigitValue(c as nat / 16);
    HexDigitValue(c as nat % 16);
    assert s[0] == '\\' && s[1] == 'u' && s[2..6] == ['0', '0', h, l] && s[6..] == x;
    assert HexValue('0') == Some(0);
  }

  lemma ReadEscaped(c: char, e: char, x: string)
    requires Unescaped(e) == Some(c)
    ensures ReadChars("\\" + [e] + x) == Before(c, ReadChars(x))
  {
    var s := "\\" + [e] + x;
    assert s[0] == '\\' && s[1] == e && s[2..] == x;
    EscapeStep(s, e);
  }

  lemma EscapeStep(s: string, e: char)
    requires |s| >= 2 && s[0] == '\\' && s[1] == e && e != 'u'
    ensures ReadChars(s) == if Unescaped(e).None? then None else Before(Unescaped(e).value, ReadChars(s[2..]))
  {
  }

  lemma ReadPlain(c: char, x: string)
    requires c >= ' ' && c != '"' && c != '\\'
    ensures ReadChars([c] + x) == Before(c, ReadChars(x))
  {
    assert ([c] + x)[1..] == x;
  }

  lemma ReadEscapedChar(c: char, x: string)
    ensures ReadChars(EscapedChar(c) + x) == Before(c, ReadChars(x))
  {
    if c == '"' { ReadEscaped(c, '"', x); }
    else if c == '\\' { ReadEscaped(c, '\\', x); }
    else if c == '\n' { ReadEscaped(c, 'n', x); }
    else if c == '\r' { ReadEscaped(c, 'r', x); }
    else if c == '\t' { ReadEscaped(c, 't', x); }
    else if c == '\U{8}' { ReadEscaped(c, 'b', x); }
    else if c == '\U{c}' { ReadEscaped(c, 'f', x); }
    else if c < ' ' { ReadControl(c, x); }
    else { ReadPlain(c, x); }
  }

  lemma EscapedStep(s: string, x: string)
    requires s != ""
    ensures Escaped(s) + x == EscapedChar(s[0]) + (Escaped(s[1..]) + x)
  {
  }

  lemma ReadEnd(x: string)
    ensures ReadChars(Escaped("") + ("\"" + x)) == Some(("", x))
  {
    assert Escaped("") + ("\"" + x) == "\"" + x && ("\"" + x)[1..] == x;
  }

  lemma {:induction false} ReadString(s: string, x: string)
    ensures ReadChars(Escaped(s) + ("\"" + x)) == Some((s, x))
    decreases |s|
  {
    if s == "" {
      ReadEnd(x);
    } else {
      ReadString(s[1..], x);
      EscapedStep(s, "\"" + x);
      ReadEscapedChar(s[0], Escaped(s[1..]) + ("\"" + x));
      assert s == [s[0]] + s[1..];
    }
  }

  /** A character is escaped only if it must be, with its letter if it has one, and else with lower-case digits. */
  lemma ShortEscape(c: char)
    ensures |EscapedChar(c)| == if c in {'"', '\\', '\n', '\r', '\t', '\U{8}', '\U{c}'} then 2 else if c < ' ' then 6 else 1
    ensures c < ' ' ==> forall i :: 0 <= i < |EscapedChar(c)| ==> !('A' <= EscapedChar(c)[i] <= 'Z')
  {
  }

  // ----- a printed scalar read back -----

  lemma {:induction false} RunIs(word: string, x: string)
    requires (forall i :: 0 <= i < |word| ==> WordChar(word[i])) && (x == "" || !WordChar(x[0]))
    ensures Run(word + x) == (word, x)
  {
    if word == "" {
      assert word + x == x;
    } else {
      assert (word + x)[1..] == word[1..] + x;
      RunIs(word[1..], x);
      assert word == [word[0]] + word[1..];
    }
  }

  lemma IntegerReads(n: int)
    ensures IsInteger(IntText(n)) && IntegerOf(IntText(n)) == n
    ensures forall i :: 0 <= i < |IntText(n)| ==> WordChar(IntText(n)[i])
  {
    if n < 0 {
      NatTextReadsBack(-n);
      var s := IntText(n);
      assert s[0] == '-' && s[1..] == NatText(-n);
      assert !IsDigit('-');
    } else {
      NatTextReadsBack(n);
    }
  }

  lemma FloatIsWord(s: string)
    requires FloatText(s)
    ensures s != "" && forall i :: 0 <= i < |s| ==> WordChar(s[i])
    ensures !IsInteger(s) && s !in {"null", "true", "false"}
  {
    FloatHasLetter(s);
    if IsInteger(s) {
      IntegerChars(s);
      assert false;
    }
    FloatIsNoName(s);
  }

  lemma IntegerChars(s: string)
    requires IsInteger(s)
    ensures forall i :: 0 <= i < |s| ==> IsDigit(s[i]) || s[i] == '-'
  {
    if !IsIndex(s) {
      assert forall i :: 1 <= i < |s| ==> s[i] == s[1..][i - 1];
    }
  }

  lemma FloatIsNoName(s: string)
    requires FloatText(s)
    ensures s !in {"null", "true", "false"}
  {
    if s !in {"NaN", "Infinity", "-Infinity"} {
      assert forall i :: 0 <= i < |s| ==> IsDigit(s[i]) || s[i] in {'+', '-', '.', 'e'};
      assert s != "" ==> s[0] !in {'n', 't', 'f'};
    }
  }

  lemma WordReads(j: Json)
    requires Scalar(j) && FloatsOk(j)
    ensures WordValue(Show(j)) == Some(j)
    ensures Show(j) != "" && forall i :: 0 <= i < |Show(j)| ==> WordChar(Show(j)[i])
  {
    match j
    case Int(n) =>
      IntegerReads(n);
      NotIntText(Null, n);
      NotIntText(Bool(true), n);
      NotIntText(Bool(false), n);
    case Float(literal) => FloatIsWord(literal);
    case _ =>
  }

  // ----- a printed value read back -----

  lemma SkipNothing(s: string)
    requires s == "" || !Ws(s[0])
    ensures Skip(s) == s
  {
  }

  lemma ShowFirst(j: Json, x: string)
    requires FloatsOk(j)
    ensures Show(j) + x != "" && (Show(j) + x)[0] == Show(j)[0] && Skip(Show(j) + x) == Show(j) + x
    ensures Show(j)[0] !in {']', '}', ','}
  {
    ShowStarts(j);
    assert (Show(j) + x)[0] == Show(j)[0];
    if Scalar(j) {
      WordReads(j);
    }
  }

  // One step of the reader each.

  lemma AfterQuote(s: string, x: string)
    ensures var t := Quoted(s) + x; t != "" && t[0] == '"' && t[1..] == Escaped(s) + ("\"" + x)
  {
    QuotedText(s, x);
  }

  lemma ReadQuoted(s: string, x: string)
    ensures Read(Quoted(s) + x) == Some((Str(s), x))
  {
    AfterQuote(s, x);
    ReadString(s, x);
  }

  lemma ReadWord(word: string, j: Json, x: string)
    requires word != "" && WordValue(word) == Some(j) && Ends(x)
    requires forall i :: 0 <= i < |word| ==> WordChar(word[i])
    ensures Read(word + x) == Some((j, x))
  {
    var t := word + x;
    assert t[0] == word[0] && WordChar(t[0]) && !Ws(t[0]) && t[0] !in {'"', '[', '{'};
    SkipNothing(t);
    RunIs(word, x);
  }

  lemma OpenList(t: string, items: seq<Json>, x: string)
    requires t != "" && !Ws(t[0])
    requires if t[0] == ']' then items == [] && t[1..] == x else ReadItems(t) == Some((items, x))
    ensures Read(['['] + t) == Some((Arr(items), x))
  {
    assert (['['] + t)[1..] == t;
  }

  lemma OpenObject(t: string, fs: seq<Field>, x: string)
    requires t != "" && !Ws(t[0])
    requires if t[0] == '}' then fs == [] && t[1..] == x else ReadFields(t) == Some((fs, x))
    ensures Read(['{'] + t) == Some((Obj(fs), x))
  {
    assert (['{'] + t)[1..] == t;
  }

  lemma LastItem(s: string, v: Json, x: string)
    requires Read(s) == Some((v, [']'] + x))
    ensures ReadItems(s) == Some(([v], x))
  {
    assert ([']'] + x)[1..] == x;
  }

  lemma MoreItems(s: string, v: Json, t: string, rest: seq<Json>, x: string)
    requires Read(s) == Some((v, [','] + t)) && ReadItems(t) == Some((rest, x))
    ensures ReadItems(s) == Some(([v] + rest, x))
  {
    assert ([','] + t)[1..] == t;
  }

  lemma LastField(s: string, f: Field, x: string)
    requires ReadField(s) == Some((f, ['}'] + x))
    ensures ReadFields(s) == Some(([f], x))
  {
    assert (['}'] + x)[1..] == x;
  }

  lemma MoreFields(s: string, f: Field, t: string, rest: seq<Field>, x: string)
    requires ReadField(s) == Some((f, [','] + t)) && ReadFields(t) == Some((rest, x))
    ensures ReadFields(s) == Some(([f] + rest, x))
  {
    assert ([','] + t)[1..] == t;
  }

  lemma FieldStep(s: string, key: string, t: string, v: Json, x: string)
    requires s != "" && s[0] == '"' && ReadChars(s[1..]) == Some((key, [':'] + t)) && Read(t) == Some((v, x))
    ensures ReadField(s) == Some((Field(key, v), x))
  {
    assert ([':'] + t)[1..] == t;
  }

  lemma KeyAndValue(key: string, t: string, v: Json, x: string)
    requires Read(t) == Some((v, x))
    ensures ReadField(Quoted(key) + ([':'] + t)) == Some((Field(key, v), x))
  {
    var s := Quoted(key) + ([':'] + t);
    AfterQuote(key, [':'] + t);
    ReadString(key, [':'] + t);
    FieldStep(s, key, t, v, x);
  }

  // The pieces of a printed value.

  lemma ArrText(items: seq<Json>, x: string)
    ensures Show(Arr(items)) + x == ['['] + (ListText(items) + x)
  {
  }

  lemma ObjText(fs: seq<Field>, x: string)
    ensures Show(Obj(fs)) + x == ['{'] + (ObjectText(fs) + x)
  {
  }

  lemma ItemsLast(x: string)
    ensures ShowItems([]) + x == [']'] + x && ListText([]) + x == [']'] + x
    ensures ShowFields([]) + x == ['}'] + x && ObjectText([]) + x == ['}'] + x
  {
  }

  /** A value is read off the front of any text that starts with its printing. */
  lemma {:induction false} ReadShow(j: Json, x: string)
    requires FloatsOk(j) && Ends(x)
    ensures Read(Show(j) + x) == Some((j, x))
    decreases j, 2, 0
  {
    match j
    case Str(s) => ReadQuoted(s, x);
    case Arr(items) => ReadArray(j, items, x);
    case Obj(fs) => ReadObject(j, fs, x);
    case _ =>
      WordReads(j);
      ReadWord(Show(j), j, x);
  }

  lemma {:induction false} ReadArray(parent: Json, items: seq<Json>, x: string)
    requires parent == Arr(items) && FloatsOk(parent)
    ensures Read(Show(parent) + x) == Some((parent, x))
    decreases parent, 1, 0
  {
    ArrText(items, x);
    if items == [] {
      ItemsLast(x);
      assert ([']'] + x)[1..] == x;
    } else {
      ListStart(items, x);
      ShowFirst(items[0], ShowItems(items[1..]) + x);
      ReadRest(parent, items, x);
    }
    OpenList(ListText(items) + x, items, x);
  }

  /** The items of a printed list, the last one's bracket included. */
  lemma {:induction false} ReadRest(parent: Json, items: seq<Json>, x: string)
    requires items != [] && forall i :: 0 <= i < |items| ==> items[i] < parent && FloatsOk(items[i])
    ensures ReadItems(Show(items[0]) + (ShowItems(items[1..]) + x)) == Some((items, x))
    decreases parent, 0, |items|
  {
    var rest := items[1..];
    ItemsEnd(rest, x);
    ReadShow(items[0], ShowItems(rest) + x);
    var s := Show(items[0]) + (ShowItems(rest) + x);
    if rest == [] {
      ItemsLast(x);
      LastItem(s, items[0], x);
      assert items == [items[0]];
    } else {
      ItemsFirst(rest, x);
      ReadRest(parent, rest, x);
      MoreItems(s, items[0], Show(rest[0]) + (ShowItems(rest[1..]) + x), rest, x);
      assert items == [items[0]] + rest;
    }
  }

  lemma {:induction false} ReadOneField(parent: Json, f: Field, x: string)
    requires f.value < parent && FloatsOk(f.value) && Ends(x)
    ensures ReadField(ShowField(f) + x) == Some((f, x))
    decreases parent, 0, 0
  {
    ReadShow(f.value, x);
    KeyAndValue(f.key, Show(f.value) + x, f.value, x);
    FieldText(f, x);
  }

  lemma {:induction false} ReadObject(parent: Json, fs: seq<Field>, x: string)
    requires parent == Obj(fs) && FloatsOk(parent)
    ensures Read(Show(parent) + x) == Some((parent, x))
    decreases parent, 1, 0
  {
    ObjText(fs, x);
    if fs == [] {
      ItemsLast(x);
      assert (['}'] + x)[1..] == x;
    } else {
      ObjectStart(fs, x);
      ReadMore(parent, fs, x);
    }
    OpenObject(ObjectText(fs) + x, fs, x);
  }

  lemma {:induction false} ReadMore(parent: Json, fs: seq<Field>, x: string)
    requires fs != [] && forall i :: 0 <= i < |fs| ==> fs[i].value < parent && FloatsOk(fs[i].value)
    ensures ReadFields(ShowField(fs[0]) + (ShowFields(fs[1..]) + x)) == Some((fs, x))
    decreases parent, 0, |fs|
  {
    var rest := fs[1..];
    FieldsEnd(rest, x);
    ReadOneField(parent, fs[0], ShowFields(rest) + x);
    var s := ShowField(fs[0]) + (ShowFields(rest) + x);
    if rest == [] {
      ItemsLast(x);
      LastField(s, fs[0], x);
      assert fs == [fs[0]];
    } else {
      FieldsFirst(rest, x);
      ReadMore(parent, rest, x);
      MoreFields(s, fs[0], ShowField(rest[0]) + (ShowFields(rest[1..]) + x), rest, x);
      assert fs == [fs[0]] + rest;
    }
  }

  // ----- no blanks outside strings -----

  /** No blank stands outside a string. */
  predicate Compact(s: string)
    decreases |s|
  {
    if s == "" then true
    else if s[0] != '"' then !Ws(s[0]) && Compact(s[1..])
    else
      var chars := ReadChars(s[1..]);
      chars.Some? && Compact(chars.value.1)
  }

  lemma {:induction false} CompactWord(word: string, x: string)
    requires Compact(x) && forall i :: 0 <= i < |word| ==> !Ws(word[i]) && word[i] != '"'
    ensures Compact(word + x)
  {
    if word == "" {
      assert word + x == x;
    } else {
      assert (word + x)[1..] == word[1..] + x;
      CompactWord(word[1..], x);
    }
  }

  lemma CompactString(s: string, x: string)
    requires Compact(x)
    ensures Compact(Quoted(s) + x)
  {
    AfterQuote(s, x);
    ReadString(s, x);
  }

  lemma CompactAfter(c: char, t: string)
    requires Compact(t) && !Ws(c) && c != '"'
    ensures Compact([c] + t)
  {
    assert ([c] + t)[1..] == t;
  }

  lemma {:induction false} CompactShow(j: Json, x: string)
    requires FloatsOk(j) && Compact(x)
    ensures Compact(Show(j) + x)
    decreases j, 2, 0
  {
    match j
    case Str(s) => CompactString(s, x);
    case Arr(items) => CompactArray(j, items, x);
    case Obj(fs) => CompactObject(j, fs, x);
    case _ =>
      WordReads(j);
      CompactWord(Show(j), x);
  }

  lemma {:induction false} CompactArray(parent: Json, items: seq<Json>, x: string)
    requires parent == Arr(items) && FloatsOk(parent) && Compact(x)
    ensures Compact(Show(parent) + x)
    decreases parent, 1, 0
  {
    ArrText(items, x);
    if items == [] {
      ItemsLast(x);
      CompactAfter(']', x);
    } else {
      ListStart(items, x);
      CompactItems(parent, items[1..], x);
      CompactShow(items[0], ShowItems(items[1..]) + x);
    }
    CompactAfter('[', ListText(items) + x);
  }

  lemma {:induction false} CompactItems(parent: Json, items: seq<Json>, x: string)
    requires Compact(x) && forall i :: 0 <= i < |items| ==> items[i] < parent && FloatsOk(items[i])
    ensures Compact(ShowItems(items) + x)
    decreases parent, 0, |items|
  {
    if items == [] {
      ItemsLast(x);
      CompactAfter(']', x);
    } else {
      CompactItems(parent, items[1..], x);
      CompactShow(items[0], ShowItems(items[1..]) + x);
      ItemsFirst(items, x);
      CompactAfter(',', Show(items[0]) + (ShowItems(items[1..]) + x));
    }
  }

  lemma {:induction false} CompactField(parent: Json, f: Field, x: string)
    requires Compact(x) && f.value < parent && FloatsOk(f.value)
    ensures Compact(ShowField(f) + x)
    decreases parent, 0, 0
  {
    CompactShow(f.value, x);
    CompactAfter(':', Show(f.value) + x);
    CompactString(f.key, [':'] + (Show(f.value) + x));
    FieldText(f, x);
  }

  lemma {:induction false} CompactObject(parent: Json, fs: seq<Field>, x: string)
    requires parent == Obj(fs) && FloatsOk(parent) && Compact(x)
    ensures Compact(Show(parent) + x)
    decreases parent, 1, 0
  {
    ObjText(fs, x);
    if fs == [] {
      ItemsLast(x);
      CompactAfter('}', x);
    } else {
      ObjectStart(fs, x);
      CompactFields(parent, fs[1..], x);
      CompactField(parent, fs[0], ShowFields(fs[1..]) + x);
    }
    CompactAfter('{', ObjectText(fs) + x);
  }

  lemma {:induction false} CompactFields(parent: Json, fs: seq<Field>, x: string)
    requires Compact(x) && forall i :: 0 <= i < |fs| ==> fs[i].value < parent && FloatsOk(fs[i].value)
    ensures Compact(ShowFields(fs) + x)
    decreases parent, 0, |fs| + 1
  {
    if fs == [] {
      ItemsLast(x);
      CompactAfter('}', x);
    } else {
      CompactFields(parent, fs[1..], x);
      CompactField(parent, fs[0], ShowFields(fs[1..]) + x);
      FieldsFirst(fs, x);
      CompactAfter(',', ShowField(fs[0]) + (ShowFields(fs[1..]) + x));
    }
  }

  /** The canonical text reads back as the value, its keys ascending in every object, and has no blank outside its
      strings. */
  lemma CanonicalReadsBack(j: Json)
    requires WellFormed(j) && FloatsOk(j)
    ensures Read(Canonical(j)).Some? && Read(Canonical(j)).value.1 == ""
    ensures var read := Read(Canonical(j)).value.0; Meaning(read) == Meaning(j) && Ordered(read)
    ensures Compact(Canonical(j))
  {
    SortedEffect(j);
    var sorted := Sorted(j);
    ReadShow(sorted, "");
    CompactShow(sorted, "");
    assert Show(sorted) + "" == Canonical(j);
  }
}
