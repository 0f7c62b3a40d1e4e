/** The canonical text of a spec. */
module CanonicalJson {
  // It has unique readability: two values print alike iff they are the same value up to the order of object
  // keys at every depth.

  import opened Options
  import opened Text
  import opened Json

  // ----- key order -----

  /** Strings by code point, as Python compares them. */
  predicate Less(a: string, b: string) {
    b != "" && (a == "" || a[0] < b[0] || (a[0] == b[0] && Less(a[1..], b[1..])))
  }

  lemma {:induction false} LessIsTotal(a: string, b: string)
    ensures Less(a, b) || a == b || Less(b, a)
  {
    if a != "" && b != "" && a[0] == b[0] {
      LessIsTotal(a[1..], b[1..]);
      assert a == [a[0]] + a[1..] && b == [b[0]] + b[1..];
    }
  }

  lemma {:induction false} LessIsStrict(a: string)
    ensures !Less(a, a)
  {
    if a != "" {
      LessIsStrict(a[1..]);
    }
  }

  lemma {:induction false} LessIsTransitive(a: string, b: string, c: string)
    requires Less(a, b) && Less(b, c)
    ensures Less(a, c)
  {
    if a != "" && a[0] == b[0] && b[0] == c[0] {
      LessIsTransitive(a[1..], b[1..], c[1..]);
    }
  }

  function Insert(f: Field, sorted: seq<Field>): seq<Field> {
    if sorted == [] then [f]
    else if Less(sorted[0].key, f.key) then [sorted[0]] + Insert(f, sorted[1..])
    else [f] + sorted
  }

  /** The value with the keys of every object sorted. */
  function Sorted(j: Json): Json {
    match j
    case Arr(items) => Arr(SortedItems(items))
    case Obj(fs) => Obj(SortedFields(fs))
    case _ => j
  }

  function SortedItems(items: seq<Json>): seq<Json> {
    if items == [] then [] else [Sorted(items[0])] + SortedItems(items[1..])
  }

  function SortedFields(fs: seq<Field>): seq<Field> {
    if fs == [] then [] else Insert(Field(fs[0].key, Sorted(fs[0].value)), SortedFields(fs[1..]))
  }

  // ----- text -----

  function HexDigit(d: nat): char
    requires d < 16
  {
    if d < 10 then '0' + d as char else 'a' + (d - 10) as char
  }

  /** One character of a string, escaped as RFC 8259 section 7 requires. */
  function EscapedChar(c: char): string {
    if c == '"' then "\\\""
    else if c == '\\' then "\\\\"
    else if c == '\n' then "\\n"
    else if c == '\r' then "\\r"
    else if c == '\t' then "\\t"
    else if c == '\U{8}' then "\\b"
    else if c == '\U{c}' then "\\f"
    else if c < ' ' then "\\u00" + [HexDigit(c as nat / 16), HexDigit(c as nat % 16)]
    else [c]
  }

  function Escaped(s: string): string {
    if s == "" then "" else EscapedChar(s[0]) + Escaped(s[1..])
  }

  function Quoted(s: string): string { "\"" + Escaped(s) + "\"" }

  /** The value as text, its keys in the order they are held. */
  function Show(j: Json): string {
    match j
    case Null => "null"
    case Bool(b) => if b then "true" else "false"
    case Int(n) => IntText(n)
    case Float(literal) => literal
    case Str(s) => Quoted(s)
    case Arr(items) => "[" + ListText(items)
    case Obj(fs) => "{" + ObjectText(fs)
  }

  function ListText(items: seq<Json>): string {
    if items == [] then "]" else Show(items[0]) + ShowItems(items[1..])
  }

  function ObjectText(fs: seq<Field>): string {
    if fs == [] then "}" else ShowField(fs[0]) + ShowFields(fs[1..])
  }

  /** The rest of a list: each item after a comma, then the bracket. */
  function ShowItems(items: seq<Json>): string {
    if items == [] then "]" else "," + Show(items[0]) + ShowItems(items[1..])
  }

  function ShowField(f: Field): string { Quoted(f.key) + ":" + Show(f.value) }

  function ShowFields(fs: seq<Field>): string {
    if fs == [] then "}" else "," + ShowField(fs[0]) + ShowFields(fs[1..])
  }

  /** `json.dumps(value, sort_keys=True, separators=(",", ":"), ensure_ascii=False)`. */
  function Canonical(j: Json): string { Show(Sorted(j)) }

  // ----- what Python can hold -----

  /** A float as its `repr`: never the text of an integer. */
  predicate FloatText(s: string) {
    s in {"NaN", "Infinity", "-Infinity"} ||
    ((forall i :: 0 <= i < |s| ==> IsDigit(s[i]) || s[i] in {'+', '-', '.', 'e'})
      && exists i :: 0 <= i < |s| && s[i] in {'.', 'e'})
  }

  predicate FloatsOk(j: Json) {
    match j
    case Float(literal) => FloatText(literal)
    case Arr(items) => forall i :: 0 <= i < |items| ==> FloatsOk(items[i])
    case Obj(fs) => forall i :: 0 <= i < |fs| ==> FloatsOk(fs[i].value)
    case _ => true
  }

  // ----- reading strings back -----

  lemma StripFirst(c: char, x: string, y: string)
    requires [c] + x == [c] + y
    ensures x == y
  {
    assert x == ([c] + x)[1..] == ([c] + y)[1..];
  }

  lemma EscapedCharCode(c: char, d: char, x: string, y: string)
    requires EscapedChar(c) + x == EscapedChar(d) + y
    ensures c == d && x == y
  {
    var e, f := EscapedChar(c), EscapedChar(d);
    var s := e + x;
    assert s[0] == e[0] == f[0];
    if |e| > 1 && |f| > 1 {
      assert s[1] == e[1] == f[1];
      if e[1] == 'u' {
        assert e[4] == s[4] == f[4] && e[5] == s[5] == f[5];
        HexPair(c as nat, d as nat);
      }
    }
    assert |e| == |f|;
    assert x == s[|e|..] && y == (f + y)[|f|..];
  }

  lemma HexPair(a: nat, b: nat)
    requires a < 32 && b < 32
    requires HexDigit(a / 16) == HexDigit(b / 16) && HexDigit(a % 16) == HexDigit(b % 16)
    ensures a == b
  {
  }

  lemma EscapedCharStart(c: char)
    ensures EscapedChar(c) != "" && EscapedChar(c)[0] != '"'
  {
  }

  /** A quoted string ends at its own quote. */
  lemma {:induction false} EscapedUnique(s: string, t: string, x: string, y: string)
    requires Escaped(s) + "\"" + x == Escaped(t) + "\"" + y
    ensures s == t && x == y
    decreases |s|
  {
    if s != "" {
      EscapedFirst(s, x);
    }
    if t != "" {
      EscapedFirst(t, y);
    }
    if s == "" && t == "" {
      assert "" + "\"" + x == ['"'] + x && "" + "\"" + y == ['"'] + y;
      StripFirst('"', x, y);
    } else if s == "" {
      NoQuote(t[0], Escaped(t[1..]) + "\"" + y, x);
    } else if t == "" {
      NoQuote(s[0], Escaped(s[1..]) + "\"" + x, y);
    } else {
      EscapedCharCode(s[0], t[0], Escaped(s[1..]) + "\"" + x, Escaped(t[1..]) + "\"" + y);
      EscapedUnique(s[1..], t[1..], x, y);
      assert s == [s[0]] + s[1..] && t == [t[0]] + t[1..];
    }
  }

  lemma EscapedFirst(s: string, x: string)
    requires s != ""
    ensures Escaped(s) + "\"" + x == EscapedChar(s[0]) + (Escaped(s[1..]) + "\"" + x)
  {
  }

  /** No escape starts with the quote that ends a string. */
  lemma NoQuote(c: char, x: string, y: string)
    ensures EscapedChar(c) + x != "\"" + y
    ensures EscapedChar(c) + x != "" + "\"" + y
  {
    EscapedCharStart(c);
    assert (EscapedChar(c) + x)[0] == EscapedChar(c)[0];
    assert ("\"" + y)[0] == '"';
  }

  // ----- reading scalars back -----

  predicate Scalar(j: Json) { !j.Str? && !j.Arr? && !j.Obj? }

  predicate IsDelimiter(c: char) { c in {',', ']', '}'} }

  /** What may follow a value: nothing, or a delimiter. */
  predicate Ends(s: string) { s == "" || IsDelimiter(s[0]) }

  predicate TokenChar(c: char) { !IsDelimiter(c) && c !in {'"', '[', '{'} }

  lemma IntTextChars(n: int)
    ensures IntText(n) != ""
    ensures forall i :: 0 <= i < |IntText(n)| ==> IsDigit(IntText(n)[i]) || IntText(n)[i] == '-'
  {
  }

  lemma TokenChars(j: Json)
    requires Scalar(j) && FloatsOk(j)
    ensures Show(j) != "" && forall i :: 0 <= i < |Show(j)| ==> TokenChar(Show(j)[i])
  {
    match j
    case Int(n) => IntTextChars(n);
    case _ =>
  }

  /** The first letter, and whether an integer's letters suffice, tell the kinds of scalars apart. */
  lemma TokenInjective(a: Json, b: Json)
    requires Scalar(a) && Scalar(b) && FloatsOk(a) && FloatsOk(b) && Show(a) == Show(b)
    ensures a == b
  {
    if a.Int? && b.Int? {
      IntTextInjective(a.n, b.n);
    } else if a.Int? {
      IntTextChars(a.n);
      NotIntText(b, a.n);
    } else if b.Int? {
      IntTextChars(b.n);
      NotIntText(a, b.n);
    } else if a.Float? != b.Float? {
      assert Show(a)[0] == Show(b)[0];
    }
  }

  lemma NotIntText(j: Json, n: int)
    requires Scalar(j) && FloatsOk(j) && !j.Int?
    ensures Show(j) != IntText(n)
  {
    IntTextChars(n);
    var t := IntText(n);
    assert IsDigit(t[0]) || t[0] == '-';
    match j
    case Float(literal) => FloatHasLetter(literal);
    case Null => assert Show(j)[0] == 'n';
    case Bool(b) => assert Show(j)[0] == if b then 't' else 'f';
  }

  /** A float's text has a character that no integer's has. */
  lemma FloatHasLetter(s: string)
    requires FloatText(s)
    ensures exists i :: 0 <= i < |s| && !IsDigit(s[i]) && s[i] != '-'
  {
    if s in {"NaN", "Infinity"} {
      assert !IsDigit(s[0]);
    } else if s == "-Infinity" {
      assert !IsDigit(s[1]);
    } else {
      var i :| 0 <= i < |s| && s[i] in {'.', 'e'};
      assert !IsDigit(s[i]);
    }
  }

  lemma TokenEnds(a: string, b: string, s: string, t: string)
    requires forall i :: 0 <= i < |a| ==> TokenChar(a[i])
    requires forall i :: 0 <= i < |b| ==> TokenChar(b[i])
    requires Ends(s) && Ends(t) && a + s == b + t
    ensures a == b && s == t
  {
    var whole := a + s;
    assert forall i :: 0 <= i < |a| ==> TokenChar(whole[i]);
    assert forall i :: 0 <= i < |b| ==> TokenChar(whole[i]) by {
      assert forall i :: 0 <= i < |b| ==> whole[i] == b[i];
    }
    assert |a| < |whole| ==> !TokenChar(whole[|a|]);
    assert |b| < |whole| ==> !TokenChar(whole[|b|]) by {
      assert |b| < |whole| ==> whole[|b|] == t[0];
    }
    assert |a| == |b|;
    assert a == (a + s)[..|a|] && b == (b + t)[..|b|];
    assert s == (a + s)[|a|..] && t == (b + t)[|b|..];
  }

  // ----- reading values back -----

  lemma ShowStarts(j: Json)
    requires FloatsOk(j)
    ensures Show(j) != ""
    ensures Show(j)[0] == '"' <==> j.Str?
    ensures Show(j)[0] == '[' <==> j.Arr?
    ensures Show(j)[0] == '{' <==> j.Obj?
    ensures !IsDelimiter(Show(j)[0])
  {
    if Scalar(j) {
      TokenChars(j);
    }
  }

  /** Unique readability: a value is read off the front of any text that starts with it. */
  lemma {:induction false} ShowUnique(a: Json, b: Json, s: string, t: string)
    requires FloatsOk(a) && FloatsOk(b) && Ends(s) && Ends(t)
    requires Show(a) + s == Show(b) + t
    ensures a == b && s == t
    decreases a, 2, 0
  {
    ShowStarts(a);
    ShowStarts(b);
    assert (Show(a) + s)[0] == Show(a)[0] == Show(b)[0];
    if a.Str? {
      StringUnique(a.s, b.s, s, t);
    } else if a.Arr? {
      ArrayUnique(a, a.items, b.items, s, t);
    } else if a.Obj? {
      ObjectUnique(a, a.fields, b.fields, s, t);
    } else {
      TokenChars(a);
      TokenChars(b);
      TokenEnds(Show(a), Show(b), s, t);
      TokenInjective(a, b);
    }
  }

  lemma QuotedText(a: string, s: string)
    ensures Quoted(a) + s == ['"'] + (Escaped(a) + "\"" + s)
  {
  }

  lemma StringUnique(a: string, b: string, s: string, t: string)
    requires Quoted(a) + s == Quoted(b) + t
    ensures a == b && s == t
  {
    QuotedText(a, s);
    QuotedText(b, t);
    StripFirst('"', Escaped(a) + "\"" + s, Escaped(b) + "\"" + t);
    EscapedUnique(a, b, s, t);
  }

  lemma {:induction false} ArrayUnique(parent: Json, a: seq<Json>, b: seq<Json>, s: string, t: string)
    requires parent == Arr(a) && FloatsOk(Arr(a)) && FloatsOk(Arr(b))
    requires Show(Arr(a)) + s == Show(Arr(b)) + t
    ensures a == b && s == t
    decreases parent, 1, 0
  {
    assert Show(Arr(a)) + s == ['['] + (ListText(a) + s) && Show(Arr(b)) + t == ['['] + (ListText(b) + t);
    StripFirst('[', ListText(a) + s, ListText(b) + t);
    ListStart(a, s);
    ListStart(b, t);
    if a == [] {
      StripFirst(']', s, t);
    } else {
      ItemsEnd(a[1..], s);
      ItemsEnd(b[1..], t);
      ShowUnique(a[0], b[0], ShowItems(a[1..]) + s, ShowItems(b[1..]) + t);
      ItemsUnique(parent, a[1..], b[1..], s, t);
      assert a == [a[0]] + a[1..] && b == [b[0]] + b[1..];
    }
  }

  lemma ListStart(items: seq<Json>, s: string)
    requires items != [] ==> FloatsOk(items[0])
    ensures ListText(items) + s != ""
    ensures (ListText(items) + s)[0] == ']' <==> items == []
    ensures items == [] ==> ListText(items) + s == [']'] + s
    ensures items != [] ==> ListText(items) + s == Show(items[0]) + (ShowItems(items[1..]) + s)
  {
    if items != [] {
      var first, rest := Show(items[0]), ShowItems(items[1..]);
      ShowStarts(items[0]);
      assert ListText(items) == first + rest;
      assert (first + rest + s)[0] == first[0];
      assert first + rest + s == first + (rest + s);
    }
  }

  lemma ItemsEnd(items: seq<Json>, s: string)
    ensures ShowItems(items) + s != "" && Ends(ShowItems(items) + s)
    ensures (ShowItems(items) + s)[0] == if items == [] then ']' else ','
  {
  }

  lemma ItemsFirst(items: seq<Json>, s: string)
    requires items != []
    ensures ShowItems(items) + s == [','] + (Show(items[0]) + (ShowItems(items[1..]) + s))
  {
  }

  /** Equal printings of two lists of items: both end, or their first items and the rest print alike. */
  lemma ItemsStart(a: seq<Json>, b: seq<Json>, s: string, t: string)
    requires ShowItems(a) + s == ShowItems(b) + t
    ensures a == [] <==> b == []
    ensures a == [] ==> s == t
    ensures a != [] && b != [] ==>
      Show(a[0]) + (ShowItems(a[1..]) + s) == Show(b[0]) + (ShowItems(b[1..]) + t)
  {
    ItemsEnd(a, s);
    ItemsEnd(b, t);
    if a == [] {
      StripFirst(']', s, t);
    } else {
      ItemsFirst(a, s);
      ItemsFirst(b, t);
      StripFirst(',', Show(a[0]) + (ShowItems(a[1..]) + s), Show(b[0]) + (ShowItems(b[1..]) + t));
    }
  }

  lemma {:induction false} ItemsUnique(parent: Json, a: seq<Json>, b: seq<Json>, s: string, t: string)
    requires forall i :: 0 <= i < |a| ==> a[i] < parent && FloatsOk(a[i])
    requires forall i :: 0 <= i < |b| ==> FloatsOk(b[i])
    requires ShowItems(a) + s == ShowItems(b) + t
    ensures a == b && s == t
    decreases parent, 0, |a|
  {
    ItemsStart(a, b, s, t);
    if a != [] {
      ItemsEnd(a[1..], s);
      ItemsEnd(b[1..], t);
      ShowUnique(a[0], b[0], ShowItems(a[1..]) + s, ShowItems(b[1..]) + t);
      ItemsUnique(parent, a[1..], b[1..], s, t);
      assert a == [a[0]] + a[1..] && b == [b[0]] + b[1..];
    }
  }

  lemma ObjectTexts(a: seq<Field>, b: seq<Field>, s: string, t: string)
    requires Show(Obj(a)) + s == Show(Obj(b)) + t
    ensures ObjectText(a) + s == ObjectText(b) + t
  {
    AppendThree("{", ObjectText(a), s);
    AppendThree("{", ObjectText(b), t);
    StripFirst('{', ObjectText(a) + s, ObjectText(b) + t);
  }

  lemma ObjectParts(a: seq<Field>, b: seq<Field>, s: string, t: string)
    requires ObjectText(a) + s == ObjectText(b) + t
    ensures a == [] <==> b == []
    ensures a == [] ==> s == t
    ensures a != [] && b != [] ==>
      ShowField(a[0]) + (ShowFields(a[1..]) + s) == ShowField(b[0]) + (ShowFields(b[1..]) + t)
  {
    ObjectStart(a, s);
    ObjectStart(b, t);
    if a == [] {
      StripFirst('}', s, t);
    }
  }

  lemma {:induction false} ObjectUnique(parent: Json, a: seq<Field>, b: seq<Field>, s: string, t: string)
    requires parent == Obj(a) && FloatsOk(Obj(a)) && FloatsOk(Obj(b))
    requires Show(Obj(a)) + s == Show(Obj(b)) + t
    ensures a == b && s == t
    decreases parent, 1, 0
  {
    ObjectTexts(a, b, s, t);
    ObjectParts(a, b, s, t);
    if a != [] {
      FieldsEnd(a[1..], s);
      FieldsEnd(b[1..], t);
      FieldUnique(parent, a[0], b[0], ShowFields(a[1..]) + s, ShowFields(b[1..]) + t);
      FieldsUnique(parent, a[1..], b[1..], s, t);
      assert a == [a[0]] + a[1..] && b == [b[0]] + b[1..];
    }
  }

  lemma ObjectStart(fs: seq<Field>, s: string)
    ensures ObjectText(fs) + s != ""
    ensures (ObjectText(fs) + s)[0] == if fs == [] then '}' else '"'
    ensures fs == [] ==> ObjectText(fs) + s == ['}'] + s
    ensures fs != [] ==> ObjectText(fs) + s == ShowField(fs[0]) + (ShowFields(fs[1..]) + s)
  {
    if fs != [] {
      FieldStarts(fs[0]);
      AppendThree(ShowField(fs[0]), ShowFields(fs[1..]), s);
    }
  }

  lemma FieldStarts(f: Field)
    ensures ShowField(f) != "" && ShowField(f)[0] == '"'
  {
    FieldText(f, "");
    assert ShowField(f) + "" == ShowField(f);
  }

  lemma AppendThree(a: string, b: string, c: string)
    ensures (a + b) + c == a + (b + c)
  {
  }

  lemma {:induction false} FieldUnique(parent: Json, a: Field, b: Field, s: string, t: string)
    requires a.value < parent && FloatsOk(a.value) && FloatsOk(b.value) && Ends(s) && Ends(t)
    requires ShowField(a) + s == ShowField(b) + t
    ensures a == b && s == t
    decreases parent, 0, 0
  {
    FieldText(a, s);
    FieldText(b, t);
    StringUnique(a.key, b.key, [':'] + (Show(a.value) + s), [':'] + (Show(b.value) + t));
    StripFirst(':', Show(a.value) + s, Show(b.value) + t);
    ShowUnique(a.value, b.value, s, t);
  }

  lemma FieldText(f: Field, s: string)
    ensures ShowField(f) + s == Quoted(f.key) + ([':'] + (Show(f.value) + s))
  {
  }

  lemma FieldsEnd(fs: seq<Field>, s: string)
    ensures ShowFields(fs) + s != "" && Ends(ShowFields(fs) + s)
    ensures (ShowFields(fs) + s)[0] == if fs == [] then '}' else ','
  {
  }

  lemma FieldsFirst(fs: seq<Field>, s: string)
    requires fs != []
    ensures ShowFields(fs) + s == [','] + (ShowField(fs[0]) + (ShowFields(fs[1..]) + s))
  {
  }

  /** Equal printings of two lists of fields: both end, or their first fields and the rest print alike. */
  lemma FieldsStart(a: seq<Field>, b: seq<Field>, s: string, t: string)
    requires ShowFields(a) + s == ShowFields(b) + t
    ensures a == [] <==> b == []
    ensures a == [] ==> s == t
    ensures a != [] && b != [] ==>
      ShowField(a[0]) + (ShowFields(a[1..]) + s) == ShowField(b[0]) + (ShowFields(b[1..]) + t)
  {
    FieldsEnd(a, s);
    FieldsEnd(b, t);
    if a == [] {
      StripFirst('}', s, t);
    } else {
      FieldsFirst(a, s);
      FieldsFirst(b, t);
      StripFirst(',', ShowField(a[0]) + (ShowFields(a[1..]) + s), ShowField(b[0]) + (ShowFields(b[1..]) + t));
    }
  }

  lemma {:induction false} FieldsUnique(parent: Json, a: seq<Field>, b: seq<Field>, s: string, t: string)
    requires forall i :: 0 <= i < |a| ==> a[i].value < parent && FloatsOk(a[i].value)
    requires forall i :: 0 <= i < |b| ==> FloatsOk(b[i].value)
    requires ShowFields(a) + s == ShowFields(b) + t
    ensures a == b && s == t
    decreases parent, 0, |a| + 1
  {
    FieldsStart(a, b, s, t);
    if a != [] {
      FieldsEnd(a[1..], s);
      FieldsEnd(b[1..], t);
      FieldUnique(parent, a[0], b[0], ShowFields(a[1..]) + s, ShowFields(b[1..]) + t);
      FieldsUnique(parent, a[1..], b[1..], s, t);
      assert a == [a[0]] + a[1..] && b == [b[0]] + b[1..];
    }
  }

  // ----- sorting keeps the value and is determined by it -----

  /** Keys strictly ascending at every depth. */
  predicate Ordered(j: Json) {
    match j
    case Arr(items) => forall i :: 0 <= i < |items| ==> Ordered(items[i])
    case Obj(fs) => Ascending(fs) && forall i :: 0 <= i < |fs| ==> Ordered(fs[i].value)
    case _ => true
  }

  predicate Ascending(fs: seq<Field>) {
    forall i, k :: 0 <= i < k < |fs| ==> Less(fs[i].key, fs[k].key)
  }

  lemma {:induction false} InsertPermutes(f: Field, sorted: seq<Field>)
    ensures multiset(Insert(f, sorted)) == multiset(sorted) + multiset{f}
  {
    if sorted != [] {
      assert sorted == [sorted[0]] + sorted[1..];
      InsertPermutes(f, sorted[1..]);
    }
  }

  lemma InsertMembers(f: Field, sorted: seq<Field>, x: Field)
    ensures x in Insert(f, sorted) <==> x == f || x in sorted
  {
    InsertPermutes(f, sorted);
    assert x in Insert(f, sorted) <==> x in multiset(Insert(f, sorted));
  }

  lemma {:induction false} InsertMeaning(f: Field, sorted: seq<Field>)
    requires forall i :: 0 <= i < |sorted| ==> sorted[i].key != f.key
    ensures MeaningFields(Insert(f, sorted)) == MeaningFields(sorted)[f.key := Meaning(f.value)]
  {
    if sorted != [] {
      InsertMeaning(f, sorted[1..]);
      assert ([sorted[0]] + Insert(f, sorted[1..]))[1..] == Insert(f, sorted[1..]);
      assert ([f] + sorted)[1..] == sorted;
    }
  }

  lemma {:induction false} InsertAscending(f: Field, sorted: seq<Field>)
    requires Ascending(sorted) && forall i :: 0 <= i < |sorted| ==> sorted[i].key != f.key
    ensures Ascending(Insert(f, sorted))
  {
    if sorted == [] {
    } else if Less(sorted[0].key, f.key) {
      var rest := sorted[1..];
      InsertAscending(f, rest);
      var r := Insert(f, rest);
      forall k | 0 <= k < |r| ensures Less(sorted[0].key, r[k].key) {
        InsertMembers(f, rest, r[k]);
      }
      AscendingCons(sorted[0], r);
    } else {
      LessIsTotal(sorted[0].key, f.key);
      forall k | 0 <= k < |sorted| ensures Less(f.key, sorted[k].key) {
        if k > 0 {
          LessIsTransitive(f.key, sorted[0].key, sorted[k].key);
        }
      }
      AscendingCons(f, sorted);
    }
  }

  lemma AscendingCons(f: Field, rest: seq<Field>)
    requires Ascending(rest) && forall k :: 0 <= k < |rest| ==> Less(f.key, rest[k].key)
    ensures Ascending([f] + rest)
  {
  }

  /** Sorting orders every object, keeps the value, and keeps floats well written. */
  lemma {:induction false} SortedEffect(j: Json)
    requires WellFormed(j)
    ensures Ordered(Sorted(j)) && Meaning(Sorted(j)) == Meaning(j)
    ensures FloatsOk(j) ==> FloatsOk(Sorted(j))
    decreases j, 1
  {
    match j
    case Arr(items) => SortedItemsEffect(j, items);
    case Obj(fs) => SortedFieldsEffect(j, fs);
    case _ =>
  }

  lemma {:induction false} SortedItemsEffect(parent: Json, items: seq<Json>)
    requires forall i :: 0 <= i < |items| ==> items[i] < parent && WellFormed(items[i])
    ensures |SortedItems(items)| == |items|
    ensures forall i :: 0 <= i < |items| ==> Ordered(SortedItems(items)[i])
    ensures MeaningItems(SortedItems(items)) == MeaningItems(items)
    ensures (forall i :: 0 <= i < |items| ==> FloatsOk(items[i]))
      ==> forall i :: 0 <= i < |items| ==> FloatsOk(SortedItems(items)[i])
    decreases parent, 0, |items|
  {
    if items != [] {
      SortedEffect(items[0]);
      SortedItemsEffect(parent, items[1..]);
      assert SortedItems(items)[1..] == SortedItems(items[1..]);
    }
  }

  lemma {:induction false} SortedFieldsEffect(parent: Json, fs: seq<Field>)
    requires forall i :: 0 <= i < |fs| ==> fs[i].value < parent && WellFormed(fs[i].value)
    requires Distinct(fs)
    ensures Ascending(SortedFields(fs))
    ensures forall f :: f in SortedFields(fs) ==> Ordered(f.value) && exists i :: 0 <= i < |fs| && fs[i].key == f.key
    ensures MeaningFields(SortedFields(fs)) == MeaningFields(fs)
    ensures (forall i :: 0 <= i < |fs| ==> FloatsOk(fs[i].value)) ==> forall f :: f in SortedFields(fs) ==> FloatsOk(f.value)
    decreases parent, 0, |fs|
  {
    if fs != [] {
      var rest := fs[1..];
      SortedEffect(fs[0].value);
      SortedFieldsEffect(parent, rest);
      var f, sorted := Field(fs[0].key, Sorted(fs[0].value)), SortedFields(rest);
      forall i | 0 <= i < |sorted| ensures sorted[i].key != f.key {
        assert sorted[i] in sorted;
        var k :| 0 <= k < |rest| && rest[k].key == sorted[i].key;
        assert fs[0].key != fs[k + 1].key;
      }
      InsertAscending(f, sorted);
      InsertMeaning(f, sorted);
      var r := Insert(f, sorted);
      forall x | x in r
        ensures x == f || x in sorted
        ensures exists i :: 0 <= i < |fs| && fs[i].key == x.key
      {
        InsertMembers(f, sorted, x);
        if x != f {
          var k :| 0 <= k < |rest| && rest[k].key == x.key;
          assert fs[k + 1].key == x.key;
        }
      }
    }
  }

  lemma {:induction false} MeaningKeys(fs: seq<Field>, key: string)
    ensures key in MeaningFields(fs) <==> exists i :: 0 <= i < |fs| && fs[i].key == key
  {
    MeaningFinds(fs, key);
  }

  /** The least key comes first, so two ascending lists of the same fields start alike. */
  lemma SameHead(a: seq<Field>, b: seq<Field>)
    requires Ascending(a) && Ascending(b) && a != [] && b != []
    requires MeaningFields(a).Keys == MeaningFields(b).Keys
    ensures a[0].key == b[0].key
  {
    MeaningKeys(b, a[0].key);
    MeaningKeys(a, b[0].key);
    assert a[0].key in MeaningFields(a) && b[0].key in MeaningFields(b);
    var i :| 0 <= i < |b| && b[i].key == a[0].key;
    var k :| 0 <= k < |a| && a[k].key == b[0].key;
    if i > 0 && k > 0 {
      LessIsTransitive(a[0].key, b[0].key, a[0].key);
      LessIsStrict(a[0].key);
    }
  }

  lemma {:induction false} TailMeaning(fs: seq<Field>)
    requires fs != [] && Ascending(fs)
    ensures MeaningFields(fs[1..]) == MeaningFields(fs) - {fs[0].key}
  {
    var tail := fs[1..];
    forall i | 0 <= i < |tail| ensures tail[i].key != fs[0].key {
      LessIsStrict(fs[0].key);
      assert Less(fs[0].key, fs[i + 1].key);
    }
    MeaningKeys(tail, fs[0].key);
  }

  lemma NoFields(fs: seq<Field>)
    ensures fs != [] <==> MeaningFields(fs) != map[]
  {
    if fs != [] {
      assert fs[0].key in MeaningFields(fs);
    }
  }

  /** A value has one ordered form. */
  lemma {:induction false} OrderedUnique(a: Json, b: Json)
    requires Ordered(a) && Ordered(b) && Meaning(a) == Meaning(b)
    ensures a == b
    decreases a, 1
  {
    match a
    case Arr(items) =>
      forall i | 0 <= i < |items| ensures items[i] == b.items[i] {
        assert MeaningItems(items)[i] == MeaningItems(b.items)[i];
        OrderedUnique(items[i], b.items[i]);
      }
    case Obj(fs) => OrderedFieldsUnique(a, fs, b.fields);
    case _ =>
  }

  lemma {:induction false} OrderedFieldsUnique(parent: Json, a: seq<Field>, b: seq<Field>)
    requires forall i :: 0 <= i < |a| ==> a[i].value < parent && Ordered(a[i].value)
    requires forall i :: 0 <= i < |b| ==> Ordered(b[i].value)
    requires Ascending(a) && Ascending(b) && MeaningFields(a) == MeaningFields(b)
    ensures a == b
    decreases parent, 0, |a|
  {
    NoFields(a);
    NoFields(b);
    if a != [] {
      assert a[0].key in MeaningFields(b);
      SameHead(a, b);
      var key := a[0].key;
      assert MeaningFields(a)[key] == Meaning(a[0].value) && MeaningFields(b)[key] == Meaning(b[0].value);
      OrderedUnique(a[0].value, b[0].value);
      TailMeaning(a);
      TailMeaning(b);
      OrderedFieldsUnique(parent, a[1..], b[1..]);
      assert a == [a[0]] + a[1..] && b == [b[0]] + b[1..];
    }
  }

  /** What Python can hold and print: no repeated keys, floats as their `repr`. */
  predicate Printable(j: Json) { WellFormed(j) && FloatsOk(j) }

  /** Two values have the same canonical text iff they are the same value up to key order, at every depth. */
  lemma CanonicalIdentifies(a: Json, b: Json)
    requires Printable(a) && Printable(b)
    ensures Canonical(a) == Canonical(b) <==> Meaning(a) == Meaning(b)
  {
    SortedEffect(a);
    SortedEffect(b);
    if Canonical(a) == Canonical(b) {
      assert Show(Sorted(a)) + "" == Show(Sorted(b)) + "";
      ShowUnique(Sorted(a), Sorted(b), "", "");
    }
    if Meaning(a) == Meaning(b) {
      OrderedUnique(Sorted(a), Sorted(b));
    }
  }

  /** The content hash of a spec, for a hash function of its canonical text. */
  function SpecHash<H>(hash: string -> H, spec: Json): H { hash(Canonical(spec)) }

  /** With a collision-free hash equal hashes mean equal specs, and only those. */
  lemma SpecHashIdentifies<H(!new)>(hash: string -> H, a: Json, b: Json)
    requires Printable(a) && Printable(b)
    requires forall x, y :: hash(x) == hash(y) ==> x == y
    ensures SpecHash(hash, a) == SpecHash(hash, b) <==> Meaning(a) == Meaning(b)
  {
    CanonicalIdentifies(a, b);
  }
}
