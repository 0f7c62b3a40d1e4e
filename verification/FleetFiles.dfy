/**
 The fleet files of a reef repository: what is written for an agent, and how its entry is read back.

 The reader takes the part of TOML that such a file uses, line by line: headers of dotted bare keys, and pairs of
 a bare key with a quoted string, a number or a list of one string.
 */
module FleetFiles {
  import opened Options
  import opened Text
  import opened PlainText
  import opened ReefNames

  // ----- a reader for the part of TOML that fleet files use (TOML v1.0.0) -----

  datatype Value = Str(text: string) | Digits(text: string) | List(items: seq<string>)

  /** Where a value stands: in a table, itself a path, under a key. */
  datatype Slot = Slot(table: seq<string>, key: string)

  datatype Doc = Doc(values: map<Slot, Value>, tables: set<seq<string>>)

  datatype Line = Blank | Header(path: seq<string>) | Pair(key: string, value: Value) | Malformed

  predicate BareChar(c: char) { IsDigit(c) || 'a' <= c <= 'z' || 'A' <= c <= 'Z' || c in {'_', '-'} }

  predicate Bare(s: string) { s != "" && forall i :: 0 <= i < |s| ==> BareChar(s[i]) }

  predicate AllBare(path: seq<string>) { forall i :: 0 <= i < |path| ==> Bare(path[i]) }

  /** A character that stands for itself between double quotes. */
  predicate PlainChar(c: char) {
    c == '\t' || (c >= ' ' && c !in {'"', '\\', '\U{7f}'})
  }

  predicate Quotable(s: string) { forall i :: 0 <= i < |s| ==> PlainChar(s[i]) }

  function SkipBlanks(s: string): string {
    if s != "" && s[0] in {' ', '\t'} then SkipBlanks(s[1..]) else s
  }

  /** The longest start of bare-key characters. */
  function BareStart(s: string): (r: string)
    ensures |r| <= |s|
  {
    if s != "" && BareChar(s[0]) then [s[0]] + BareStart(s[1..]) else ""
  }

  predicate Quoted(s: string) {
    |s| >= 2 && s[0] == '"' && s[|s| - 1] == '"' && Quotable(s[1..|s| - 1])
  }

  function ReadValue(s: string): Option<Value> {
    if Quoted(s) then Some(Str(s[1..|s| - 1]))
    else if IsIndex(s) then Some(Digits(s))
    else if |s| >= 2 && s[0] == '[' && s[|s| - 1] == ']' && Quoted(s[1..|s| - 1]) then
      Some(List([s[2..|s| - 2]]))
    else None
  }

  function ReadLine(line: string): Line {
    var s := SkipBlanks(line);
    if s == "" then Blank
    else if s[0] == '[' then
      if |s| < 2 || s[|s| - 1] != ']' then Malformed
      else
        var path := Split(s[1..|s| - 1], '.');
        if AllBare(path) then Header(path) else Malformed
    else
      var key := BareStart(s);
      var rest := SkipBlanks(s[|key|..]);
      if key == "" || rest == "" || rest[0] != '=' then Malformed
      else
        match ReadValue(SkipBlanks(rest[1..]))
        case None => Malformed
        case Some(v) => Pair(key, v)
  }

  /** A key may be set once, and not where a table is. */
  predicate Free(doc: Doc, slot: Slot) {
    slot !in doc.values && forall t | t in doc.tables :: !(slot.table + [slot.key] <= t)
  }

  /** A table may be declared once, and not at a value or below one. */
  predicate Declarable(doc: Doc, path: seq<string>) {
    path !in doc.tables && forall s | s in doc.values :: !(s.table + [s.key] <= path)
  }

  function Load(lines: seq<string>, table: seq<string>, doc: Doc): Option<Doc> {
    if lines == [] then Some(doc)
    else
      match ReadLine(lines[0])
      case Blank => Load(lines[1..], table, doc)
      case Malformed => None
      case Header(path) =>
        if Declarable(doc, path) then Load(lines[1..], path, doc.(tables := doc.tables + {path})) else None
      case Pair(key, value) =>
        var slot := Slot(table, key);
        if Free(doc, slot) then Load(lines[1..], table, doc.(values := doc.values[slot := value])) else None
  }

  function Toml(text: string): Option<Doc> {
    Load(Split(text, '\n'), [], Doc(map[], {}))
  }

  // ----- the files -----

  /** An agent's environment, a dict in its own order. */
  datatype Var = Var(key: string, value: string)

  function Width(env: seq<Var>): nat {
    if env == [] then 0
    else
      var rest := Width(env[1..]);
      if |env[0].key| > rest then |env[0].key| else rest
  }

  function Blanks(n: nat): string { if n == 0 then "" else " " + Blanks(n - 1) }

  /** `s.ljust(width)`. */
  function LJust(s: string, width: nat): string {
    s + Blanks(if width > |s| then width - |s| else 0)
  }

  function Quote(s: string): string { "\"" + s + "\"" }

  function VarLines(env: seq<Var>, width: nat): seq<string> {
    if env == [] then []
    else [LJust(env[0].key, width) + " = " + Quote(env[0].value)] + VarLines(env[1..], width)
  }

  function FleetHead(name: string, role: string, owner: string): seq<string> {
    [ "version = 1",
      "",
      "[agents." + name + "]",
      "role  = " + Quote(role),
      "owner = " + Quote(owner),
      "",
      "[agents." + name + ".env]" ]
  }

  function FleetLines(name: string, role: string, owner: string, env: seq<Var>): seq<string> {
    FleetHead(name, role, owner) + VarLines(env, Width(env))
  }

  /** The file declaring an agent; an empty environment has no longest key and raises. */
  function FleetToml(name: string, role: string, owner: string, env: seq<Var>): Option<string> {
    if env == [] then None else Some(Join(FleetLines(name, role, owner, env), "\n") + "\n")
  }

  /** The tombstone of a purged agent. */
  function PurgeToml(name: string): string {
    "version = 1\npurge = [" + Quote(name) + "]\n"
  }

  datatype Entry = Entry(role: Value, owner: Value, env: map<string, Value>)

  function TableOf(values: map<Slot, Value>, table: seq<string>): map<string, Value> {
    var keys := set s | s in values && s.table == table :: s.key;
    map k | k in keys && Slot(table, k) in values :: values[Slot(table, k)]
  }

  lemma TableKeys(values: map<Slot, Value>, table: seq<string>, k: string)
    ensures k in TableOf(values, table) <==> Slot(table, k) in values
    ensures k in TableOf(values, table) ==> TableOf(values, table)[k] == values[Slot(table, k)]
  {
  }

  /** The agent that a file declares, if it is readable and declares a role and an owner for it. */
  function FleetEntry(name: string, text: string): Option<Entry> {
    match Toml(text)
    case None => None
    case Some(doc) => EntryIn(doc.values, name)
  }

  function EntryIn(values: map<Slot, Value>, name: string): Option<Entry> {
    var role, owner := Slot(["agents", name], "role"), Slot(["agents", name], "owner");
    if role !in values || owner !in values then None
    else Some(Entry(values[role], values[owner], TableOf(values, ["agents", name, "env"])))
  }

  // ----- reading the written lines -----

  predicate EnvOk(env: seq<Var>) {
    && (forall i :: 0 <= i < |env| ==> Bare(env[i].key) && Quotable(env[i].value))
    && (forall i, j :: 0 <= i < j < |env| ==> env[i].key != env[j].key)
  }

  function Dict(env: seq<Var>): map<string, Value> {
    if env == [] then map[] else map[env[0].key := Str(env[0].value)] + Dict(env[1..])
  }

  lemma {:induction false} SkipPadding(n: nat, s: string)
    requires s == "" || s[0] !in {' ', '\t'}
    ensures SkipBlanks(Blanks(n) + s) == s
  {
    if n == 0 {
      assert "" + s == s;
    } else {
      assert (Blanks(n) + s)[1..] == Blanks(n - 1) + s;
      SkipPadding(n - 1, s);
    }
  }

  lemma {:induction false} BareStartOf(key: string, rest: string)
    requires forall i :: 0 <= i < |key| ==> BareChar(key[i])
    requires rest == "" || !BareChar(rest[0])
    ensures BareStart(key + rest) == key
  {
    if key == "" {
      assert "" + rest == rest;
    } else {
      assert (key + rest)[1..] == key[1..] + rest;
      BareStartOf(key[1..], rest);
    }
  }

  lemma QuoteReads(value: string)
    requires Quotable(value)
    ensures ReadValue(Quote(value)) == Some(Str(value)) && Quoted(Quote(value))
  {
    var q := Quote(value);
    assert q[1..|q| - 1] == value;
  }

  lemma SkipOne(text: string)
    requires text == "" || text[0] !in {' ', '\t'}
    ensures SkipBlanks(" " + text) == text && (" " + text)[1..] == text
  {
    assert (" " + text)[1..] == text;
  }

  lemma PairText(key: string, n: nat, text: string)
    ensures key + Blanks(n) + " = " + text == key + (Blanks(n + 1) + ("= " + text))
  {
    BlanksEnd(n);
  }

  /** A bare key, any number of blanks, and the text of a value read as that pair. */
  lemma PairReads(key: string, n: nat, text: string, value: Value)
    requires Bare(key) && ReadValue(text) == Some(value) && text[0] !in {' ', '\t'}
    ensures ReadLine(key + Blanks(n) + " = " + text) == Pair(key, value)
  {
    var rest := Blanks(n + 1) + ("= " + text);
    PairText(key, n, text);
    assert rest[0] == ' ';
    BareStartOf(key, rest);
    assert (key + rest)[|key|..] == rest;
    SkipPadding(n + 1, "= " + text);
    assert ("= " + text)[1..] == " " + text;
    SkipOne(text);
    assert BareChar(key[0]) && (key + rest)[0] == key[0];
    assert SkipBlanks(key + rest) == key + rest;
  }

  lemma VarReads(key: string, n: nat, value: string)
    requires Bare(key) && Quotable(value)
    ensures ReadLine(key + Blanks(n) + " = " + Quote(value)) == Pair(key, Str(value))
  {
    QuoteReads(value);
    PairReads(key, n, Quote(value), Str(value));
  }

  lemma {:induction false} BlanksEnd(n: nat)
    ensures Blanks(n) + " " == Blanks(n + 1)
  {
    if n > 0 {
      BlanksEnd(n - 1);
      assert Blanks(n) + " " == " " + (Blanks(n - 1) + " ");
    }
  }

  lemma BareHasNone(s: string, c: char)
    requires Bare(s) && !BareChar(c)
    ensures c !in s
  {
  }

  lemma BarePath(path: seq<string>)
    requires path != [] && AllBare(path)
    ensures Split(Join(path, "."), '.') == path
  {
    forall i | 0 <= i < |path|
      ensures '.' !in path[i]
    {
      BareHasNone(path[i], '.');
    }
    SplitJoin(path, '.');
  }

  lemma HeaderReads(path: seq<string>)
    requires path != [] && AllBare(path)
    ensures ReadLine("[" + Join(path, ".") + "]") == Header(path)
  {
    BarePath(path);
    var line := "[" + Join(path, ".") + "]";
    assert line[1..|line| - 1] == Join(path, ".");
  }

  lemma AgentHeader(name: string)
    requires Bare(name)
    ensures ReadLine("[agents." + name + "]") == Header(["agents", name])
  {
    HeaderReads(["agents", name]);
    assert ["agents", name][1..] == [name];
    assert "[" + Join(["agents", name], ".") + "]" == "[agents." + name + "]";
  }

  lemma JoinThree(a: string, b: string, c: string, sep: string)
    ensures Join([a, b, c], sep) == a + sep + (b + sep + c)
  {
    assert [a, b, c][1..] == [b, c] && [b, c][1..] == [c];
    assert Join([c], sep) == c;
    assert Join([b, c], sep) == b + sep + c;
  }

  lemma EnvHeader(name: string)
    requires Bare(name)
    ensures ReadLine("[agents." + name + ".env]") == Header(["agents", name, "env"])
  {
    HeaderReads(["agents", name, "env"]);
    JoinThree("agents", name, "env", ".");
    assert "[" + ("agents" + "." + (name + "." + "env")) + "]" == "[agents." + name + ".env]";
  }

  /** The values once a table's variables are read. */
  function Added(values: map<Slot, Value>, table: seq<string>, env: seq<Var>): map<Slot, Value>
    decreases |env|
  {
    if env == [] then values else Added(values[Slot(table, env[0].key) := Str(env[0].value)], table, env[1..])
  }

  /** No table lies below this one. */
  predicate Lowest(doc: Doc, table: seq<string>) {
    forall t | t in doc.tables :: !(table < t)
  }

  predicate Unset(values: map<Slot, Value>, table: seq<string>, env: seq<Var>) {
    forall i :: 0 <= i < |env| ==> Slot(table, env[i].key) !in values
  }

  lemma KeyIsFree(doc: Doc, table: seq<string>, key: string)
    requires Lowest(doc, table) && Slot(table, key) !in doc.values
    ensures Free(doc, Slot(table, key))
  {
    forall t | t in doc.tables
      ensures !(table + [key] <= t)
    {
      assert table + [key] <= t ==> table < t;
    }
  }

  lemma {:induction false} VarsLoad(env: seq<Var>, width: nat, table: seq<string>, doc: Doc)
    requires EnvOk(env) && Lowest(doc, table) && Unset(doc.values, table, env)
    ensures Load(VarLines(env, width), table, doc) == Some(Doc(Added(doc.values, table, env), doc.tables))
    decreases |env|
  {
    if env != [] {
      var key, value := env[0].key, env[0].value;
      var line := LJust(key, width) + " = " + Quote(value);
      VarReads(key, if width > |key| then width - |key| else 0, value);
      KeyIsFree(doc, table, key);
      LoadPair(line, key, Str(value), VarLines(env[1..], width), table, doc);
      VarsLoad(env[1..], width, table, doc.(values := doc.values[Slot(table, key) := Str(value)]));
    }
  }

  lemma {:induction false} AddedElsewhere(values: map<Slot, Value>, table: seq<string>, env: seq<Var>, slot: Slot)
    requires forall i :: 0 <= i < |env| ==> slot != Slot(table, env[i].key)
    ensures slot in Added(values, table, env) <==> slot in values
    ensures slot in values ==> Added(values, table, env)[slot] == values[slot]
    decreases |env|
  {
    if env != [] {
      AddedElsewhere(values[Slot(table, env[0].key) := Str(env[0].value)], table, env[1..], slot);
    }
  }

  lemma {:induction false} DictKeys(env: seq<Var>, key: string)
    ensures key in Dict(env) <==> exists i :: 0 <= i < |env| && env[i].key == key
  {
    if env != [] {
      DictKeys(env[1..], key);
      if key in Dict(env[1..]) {
        var i :| 0 <= i < |env[1..]| && env[1..][i].key == key;
        assert env[i + 1].key == key;
      } else if i :| 0 <= i < |env| && env[i].key == key {
        assert i > 0 ==> env[1..][i - 1].key == key;
      }
    }
  }

  lemma {:induction false} AddedHere(values: map<Slot, Value>, table: seq<string>, env: seq<Var>, key: string)
    requires EnvOk(env) && Slot(table, key) !in values
    ensures var slot := Slot(table, key);
      && (slot in Added(values, table, env) <==> key in Dict(env))
      && (key in Dict(env) ==> Added(values, table, env)[slot] == Dict(env)[key])
    decreases |env|
  {
    if env != [] {
      var next := values[Slot(table, env[0].key) := Str(env[0].value)];
      if env[0].key == key {
        DictKeys(env[1..], key);
        AddedElsewhere(next, table, env[1..], Slot(table, key));
      } else {
        AddedHere(next, table, env[1..], key);
      }
    }
  }

  lemma TableOfAdded(values: map<Slot, Value>, table: seq<string>, env: seq<Var>)
    requires EnvOk(env) && forall s | s in values :: s.table != table
    ensures TableOf(Added(values, table, env), table) == Dict(env)
  {
    var added := Added(values, table, env);
    forall k
      ensures k in TableOf(added, table) <==> k in Dict(env)
      ensures k in Dict(env) ==> TableOf(added, table)[k] == Dict(env)[k]
    {
      TableKeys(added, table, k);
      AddedHere(values, table, env, k);
    }
  }

  // ----- the whole file -----

  const VERSION := map[Slot([], "version") := Digits("1")]

  function Described(name: string, role: string, owner: string): map<Slot, Value> {
    VERSION[Slot(["agents", name], "role") := Str(role)][Slot(["agents", name], "owner") := Str(owner)]
  }

  /** The document before the environment is read. */
  function Declared(name: string, role: string, owner: string): Doc {
    Doc(Described(name, role, owner), {["agents", name], ["agents", name, "env"]})
  }

  lemma VersionReads()
    ensures ReadLine("version = 1") == Pair("version", Digits("1"))
  {
    assert Bare("version");
    assert ReadValue("1") == Some(Digits("1"));
    PairReads("version", 0, "1", Digits("1"));
    assert "version" + Blanks(0) + " = " + "1" == "version = 1";
  }

  lemma RoleAndOwnerRead(role: string, owner: string)
    requires Quotable(role) && Quotable(owner)
    ensures ReadLine("role  = " + Quote(role)) == Pair("role", Str(role))
    ensures ReadLine("owner = " + Quote(owner)) == Pair("owner", Str(owner))
  {
    VarReads("role", 1, role);
    assert Blanks(1) == " ";
    assert "role" + Blanks(1) + " = " + Quote(role) == "role  = " + Quote(role);
    VarReads("owner", 0, owner);
    assert "owner" + Blanks(0) + " = " + Quote(owner) == "owner = " + Quote(owner);
  }

  lemma LoadBlank(lines: seq<string>, table: seq<string>, doc: Doc)
    ensures Load([""] + lines, table, doc) == Load(lines, table, doc)
  {
    assert ([""] + lines)[1..] == lines;
  }

  lemma LoadHeader(line: string, path: seq<string>, lines: seq<string>, table: seq<string>, doc: Doc)
    requires ReadLine(line) == Header(path) && Declarable(doc, path)
    ensures Load([line] + lines, table, doc) == Load(lines, path, doc.(tables := doc.tables + {path}))
  {
    assert ([line] + lines)[1..] == lines;
  }

  lemma LoadPair(line: string, key: string, value: Value, lines: seq<string>, table: seq<string>, doc: Doc)
    requires ReadLine(line) == Pair(key, value) && Free(doc, Slot(table, key))
    ensures Load([line] + lines, table, doc)
         == Load(lines, table, doc.(values := doc.values[Slot(table, key) := value]))
  {
    assert ([line] + lines)[1..] == lines;
  }

  lemma VersionLoads(rest: seq<string>)
    ensures Load(["version = 1"] + rest, [], Doc(map[], {})) == Load(rest, [], Doc(VERSION, {}))
  {
    VersionReads();
    LoadPair("version = 1", "version", Digits("1"), rest, [], Doc(map[], {}));
  }

  lemma AgentLoads(name: string, rest: seq<string>)
    requires Bare(name)
    ensures Load(["[agents." + name + "]"] + rest, [], Doc(VERSION, {}))
         == Load(rest, ["agents", name], Doc(VERSION, {["agents", name]}))
  {
    AgentHeader(name);
    var path := ["agents", name];
    assert ([] + ["version"])[0] != path[0];
    LoadHeader("[agents." + name + "]", path, rest, [], Doc(VERSION, {}));
    assert {} + {path} == {path};
  }

  lemma RoleAndOwnerLoad(name: string, role: string, owner: string, rest: seq<string>)
    requires Quotable(role) && Quotable(owner)
    ensures Load(["role  = " + Quote(role)] + (["owner = " + Quote(owner)] + rest), ["agents", name],
        Doc(VERSION, {["agents", name]}))
      == Load(rest, ["agents", name], Doc(Described(name, role, owner), {["agents", name]}))
  {
    var agent := ["agents", name];
    RoleAndOwnerRead(role, owner);
    var before := Doc(VERSION, {agent});
    KeyIsFree(before, agent, "role");
    LoadPair("role  = " + Quote(role), "role", Str(role), ["owner = " + Quote(owner)] + rest, agent, before);
    var next := before.(values := VERSION[Slot(agent, "role") := Str(role)]);
    KeyIsFree(next, agent, "owner");
    LoadPair("owner = " + Quote(owner), "owner", Str(owner), rest, agent, next);
  }

  lemma EnvDeclarable(name: string, role: string, owner: string)
    ensures Declarable(Doc(Described(name, role, owner), {["agents", name]}), ["agents", name, "env"])
  {
    var path := ["agents", name, "env"];
    forall s | s in Described(name, role, owner)
      ensures !(s.table + [s.key] <= path)
    {
      var there := s.table + [s.key];
      if s == Slot([], "version") {
        assert there[0] != path[0];
      } else {
        assert there[2] != path[2];
      }
    }
  }

  lemma EnvTableLoads(name: string, role: string, owner: string, rest: seq<string>)
    requires Bare(name)
    ensures Load(["[agents." + name + ".env]"] + rest, ["agents", name],
        Doc(Described(name, role, owner), {["agents", name]}))
      == Load(rest, ["agents", name, "env"], Declared(name, role, owner))
  {
    EnvHeader(name);
    EnvDeclarable(name, role, owner);
    var before := Doc(Described(name, role, owner), {["agents", name]});
    LoadHeader("[agents." + name + ".env]", ["agents", name, "env"], rest, ["agents", name], before);
    assert before.tables + {["agents", name, "env"]} == Declared(name, role, owner).tables;
  }

  lemma SevenAndMore(a: string, b: string, c: string, d: string, e: string, f: string, g: string, rest: seq<string>)
    ensures [a, b, c, d, e, f, g] + rest == [a] + ([b] + ([c] + ([d] + ([e] + ([f] + ([g] + rest))))))
  {
  }

  /** The fixed lines, one by one. */
  lemma HeadLoads(name: string, role: string, owner: string, rest: seq<string>)
    requires Bare(name) && Quotable(role) && Quotable(owner)
    ensures Load(FleetHead(name, role, owner) + rest, [], Doc(map[], {}))
         == Load(rest, ["agents", name, "env"], Declared(name, role, owner))
  {
    var envHeader := ["[agents." + name + ".env]"] + rest;
    var pairs := ["role  = " + Quote(role)] + (["owner = " + Quote(owner)] + ([""] + envHeader));
    var header := ["[agents." + name + "]"] + pairs;
    SevenAndMore("version = 1", "", "[agents." + name + "]", "role  = " + Quote(role), "owner = " + Quote(owner), "",
      "[agents." + name + ".env]", rest);
    VersionLoads([""] + header);
    LoadBlank(header, [], Doc(VERSION, {}));
    AgentLoads(name, pairs);
    RoleAndOwnerLoad(name, role, owner, [""] + envHeader);
    LoadBlank(envHeader, ["agents", name], Doc(Described(name, role, owner), {["agents", name]}));
    EnvTableLoads(name, role, owner, rest);
  }

  lemma {:induction false} LoadThenBlank(lines: seq<string>, table: seq<string>, doc: Doc)
    ensures Load(lines + [""], table, doc) == Load(lines, table, doc)
    decreases |lines|
  {
    if lines == [] {
      assert [] + [""] == [""];
    } else {
      assert (lines + [""])[1..] == lines[1..] + [""];
      match ReadLine(lines[0])
      case Blank => LoadThenBlank(lines[1..], table, doc);
      case Malformed =>
      case Header(path) => LoadThenBlank(lines[1..], path, doc.(tables := doc.tables + {path}));
      case Pair(key, value) =>
        LoadThenBlank(lines[1..], table, doc.(values := doc.values[Slot(table, key) := value]));
    }
  }

  lemma TomlOfLines(lines: seq<string>)
    requires lines != [] && forall i :: 0 <= i < |lines| ==> '\n' !in lines[i]
    ensures Toml(Join(lines, "\n") + "\n") == Load(lines, [], Doc(map[], {}))
  {
    JoinSnoc(lines, "", "\n");
    assert Join(lines, "\n") + "\n" == Join(lines + [""], "\n");
    SplitJoin(lines + [""], '\n');
    LoadThenBlank(lines, [], Doc(map[], {}));
  }

  lemma {:induction false} BlanksAreOneLine(n: nat)
    ensures '\n' !in Blanks(n)
  {
    if n > 0 {
      BlanksAreOneLine(n - 1);
    }
  }

  lemma {:induction false} VarLinesAreLines(env: seq<Var>, width: nat)
    requires EnvOk(env)
    ensures forall i :: 0 <= i < |VarLines(env, width)| ==> '\n' !in VarLines(env, width)[i]
  {
    if env != [] {
      VarLinesAreLines(env[1..], width);
      var key, value := env[0].key, env[0].value;
      BlanksAreOneLine(if width > |key| then width - |key| else 0);
      assert '\n' !in key && '\n' !in value;
    }
  }

  lemma HeadLinesAreLines(name: string, role: string, owner: string)
    requires Bare(name) && Quotable(role) && Quotable(owner)
    ensures forall i :: 0 <= i < |FleetHead(name, role, owner)| ==> '\n' !in FleetHead(name, role, owner)[i]
  {
    assert '\n' !in name && '\n' !in role && '\n' !in owner;
  }

  lemma EnvLoads(name: string, role: string, owner: string, env: seq<Var>)
    requires EnvOk(env)
    ensures
      var table, doc := ["agents", name, "env"], Declared(name, role, owner);
      Load(VarLines(env, Width(env)), table, doc) == Some(Doc(Added(doc.values, table, env), doc.tables))
  {
    VarsLoad(env, Width(env), ["agents", name, "env"], Declared(name, role, owner));
  }

  lemma FleetTomlLoads(name: string, role: string, owner: string, env: seq<Var>)
    requires Bare(name) && Quotable(role) && Quotable(owner) && env != [] && EnvOk(env)
    ensures
      var doc := Declared(name, role, owner);
      Toml(FleetToml(name, role, owner, env).value)
      == Some(Doc(Added(doc.values, ["agents", name, "env"], env), doc.tables))
  {
    HeadLinesAreLines(name, role, owner);
    VarLinesAreLines(env, Width(env));
    TomlOfLines(FleetLines(name, role, owner, env));
    HeadLoads(name, role, owner, VarLines(env, Width(env)));
    EnvLoads(name, role, owner, env);
  }

  lemma EntryOf(name: string, role: string, owner: string, env: seq<Var>)
    requires EnvOk(env)
    ensures EntryIn(Added(Described(name, role, owner), ["agents", name, "env"], env), name)
         == Some(Entry(Str(role), Str(owner), Dict(env)))
  {
    var agent, table, before := ["agents", name], ["agents", name, "env"], Described(name, role, owner);
    assert |agent| != |table|;
    AddedElsewhere(before, table, env, Slot(agent, "role"));
    AddedElsewhere(before, table, env, Slot(agent, "owner"));
    TableOfAdded(before, table, env);
  }

  /**
   A declared agent is read back with its role, its owner and its environment, whatever the keys' padding, for
   every non-empty environment of bare keys and values that quote plainly.
   */
  lemma FleetFileReadsBack(name: string, role: string, owner: string, env: seq<Var>)
    requires Bare(name) && Quotable(role) && Quotable(owner) && env != [] && EnvOk(env)
    ensures FleetToml(name, role, owner, env).Some?
    ensures FleetEntry(name, FleetToml(name, role, owner, env).value)
         == Some(Entry(Str(role), Str(owner), Dict(env)))
  {
    FleetTomlLoads(name, role, owner, env);
    EntryOf(name, role, owner, env);
  }

  // ----- declaring an agent again -----

  /** `env | {key: value}`: a known key keeps its place. */
  function Put(env: seq<Var>, key: string, value: string): seq<Var> {
    if env == [] then [Var(key, value)]
    else if env[0].key == key then [Var(key, value)] + env[1..]
    else [env[0]] + Put(env[1..], key, value)
  }

  lemma {:induction false} PutKeys(env: seq<Var>, key: string, value: string)
    ensures forall i :: 0 <= i < |Put(env, key, value)| ==>
      Put(env, key, value)[i] == Var(key, value) || Put(env, key, value)[i] in env
  {
    if env != [] && env[0].key != key {
      PutKeys(env[1..], key, value);
    }
  }

  lemma {:induction false} PutOk(env: seq<Var>, key: string, value: string)
    requires EnvOk(env) && Bare(key) && Quotable(value)
    ensures EnvOk(Put(env, key, value))
  {
    if env != [] && env[0].key != key {
      PutOk(env[1..], key, value);
      PutKeys(env[1..], key, value);
    }
  }

  lemma {:induction false} DictOfPut(env: seq<Var>, key: string, value: string)
    requires EnvOk(env)
    ensures Dict(Put(env, key, value)) == Dict(env)[key := Str(value)]
  {
    if env == [] {
      assert Put(env, key, value)[1..] == [];
    } else if env[0].key == key {
      DictKeys(env[1..], key);
      assert Put(env, key, value)[1..] == env[1..];
    } else {
      DictOfPut(env[1..], key, value);
      assert Put(env, key, value)[1..] == Put(env[1..], key, value);
    }
  }

  /** Redeclaring an agent with a fresh token keeps its role, its owner and every other variable. */
  lemma RedeclaredReadsBack(name: string, role: string, owner: string, env: seq<Var>, key: string, token: string)
    requires Bare(name) && Quotable(role) && Quotable(owner) && EnvOk(env) && Bare(key) && Quotable(token)
    ensures Put(env, key, token) != []
    ensures FleetEntry(name, FleetToml(name, role, owner, Put(env, key, token)).value)
         == Some(Entry(Str(role), Str(owner), Dict(env)[key := Str(token)]))
  {
    PutOk(env, key, token);
    DictOfPut(env, key, token);
    FleetFileReadsBack(name, role, owner, Put(env, key, token));
  }

  // ----- tombstones -----

  lemma ListReads(name: string)
    requires Quotable(name)
    ensures ReadValue("[" + Quote(name) + "]") == Some(List([name]))
  {
    var list := "[" + Quote(name) + "]";
    assert list[1..|list| - 1] == Quote(name);
    QuoteReads(name);
    assert list[2..|list| - 2] == name;
  }

  lemma PurgeReads(name: string)
    requires Quotable(name)
    ensures ReadLine("purge = [" + Quote(name) + "]") == Pair("purge", List([name]))
  {
    var list := "[" + Quote(name) + "]";
    ListReads(name);
    PairReads("purge", 0, list, List([name]));
    assert "purge" + Blanks(0) + " = " + list == "purge = [" + Quote(name) + "]";
  }

  lemma PurgeLoads(name: string)
    requires Quotable(name)
    ensures Load(["purge = [" + Quote(name) + "]"], [], Doc(VERSION, {}))
         == Some(Doc(VERSION[Slot([], "purge") := List([name])], {}))
  {
    PurgeReads(name);
    var purge := "purge = [" + Quote(name) + "]";
    assert [purge] + [] == [purge];
    LoadPair(purge, "purge", List([name]), [], [], Doc(VERSION, {}));
  }

  lemma PurgeLines(name: string)
    requires Quotable(name)
    ensures Toml(PurgeToml(name)) == Load(["version = 1"] + ["purge = [" + Quote(name) + "]"], [], Doc(map[], {}))
  {
    var lines := ["version = 1"] + ["purge = [" + Quote(name) + "]"];
    assert lines[1..] == ["purge = [" + Quote(name) + "]"];
    assert Join(lines, "\n") + "\n" == PurgeToml(name);
    TomlOfLines(lines);
  }

  /** A tombstone is readable and declares nobody, the purged agent included. */
  lemma TombstoneReadsAsNone(purged: string, name: string)
    requires Quotable(purged)
    ensures Toml(PurgeToml(purged)).Some?
    ensures FleetEntry(name, PurgeToml(purged)) == None
  {
    PurgeLines(purged);
    VersionLoads(["purge = [" + Quote(purged) + "]"]);
    PurgeLoads(purged);
  }

  /** A name that reef accepts can head a table. */
  lemma ReefNameIsBare(name: string)
    requires ReefName(name)
    ensures Bare(name)
  {
    forall i | 0 <= i < |name|
      ensures BareChar(name[i])
    {
    }
  }

  /** The file written under the fleet name of any agent id reads back under that name. */
  lemma AgentFileReadsBack(agentId: string, role: string, owner: string, env: seq<Var>)
    requires AgentId(agentId) && Quotable(role) && Quotable(owner) && env != [] && EnvOk(env)
    ensures ReefName(FleetName(agentId))
    ensures FleetEntry(FleetName(agentId), FleetToml(FleetName(agentId), role, owner, env).value)
         == Some(Entry(Str(role), Str(owner), Dict(env)))
  {
    FleetNameIsValid(agentId);
    ReefNameIsBare(FleetName(agentId));
    FleetFileReadsBack(FleetName(agentId), role, owner, env);
  }
}
