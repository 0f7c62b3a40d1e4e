/** JSON Pointers: reading and writing. */
module Pointer {
  // RFC 6901 sections 3 and 4. Reading yields null where there is nothing. Writing creates missing objects on
  // the way, and leaves the model as it is at the root, through a literal or null, or past a list's end.

  import opened Options
  import opened Text
  import opened Json

  type Tokens = seq<string>

  // ----- reference tokens and their escaped form -----

  function Escape(key: string): string {
    ReplaceChar(ReplaceChar(key, '~', "~0"), '/', "~1")
  }

  function Unescape(key: string): string {
    ReplacePair(ReplacePair(key, '~', '1', "/"), '~', '0', "~")
  }

  function UnescapeAll(keys: seq<string>): Tokens {
    if keys == [] then [] else [Unescape(keys[0])] + UnescapeAll(keys[1..])
  }

  /** The reference tokens of a pointer; None for a string that is not one. */
  function TokensOf(path: string): Option<Tokens> {
    var parts := Split(path, '/');
    if parts[0] != "" then None else Some(UnescapeAll(parts[1..]))
  }

  /** The pointer that joins escaped tokens, each after a slash. */
  function PointerOf(tokens: Tokens): string {
    if tokens == [] then "" else "/" + Escape(tokens[0]) + PointerOf(tokens[1..])
  }

  lemma {:induction false} EscapeHasNoSlash(key: string)
    ensures '/' !in Escape(key)
  {
    if key != "" {
      EscapeHasNoSlash(key[1..]);
      EscapeSplits(key);
    }
  }

  /** What Escape does to one character. */
  function EscapeOf(c: char): string {
    if c == '~' then "~0" else if c == '/' then "~1" else [c]
  }

  lemma {:induction false} ReplaceCharAppend(a: string, b: string, c: char, r: string)
    ensures ReplaceChar(a + b, c, r) == ReplaceChar(a, c, r) + ReplaceChar(b, c, r)
  {
    if a == "" {
      assert a + b == b;
    } else {
      assert (a + b)[1..] == a[1..] + b;
      ReplaceCharAppend(a[1..], b, c, r);
    }
  }

  lemma EscapeSplits(key: string)
    requires key != ""
    ensures Escape(key) == EscapeOf(key[0]) + Escape(key[1..])
  {
    var first := if key[0] == '~' then "~0" else [key[0]];
    var rest := ReplaceChar(key[1..], '~', "~0");
    ReplaceCharAppend(first, rest, '/', "~1");
    assert ReplaceChar(first, '/', "~1") == EscapeOf(key[0]) by {
      assert first[1..] == "" || (first[1..] == "0" && first[1..][1..] == "");
    }
  }

  lemma PairSkips(x: char, rest: string, a: char, b: char, r: string)
    requires x != a
    ensures ReplacePair([x] + rest, a, b, r) == [x] + ReplacePair(rest, a, b, r)
  {
    assert ([x] + rest)[1..] == rest;
  }

  lemma PairHits(rest: string, a: char, b: char, r: string)
    ensures ReplacePair([a, b] + rest, a, b, r) == r + ReplacePair(rest, a, b, r)
  {
    assert ([a, b] + rest)[2..] == rest;
  }

  lemma PairMisses(y: char, rest: string, a: char, b: char, r: string)
    requires y != b
    ensures ReplacePair([a, y] + rest, a, b, r) == [a] + ReplacePair([y] + rest, a, b, r)
  {
    assert ([a, y] + rest)[1..] == [y] + rest;
  }

  /** Undoing `~1` first leaves exactly the `~` to `~0` half of the escaping. */
  lemma {:induction false} UnslashEscape(key: string)
    ensures ReplacePair(Escape(key), '~', '1', "/") == ReplaceChar(key, '~', "~0")
  {
    if key != "" {
      EscapeSplits(key);
      UnslashEscape(key[1..]);
      var rest := Escape(key[1..]);
      if key[0] == '~' {
        PairMisses('0', rest, '~', '1', "/");
        PairSkips('0', rest, '~', '1', "/");
      } else if key[0] == '/' {
        PairHits(rest, '~', '1', "/");
      } else {
        PairSkips(key[0], rest, '~', '1', "/");
      }
    }
  }

  lemma {:induction false} UntildeTilde(key: string)
    ensures ReplacePair(ReplaceChar(key, '~', "~0"), '~', '0', "~") == key
  {
    if key != "" {
      UntildeTilde(key[1..]);
      var rest := ReplaceChar(key[1..], '~', "~0");
      if key[0] == '~' {
        PairHits(rest, '~', '0', "~");
      } else {
        PairSkips(key[0], rest, '~', '0', "~");
      }
      assert key == [key[0]] + key[1..];
    }
  }

  /** Unescaping undoes escaping for every key: `~`, `/`, `~1` and the empty key included. */
  lemma UnescapeEscape(key: string)
    ensures Unescape(Escape(key)) == key
  {
    UnslashEscape(key);
    UntildeTilde(key);
  }

  function EscapeAll(tokens: Tokens): seq<string> {
    if tokens == [] then [] else [Escape(tokens[0])] + EscapeAll(tokens[1..])
  }

  lemma {:induction false} UnescapeEscapeAll(tokens: Tokens)
    ensures UnescapeAll(EscapeAll(tokens)) == tokens
  {
    if tokens != [] {
      UnescapeEscape(tokens[0]);
      UnescapeEscapeAll(tokens[1..]);
      assert EscapeAll(tokens)[1..] == EscapeAll(tokens[1..]);
    }
  }

  lemma PointerFirst(head: string, tokens: Tokens)
    requires tokens != []
    ensures head + PointerOf(tokens) == head + ['/'] + (Escape(tokens[0]) + PointerOf(tokens[1..]))
  {
    assert PointerOf(tokens) == ['/'] + (Escape(tokens[0]) + PointerOf(tokens[1..]));
  }

  lemma {:induction false} SplitPointer(head: string, tokens: Tokens)
    requires '/' !in head
    ensures Split(head + PointerOf(tokens), '/') == [head] + EscapeAll(tokens)
    decreases tokens
  {
    if tokens == [] {
      SplitWhole(head, '/');
      assert head + PointerOf(tokens) == head;
    } else {
      EscapeHasNoSlash(tokens[0]);
      SplitPointer(Escape(tokens[0]), tokens[1..]);
      PointerFirst(head, tokens);
      SplitHead(head, '/', Escape(tokens[0]) + PointerOf(tokens[1..]));
    }
  }

  /** Every token sequence has a pointer that reads back as that sequence. */
  lemma TokensOfPointer(tokens: Tokens)
    ensures TokensOf(PointerOf(tokens)) == Some(tokens)
  {
    SplitPointer("", tokens);
    assert "" + PointerOf(tokens) == PointerOf(tokens);
    assert ([""] + EscapeAll(tokens))[1..] == EscapeAll(tokens);
    UnescapeEscapeAll(tokens);
  }

  lemma PointerInjective(a: Tokens, b: Tokens)
    requires PointerOf(a) == PointerOf(b)
    ensures a == b
  {
    TokensOfPointer(a);
    TokensOfPointer(b);
  }

  /** Different strings may still be the same pointer, so comparing paths as strings is not enough. */
  lemma TwoStringsOnePointer()
    ensures "/~" != "/~0"
    ensures TokensOf("/~") == TokensOf("/~0") == Some(["~"])
  {
    assert "/~"[1..] == "~" && "/~0"[1..] == "~0" && "~0"[1..] == "0" && "0"[1..] == "";
    assert Split("/~", '/') == ["", "~"] by { SplitHead("", '/', "~"); SplitWhole("~", '/'); assert "" + ['/'] + "~" == "/~"; }
    assert Split("/~0", '/') == ["", "~0"] by { SplitHead("", '/', "~0"); SplitWhole("~0", '/'); assert "" + ['/'] + "~0" == "/~0"; }
    assert Unescape("~") == "~" && Unescape("~0") == "~" by {
      assert ReplacePair("~0", '~', '1', "/") == "~0";
      assert "~0"[2..] == "";
    }
    assert ["", "~"][1..] == ["~"] && ["", "~0"][1..] == ["~0"];
    assert UnescapeAll(["~"]) == ["~"] && UnescapeAll(["~0"]) == ["~"];
  }

  // ----- reading -----

  /** The list element a token names, if there is one. */
  function Index(key: string, length: nat): (r: Option<nat>)
    ensures r.Some? ==> r.value < length
  {
    if IsIndex(key) && NatOf(key) < length then Some(NatOf(key)) else None
  }

  /** One step of a read: null where there is nothing. */
  function Step(at: Json, key: string): Json {
    match at
    case Arr(items) =>
      var i := Index(key, |items|);
      if i.Some? then items[i.value] else Null
    case Obj(fs) =>
      var v := Find(fs, key);
      if v.Some? then v.value else Null
    case _ => Null
  }

  function Follow(at: Json, tokens: Tokens): Json
    decreases tokens
  {
    if tokens == [] then at else Follow(Step(at, tokens[0]), tokens[1..])
  }

  /** The value at a pointer; null where there is none. */
  function Read(model: Json, path: string): Json {
    var tokens := TokensOf(path);
    if tokens.None? then Null else Follow(model, tokens.value)
  }

  // ----- writing -----

  /** Where a token leads a write: a list element, or an object's value, a missing one being created
      as an empty object. None through a literal, null or past a list's end. */
  function Place(at: Json, key: string): Option<Json> {
    match at
    case Arr(items) =>
      var i := Index(key, |items|);
      if i.Some? then Some(items[i.value]) else None
    case Obj(fs) =>
      var found := Find(fs, key);
      Some(if found.Some? then found.value else Obj([]))
    case _ => None
  }

  /** The same value with `child` at the place `key` leads to. */
  function Store(at: Json, key: string, child: Json): Json
    requires Place(at, key).Some?
  {
    match at
    case Arr(items) => Arr(items[Index(key, |items|).value := child])
    case Obj(fs) => Obj(Set(fs, key, child))
  }

  function Put(at: Json, tokens: Tokens, value: Json): Json
    decreases tokens
  {
    if tokens == [] then value
    else
      var place := Place(at, tokens[0]);
      if place.None? then at else Store(at, tokens[0], Put(place.value, tokens[1..], value))
  }

  datatype Write = Write(path: string, value: Json)

  /** One write: a no-op at the root and at a string that is no pointer. */
  function WriteOne(model: Json, w: Write): Json {
    var tokens := TokensOf(w.path);
    if tokens.None? || tokens.value == [] then model else Put(model, tokens.value, w.value)
  }

  /** The writes in turn. */
  function Written(model: Json, writes: seq<Write>): Json
    decreases writes
  {
    if writes == [] then model else Written(WriteOne(model, writes[0]), writes[1..])
  }

  lemma {:induction false} WrittenSnoc(model: Json, writes: seq<Write>, w: Write)
    ensures Written(model, writes + [w]) == WriteOne(Written(model, writes), w)
    decreases writes
  {
    if writes == [] {
      assert writes + [w] == [w];
      assert [w][1..] == [];
    } else {
      assert (writes + [w])[0] == writes[0];
      assert (writes + [w])[1..] == writes[1..] + [w];
      WrittenSnoc(WriteOne(model, writes[0]), writes[1..], w);
    }
  }

  /** The writing loop: `model` is rebound once per write. */
  method WriteAll(start: Json, writes: seq<Write>) returns (model: Json)
    ensures model == Written(start, writes)
  {
    model := start;
    for i := 0 to |writes|
      invariant model == Written(start, writes[..i])
    {
      var tokens := TokensOf(writes[i].path);
      WrittenSnoc(start, writes[..i], writes[i]);
      assert writes[..i + 1] == writes[..i] + [writes[i]];
      if tokens.Some? && tokens.value != [] {
        model := Put(model, tokens.value, writes[i].value);
      }
    }
    assert writes[..|writes|] == writes;
  }

  // ----- where a write takes effect -----

  /** Nothing on the way blocks the write: no literal, no null, no index past a list's end. */
  predicate Open(at: Json, tokens: Tokens)
    decreases tokens
  {
    tokens == [] || (Place(at, tokens[0]).Some? && Open(Place(at, tokens[0]).value, tokens[1..]))
  }

  /** A pointer below the root whose way is open. */
  predicate Writable(model: Json, path: string) {
    var tokens := TokensOf(path);
    tokens.Some? && tokens.value != [] && Open(model, tokens.value)
  }

  /** Neither token list is a prefix of the other. */
  predicate Diverge(a: Tokens, b: Tokens) {
    !(a <= b) && !(b <= a)
  }

  predicate DivergentPaths(p: string, q: string) {
    var a, b := TokensOf(p), TokensOf(q);
    a.Some? && b.Some? && Diverge(a.value, b.value)
  }

  lemma {:induction false} FollowNull(tokens: Tokens)
    ensures Follow(Null, tokens) == Null
  {
    if tokens != [] {
      FollowNull(tokens[1..]);
    }
  }

  lemma {:induction false} FollowEmptyObject(tokens: Tokens)
    requires tokens != []
    ensures Follow(Obj([]), tokens) == Null
  {
    FollowNull(tokens[1..]);
  }

  lemma {:induction false} FollowAppend(at: Json, a: Tokens, b: Tokens)
    ensures Follow(at, a + b) == Follow(Follow(at, a), b)
    decreases a
  {
    if a == [] {
      assert a + b == b;
    } else {
      assert (a + b)[1..] == a[1..] + b;
      FollowAppend(Step(at, a[0]), a[1..], b);
    }
  }

  /** A stored child is found under its own key, and every other key leads where it led. */
  lemma StoreThenLook(at: Json, key: string, child: Json, other: string)
    requires Place(at, key).Some?
    ensures Place(Store(at, key, child), other) == if other == key then Some(child) else Place(at, other)
    ensures Step(Store(at, key, child), other) == if other == key then child else Step(at, other)
  {
    match at
    case Arr(items) =>
      if other != key && Index(other, |items|) == Index(key, |items|) {
        IndexInjective(key, other);
      }
    case Obj(fs) => FindAfterSet(fs, key, child, other);
  }

  /** Storing what a read finds changes nothing. */
  lemma StoreSame(at: Json, key: string)
    requires Step(at, key) != Null
    ensures Place(at, key) == Some(Step(at, key)) && Store(at, key, Step(at, key)) == at
  {
    match at
    case Obj(fs) => SetSame(fs, key, Step(at, key));
    case _ =>
  }

  lemma {:induction false} EmptyObjectIsOpen(tokens: Tokens)
    ensures Open(Obj([]), tokens)
  {
    if tokens != [] {
      EmptyObjectIsOpen(tokens[1..]);
    }
  }

  /** An open write is read back; a blocked one changes nothing, and its place still reads null. */
  lemma {:induction false} PutThenFollow(at: Json, tokens: Tokens, value: Json)
    ensures Open(at, tokens) ==> Follow(Put(at, tokens, value), tokens) == value
    ensures !Open(at, tokens) ==> Put(at, tokens, value) == at && Follow(at, tokens) == Null
    decreases tokens
  {
    if tokens != [] {
      var key, rest := tokens[0], tokens[1..];
      if Place(at, key).None? {
        assert Step(at, key) == Null;
        FollowNull(rest);
      } else {
        var child := Place(at, key).value;
        PutThenFollow(child, rest, value);
        StoreThenLook(at, key, Put(child, rest, value), key);
        if !Open(at, tokens) {
          EmptyObjectIsOpen(rest);
          assert child == Step(at, key);
          FollowNull(rest);
          PutBlocked(at, key);
        }
      }
    }
  }

  lemma PutBlocked(at: Json, key: string)
    requires Place(at, key) == Some(Step(at, key))
    requires at.Obj? ==> Find(at.fields, key).Some?
    ensures Store(at, key, Step(at, key)) == at
  {
    match at
    case Obj(fs) => SetSame(fs, key, Step(at, key));
    case _ =>
  }

  /** A write leaves every divergent place as it was, for reading and for writing. */
  lemma {:induction false} PutElsewhere(at: Json, tokens: Tokens, value: Json, other: Tokens)
    requires Diverge(tokens, other)
    ensures Follow(Put(at, tokens, value), other) == Follow(at, other)
    ensures Open(Put(at, tokens, value), other) == Open(at, other)
    decreases tokens
  {
    var key, rest, key', rest' := tokens[0], tokens[1..], other[0], other[1..];
    assert tokens == [key] + rest && other == [key'] + rest';
    if Place(at, key).Some? {
      var child := Place(at, key).value;
      StoreThenLook(at, key, Put(child, rest, value), key');
      if key == key' {
        PutElsewhere(child, rest, value, rest');
        if child != Step(at, key) {
          FollowNull(rest');
          FollowEmptyObject(rest');
        }
      }
    }
  }

  /** Writing back the value that is read there leaves the model equal, key order included. */
  lemma {:induction false} PutBack(at: Json, tokens: Tokens)
    requires Follow(at, tokens) != Null
    ensures Put(at, tokens, Follow(at, tokens)) == at
    decreases tokens
  {
    if tokens != [] {
      FollowNull(tokens[1..]);
      PutBack(Step(at, tokens[0]), tokens[1..]);
      StoreSame(at, tokens[0]);
    }
  }

  // ----- the write laws for whole pointers -----

  /** Reading a pointer just written gives the value if it is writable and null otherwise, the root alone
      still reading as the model; unless it is writable the model is left equal. */
  lemma ReadAfterWrite(model: Json, path: string, value: Json)
    ensures TokensOf(path) == Some([]) ==> !Writable(model, path) && Read(model, path) == model
    ensures TokensOf(path) != Some([]) ==>
      Read(WriteOne(model, Write(path, value)), path) == if Writable(model, path) then value else Null
    ensures !Writable(model, path) ==> WriteOne(model, Write(path, value)) == model
  {
    if TokensOf(path).Some? {
      PutThenFollow(model, TokensOf(path).value, value);
    }
  }

  lemma ReadElsewhere(model: Json, w: Write, path: string)
    requires DivergentPaths(w.path, path)
    ensures Read(WriteOne(model, w), path) == Read(model, path)
    ensures Writable(WriteOne(model, w), path) == Writable(model, path)
  {
    PutElsewhere(model, TokensOf(w.path).value, w.value, TokensOf(path).value);
  }

  lemma {:induction false} ReadElsewhereAll(model: Json, writes: seq<Write>, path: string)
    requires forall i :: 0 <= i < |writes| ==> DivergentPaths(writes[i].path, path)
    ensures Read(Written(model, writes), path) == Read(model, path)
    ensures Writable(Written(model, writes), path) == Writable(model, path)
    decreases writes
  {
    if writes != [] {
      assert DivergentPaths(writes[0].path, path);
      ReadElsewhere(model, writes[0], path);
      ReadElsewhereAll(WriteOne(model, writes[0]), writes[1..], path);
    }
  }

  predicate PairwiseDivergent(paths: seq<string>) {
    forall i, j :: 0 <= i < j < |paths| ==> DivergentPaths(paths[i], paths[j])
  }

  predicate AllWritable(model: Json, paths: seq<string>) {
    forall i :: 0 <= i < |paths| ==> Writable(model, paths[i])
  }

  function Paths(writes: seq<Write>): (r: seq<string>)
    ensures |r| == |writes|
    ensures forall i :: 0 <= i < |r| ==> r[i] == writes[i].path
  {
    seq(|writes|, i requires 0 <= i < |writes| => writes[i].path)
  }

  /** After writes at pairwise divergent pointers each one reads as if it had been written alone. */
  lemma {:induction false} ReadAfterAll(model: Json, writes: seq<Write>, i: nat)
    requires i < |writes| && PairwiseDivergent(Paths(writes))
    requires TokensOf(writes[i].path) != Some([])
    ensures Read(Written(model, writes), writes[i].path)
         == if Writable(model, writes[i].path) then writes[i].value else Null
    decreases writes
  {
    var ps, first, rest := Paths(writes), writes[0], writes[1..];
    if i == 0 {
      ReadAfterWrite(model, first.path, first.value);
      forall k | 0 <= k < |rest| ensures DivergentPaths(rest[k].path, first.path) {
        assert DivergentPaths(ps[0], ps[k + 1]);
      }
      ReadElsewhereAll(WriteOne(model, first), rest, first.path);
    } else {
      assert DivergentPaths(ps[0], ps[i]);
      ReadElsewhere(model, first, writes[i].path);
      forall a, b | 0 <= a < b < |rest| ensures DivergentPaths(Paths(rest)[a], Paths(rest)[b]) {
        assert DivergentPaths(ps[a + 1], ps[b + 1]);
      }
      ReadAfterAll(WriteOne(model, first), rest, i - 1);
    }
  }

  /** Writing again what the model already reads there is the identity. */
  lemma {:induction false} WrittenAgain(model: Json, writes: seq<Write>)
    requires forall i :: 0 <= i < |writes| ==> writes[i].value != Null && Read(model, writes[i].path) == writes[i].value
    ensures Written(model, writes) == model
    decreases writes
  {
    if writes != [] {
      var w := writes[0];
      assert Read(model, w.path) == w.value;
      if TokensOf(w.path).Some? {
        PutBack(model, TokensOf(w.path).value);
      }
      WrittenAgain(model, writes[1..]);
    }
  }

  // ----- exactly when a set of pointers keeps what is written -----

  function Zip(paths: seq<string>, values: seq<Json>): (r: seq<Write>)
    requires |paths| == |values|
    ensures |r| == |paths|
    ensures forall i :: 0 <= i < |r| ==> r[i] == Write(paths[i], values[i])
  {
    seq(|paths|, i requires 0 <= i < |paths| => Write(paths[i], values[i]))
  }

  predicate Keeps(model: Json, paths: seq<string>, values: seq<Json>)
    requires |paths| == |values|
  {
    forall i :: 0 <= i < |paths| ==> Read(Written(model, Zip(paths, values)), paths[i]) == values[i]
  }

  predicate NoNull(values: seq<Json>) {
    forall i :: 0 <= i < |values| ==> values[i] != Null
  }

  lemma {:induction false} WrittenKeepsObject(model: Json, writes: seq<Write>)
    requires model.Obj?
    ensures Written(model, writes).Obj?
    decreases writes
  {
    if writes != [] {
      WrittenKeepsObject(WriteOne(model, writes[0]), writes[1..]);
    }
  }

  /** An object model keeps every choice of non-null values at `paths` iff the paths are writable and
      pairwise divergent: the condition is checked before any value is known. */
  lemma KeepsAllIff(model: Json, paths: seq<string>)
    requires model.Obj?
    ensures (forall values :: |values| == |paths| && NoNull(values) ==> Keeps(model, paths, values))
       <==> AllWritable(model, paths) && PairwiseDivergent(paths)
  {
    if AllWritable(model, paths) && PairwiseDivergent(paths) {
      forall values | |values| == |paths| && NoNull(values) ensures Keeps(model, paths, values) {
        KeepsWhen(model, paths, values);
      }
    }
    if forall values :: |values| == |paths| && NoNull(values) ==> Keeps(model, paths, values) {
      var values := seq(|paths|, i => Int(i));
      assert NoNull(values);
      assert Keeps(model, paths, values);
      KeepsOnlyWhen(model, paths, values);
    }
  }

  lemma KeepsWhen(model: Json, paths: seq<string>, values: seq<Json>)
    requires |values| == |paths|
    requires AllWritable(model, paths) && PairwiseDivergent(paths)
    ensures Keeps(model, paths, values)
  {
    var writes := Zip(paths, values);
    assert Paths(writes) == paths;
    forall i | 0 <= i < |paths| ensures Read(Written(model, writes), paths[i]) == values[i] {
      assert Writable(model, paths[i]);
      ReadAfterAll(model, writes, i);
    }
  }

  /** A number has nothing below it, so two numbers are read at tokens neither of which starts the other. */
  lemma NoReadBelow(model: Json, a: Tokens, b: Tokens, i: int, j: int)
    requires Follow(model, a) == Int(i) && Follow(model, b) == Int(j) && i != j
    ensures !(a <= b)
  {
    if a <= b {
      assert b == a + b[|a|..];
      FollowAppend(model, a, b[|a|..]);
      FollowLiteral(Int(i), b[|a|..]);
      assert false;
    }
  }

  lemma KeepsOnlyWhen(model: Json, paths: seq<string>, values: seq<Json>)
    requires model.Obj? && |values| == |paths|
    requires forall i :: 0 <= i < |values| ==> values[i] == Int(i)
    requires Keeps(model, paths, values)
    ensures AllWritable(model, paths) && PairwiseDivergent(paths)
  {
    var writes := Zip(paths, values);
    var after := Written(model, writes);
    WrittenKeepsObject(model, writes);
    forall i | 0 <= i < |paths|
      ensures TokensOf(paths[i]).Some? && TokensOf(paths[i]).value != []
    {
      assert Read(after, paths[i]) == Int(i);
    }
    forall i, j | 0 <= i < |paths| && 0 <= j < |paths| && i != j
      ensures !(TokensOf(paths[i]).value <= TokensOf(paths[j]).value)
    {
      assert Read(after, paths[i]) == Int(i) && Read(after, paths[j]) == Int(j);
      NoReadBelow(after, TokensOf(paths[i]).value, TokensOf(paths[j]).value, i, j);
    }
    assert Paths(writes) == paths;
    forall i | 0 <= i < |paths| ensures Writable(model, paths[i]) {
      assert Read(after, paths[i]) == Int(i);
      ReadAfterAll(model, writes, i);
    }
  }

  lemma FollowLiteral(at: Json, tokens: Tokens)
    requires at.Int?
    ensures Follow(at, tokens) == if tokens == [] then at else Null
  {
    if tokens != [] {
      FollowNull(tokens[1..]);
    }
  }

  // ----- order of writes: on values up to the order of object keys -----

  function PlaceV(at: Value, key: string): Option<Value> {
    match at
    case VArr(items) =>
      var i := Index(key, |items|);
      if i.Some? then Some(items[i.value]) else None
    case VObj(m) => Some(if key in m then m[key] else VObj(map[]))
    case _ => None
  }

  function StoreV(at: Value, key: string, child: Value): Value
    requires PlaceV(at, key).Some?
  {
    match at
    case VArr(items) => VArr(items[Index(key, |items|).value := child])
    case VObj(m) => VObj(m[key := child])
  }

  function PutV(at: Value, tokens: Tokens, value: Value): Value
    decreases tokens
  {
    if tokens == [] then value
    else
      var place := PlaceV(at, tokens[0]);
      if place.None? then at else StoreV(at, tokens[0], PutV(place.value, tokens[1..], value))
  }

  lemma StoreMeaning(at: Json, key: string, child: Json)
    ensures PlaceV(Meaning(at), key).Some? == Place(at, key).Some?
    ensures Place(at, key).Some? ==> PlaceV(Meaning(at), key).value == Meaning(Place(at, key).value)
    ensures Place(at, key).Some? ==> Meaning(Store(at, key, child)) == StoreV(Meaning(at), key, Meaning(child))
  {
    match at
    case Arr(items) =>
      var i := Index(key, |items|);
      if i.Some? {
        assert MeaningItems(items[i.value := child]) == MeaningItems(items)[i.value := Meaning(child)];
      }
    case Obj(fs) =>
      MeaningFinds(fs, key);
      MeaningOfSet(fs, key, child);
    case _ =>
  }

  lemma {:induction false} PutMeaning(at: Json, tokens: Tokens, value: Json)
    ensures Meaning(Put(at, tokens, value)) == PutV(Meaning(at), tokens, Meaning(value))
    decreases tokens
  {
    if tokens != [] {
      var place := Place(at, tokens[0]);
      if place.Some? {
        PutMeaning(place.value, tokens[1..], value);
        StoreMeaning(at, tokens[0], Put(place.value, tokens[1..], value));
      } else {
        StoreMeaning(at, tokens[0], Null);
      }
    }
  }

  lemma StoreVThenLook(at: Value, key: string, child: Value, other: string)
    requires PlaceV(at, key).Some?
    ensures PlaceV(StoreV(at, key, child), other) == if other == key then Some(child) else PlaceV(at, other)
  {
    match at
    case VArr(items) =>
      if other != key && Index(other, |items|) == Index(key, |items|) {
        IndexInjective(key, other);
      }
    case VObj(m) =>
  }

  lemma StoreVCommutes(at: Value, a: string, x: Value, b: string, y: Value)
    requires a != b && PlaceV(at, a).Some? && PlaceV(at, b).Some?
    ensures PlaceV(StoreV(at, a, x), b).Some? && PlaceV(StoreV(at, b, y), a).Some?
    ensures StoreV(StoreV(at, a, x), b, y) == StoreV(StoreV(at, b, y), a, x)
  {
    match at
    case VArr(items) =>
      var i, j := Index(a, |items|).value, Index(b, |items|).value;
      if i == j {
        IndexInjective(a, b);
      }
      assert items[i := x][j := y] == items[j := y][i := x];
    case VObj(m) =>
      assert m[a := x][b := y] == m[b := y][a := x];
  }

  lemma StoreVTwice(at: Value, key: string, x: Value, y: Value)
    requires PlaceV(at, key).Some?
    ensures PlaceV(StoreV(at, key, x), key).Some?
    ensures StoreV(StoreV(at, key, x), key, y) == StoreV(at, key, y)
  {
    match at
    case VArr(items) =>
    case VObj(m) => assert m[key := x][key := y] == m[key := y];
  }

  lemma PutVFirst(at: Value, k: string, rest: Tokens, x: Value)
    ensures PutV(at, [k] + rest, x)
         == if PlaceV(at, k).None? then at else StoreV(at, k, PutV(PlaceV(at, k).value, rest, x))
  {
    assert ([k] + rest)[1..] == rest;
  }

  /** Two writes below one key are two writes to what that key holds. */
  lemma PutVBelow(at: Value, k: string, a: Tokens, x: Value, b: Tokens, y: Value)
    requires PlaceV(at, k).Some?
    ensures PutV(PutV(at, [k] + a, x), [k] + b, y) == StoreV(at, k, PutV(PutV(PlaceV(at, k).value, a, x), b, y))
  {
    var child := PutV(PlaceV(at, k).value, a, x);
    PutVFirst(at, k, a, x);
    StoreVThenLook(at, k, child, k);
    PutVFirst(StoreV(at, k, child), k, b, y);
    StoreVTwice(at, k, child, PutV(child, b, y));
  }

  lemma PutVApart(at: Value, k: string, a: Tokens, x: Value, l: string, b: Tokens, y: Value)
    requires k != l
    ensures PutV(PutV(at, [k] + a, x), [l] + b, y) == PutV(PutV(at, [l] + b, y), [k] + a, x)
  {
    PutVFirst(at, k, a, x);
    PutVFirst(at, l, b, y);
    if PlaceV(at, k).Some? {
      var child := PutV(PlaceV(at, k).value, a, x);
      StoreVThenLook(at, k, child, l);
      PutVFirst(StoreV(at, k, child), l, b, y);
    }
    if PlaceV(at, l).Some? {
      var child := PutV(PlaceV(at, l).value, b, y);
      StoreVThenLook(at, l, child, k);
      PutVFirst(StoreV(at, l, child), k, a, x);
    }
    if PlaceV(at, k).Some? && PlaceV(at, l).Some? {
      StoreVCommutes(at, k, PutV(PlaceV(at, k).value, a, x), l, PutV(PlaceV(at, l).value, b, y));
    }
  }

  lemma PutVAlike(at: Value, k: string, a: Tokens, x: Value, b: Tokens, y: Value)
    requires PlaceV(at, k).Some? ==>
      var child := PlaceV(at, k).value; PutV(PutV(child, a, x), b, y) == PutV(PutV(child, b, y), a, x)
    ensures PutV(PutV(at, [k] + a, x), [k] + b, y) == PutV(PutV(at, [k] + b, y), [k] + a, x)
  {
    if PlaceV(at, k).Some? {
      PutVBelow(at, k, a, x, b, y);
      PutVBelow(at, k, b, y, a, x);
    } else {
      PutVFirst(at, k, a, x);
      PutVFirst(at, k, b, y);
    }
  }

  lemma DivergeBelow(k: string, a: Tokens, b: Tokens)
    requires Diverge([k] + a, [k] + b)
    ensures Diverge(a, b)
  {
    assert a <= b ==> [k] + a <= [k] + b;
    assert b <= a ==> [k] + b <= [k] + a;
  }

  lemma {:induction false} PutVCommutes(at: Value, a: Tokens, x: Value, b: Tokens, y: Value)
    requires Diverge(a, b)
    ensures PutV(PutV(at, a, x), b, y) == PutV(PutV(at, b, y), a, x)
    decreases |a|
  {
    var k, l, a', b' := a[0], b[0], a[1..], b[1..];
    assert a == [k] + a' && b == [l] + b';
    if k != l {
      PutVApart(at, k, a', x, l, b', y);
    } else {
      if PlaceV(at, k).Some? {
        DivergeBelow(k, a', b');
        PutVCommutes(PlaceV(at, k).value, a', x, b', y);
      }
      PutVAlike(at, k, a', x, b', y);
    }
  }

  function WriteOneV(model: Value, w: Write): Value {
    var tokens := TokensOf(w.path);
    if tokens.None? || tokens.value == [] then model else PutV(model, tokens.value, Meaning(w.value))
  }

  function WrittenV(model: Value, writes: seq<Write>): Value
    decreases writes
  {
    if writes == [] then model else WrittenV(WriteOneV(model, writes[0]), writes[1..])
  }

  lemma {:induction false} WrittenMeaning(model: Json, writes: seq<Write>)
    ensures Meaning(Written(model, writes)) == WrittenV(Meaning(model), writes)
    decreases writes
  {
    if writes != [] {
      if TokensOf(writes[0].path).Some? {
        PutMeaning(model, TokensOf(writes[0].path).value, writes[0].value);
      }
      WrittenMeaning(WriteOne(model, writes[0]), writes[1..]);
    }
  }

  lemma {:induction false} WrittenVAppend(model: Value, a: seq<Write>, b: seq<Write>)
    ensures WrittenV(model, a + b) == WrittenV(WrittenV(model, a), b)
    decreases a
  {
    if a == [] {
      assert a + b == b;
    } else {
      assert (a + b)[1..] == a[1..] + b;
      WrittenVAppend(WriteOneV(model, a[0]), a[1..], b);
    }
  }

  /** A write moves past every write it diverges from. */
  lemma {:induction false} MoveToFront(model: Value, before: seq<Write>, w: Write)
    requires forall i :: 0 <= i < |before| ==> DivergentPaths(before[i].path, w.path)
    ensures WriteOneV(WrittenV(model, before), w) == WrittenV(WriteOneV(model, w), before)
    decreases before
  {
    if before != [] {
      var b, rest := before[0], before[1..];
      assert DivergentPaths(b.path, w.path);
      MoveToFront(WriteOneV(model, b), rest, w);
      PutVCommutes(model, TokensOf(b.path).value, Meaning(b.value), TokensOf(w.path).value, Meaning(w.value));
    }
  }

  /** Writes at pairwise divergent pointers may come in any order: the models are equal up to the
      order of object keys. */
  lemma {:induction false} WriteOrderIrrelevant(model: Json, ws: seq<Write>, us: seq<Write>)
    requires PairwiseDivergent(Paths(ws)) && multiset(ws) == multiset(us)
    ensures Meaning(Written(model, ws)) == Meaning(Written(model, us))
  {
    WrittenMeaning(model, ws);
    WrittenMeaning(model, us);
    PermutedWrites(Meaning(model), ws, us);
  }

  lemma {:induction false} PermutedWrites(model: Value, ws: seq<Write>, us: seq<Write>)
    requires PairwiseDivergent(Paths(ws)) && multiset(ws) == multiset(us)
    ensures WrittenV(model, ws) == WrittenV(model, us)
    decreases |ws|
  {
    if ws == [] {
      assert |us| == |multiset(us)| == |multiset(ws)|;
    } else {
      var w, rest := ws[0], ws[1..];
      var before, after := Extract(ws, us);
      MoveToFront(model, before, w);
      WrittenVAppend(model, before, [w] + after);
      assert us == before + ([w] + after);
      WrittenVAppend(WriteOneV(model, w), before, after);
      assert ([w] + after)[1..] == after;
      DivergentTail(ws);
      PermutedWrites(WriteOneV(model, w), rest, before + after);
    }
  }

  lemma DivergentTail(ws: seq<Write>)
    requires ws != [] && PairwiseDivergent(Paths(ws))
    ensures PairwiseDivergent(Paths(ws[1..]))
  {
    var rest := ws[1..];
    forall a, b | 0 <= a < b < |rest| ensures DivergentPaths(Paths(rest)[a], Paths(rest)[b]) {
      assert DivergentPaths(Paths(ws)[a + 1], Paths(ws)[b + 1]);
    }
  }

  /** Takes the first write of `ws` out of a permutation of it. */
  lemma Extract(ws: seq<Write>, us: seq<Write>) returns (before: seq<Write>, after: seq<Write>)
    requires ws != [] && PairwiseDivergent(Paths(ws)) && multiset(ws) == multiset(us)
    ensures us == before + [ws[0]] + after
    ensures multiset(ws[1..]) == multiset(before + after)
    ensures forall i :: 0 <= i < |before| ==> DivergentPaths(before[i].path, ws[0].path)
  {
    before, after := TakeOut(ws, us);
    forall k | 0 <= k < |before| ensures DivergentPaths(before[k].path, ws[0].path) {
      assert before[k] == (before + after)[k];
      assert before[k] in multiset(before + after);
      DivergesFromFirst(ws, before[k]);
    }
  }

  lemma DivergesFromFirst(ws: seq<Write>, w: Write)
    requires ws != [] && PairwiseDivergent(Paths(ws)) && w in ws[1..]
    ensures DivergentPaths(w.path, ws[0].path)
  {
    var j :| 0 <= j < |ws[1..]| && ws[1..][j] == w;
    assert DivergentPaths(Paths(ws)[0], Paths(ws)[j + 1]);
    DivergeSymmetric(w.path, ws[0].path);
  }

  lemma TakeOut<T>(ws: seq<T>, us: seq<T>) returns (before: seq<T>, after: seq<T>)
    requires ws != [] && multiset(ws) == multiset(us)
    ensures us == before + [ws[0]] + after
    ensures multiset(ws[1..]) == multiset(before + after)
  {
    var w, rest := ws[0], ws[1..];
    assert ws == [w] + rest;
    assert w in multiset(us);
    var i :| 0 <= i < |us| && us[i] == w;
    before, after := us[..i], us[i + 1..];
    assert us == before + [w] + after;
    assert multiset(us) - multiset{w} == multiset(before + after);
    assert multiset(ws) - multiset{w} == multiset(rest);
  }

  lemma DivergeSymmetric(p: string, q: string)
    ensures DivergentPaths(p, q) == DivergentPaths(q, p)
  {
  }
}
