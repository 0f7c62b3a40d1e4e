/** What writes of input values leave. */
module Overwrites {
  // An input holds a text, true or false, or a list of option values; never null and never an object. Written at
  // pointers that may overlap, such values can hide each other, but what they hide stays hidden.
  import opened Options
  import opened Json
  import opened Pointer

  predicate InputValue(v: Json) {
    v.Str? || v.Bool? || (v.Arr? && forall i :: 0 <= i < |v.items| ==> v.items[i].Str?)
  }

  /** The values that inputs read null as. */
  predicate EmptyValue(v: Json) { v == Str("") || v == Bool(false) || v == Arr([]) }

  // ----- a place that reads null is blocked -----

  /** Something is there, or no write gets there. */
  predicate Settled(at: Json, tokens: Tokens) {
    Follow(at, tokens) != Null || !Open(at, tokens)
  }

  /** A step down: a settled place is settled seen from the child on its way. */
  lemma SettledBelow(at: Json, tokens: Tokens)
    requires tokens != [] && Settled(at, tokens) && Place(at, tokens[0]).Some?
    ensures Place(at, tokens[0]) == Some(Step(at, tokens[0])) && Settled(Step(at, tokens[0]), tokens[1..])
  {
    var key, rest := tokens[0], tokens[1..];
    if at.Obj? && Find(at.fields, key).None? {
      FollowNull(rest);
      EmptyObjectIsOpen(rest);
      assert false;
    }
  }

  /** Below an input value nothing can be written but an item of a list. */
  lemma ValueSettles(v: Json, tokens: Tokens)
    requires InputValue(v)
    ensures Settled(v, tokens)
  {
    if tokens != [] && v.Arr? {
      var rest := tokens[1..];
      var i := Index(tokens[0], |v.items|);
      if i.Some? && rest != [] {
        assert v.items[i.value].Str?;
        assert Place(v.items[i.value], rest[0]).None?;
      }
    }
  }

  /** Writing an input value anywhere keeps a settled place settled. */
  lemma {:induction false} PutKeepsSettled(at: Json, tokens: Tokens, v: Json, other: Tokens)
    requires InputValue(v) && Settled(at, other)
    ensures Settled(Put(at, tokens, v), other)
    decreases |tokens|
  {
    if tokens == [] {
      ValueSettles(v, other);
    } else if Place(at, tokens[0]).Some? {
      var child := Put(Place(at, tokens[0]).value, tokens[1..], v);
      if other == [] {
        assert Store(at, tokens[0], child) != Null;
      } else {
        StoreThenLook(at, tokens[0], child, other[0]);
        if other[0] == tokens[0] {
          SettledBelow(at, other);
          PutKeepsSettled(Place(at, tokens[0]).value, tokens[1..], v, other[1..]);
        }
      }
    }
  }

  lemma PutSettles(at: Json, tokens: Tokens, v: Json)
    requires v != Null
    ensures Settled(Put(at, tokens, v), tokens)
  {
    PutThenFollow(at, tokens, v);
  }

  predicate SettledPath(model: Json, path: string) {
    Read(model, path) != Null || !Writable(model, path)
  }

  predicate InputWrites(writes: seq<Write>) { forall i :: 0 <= i < |writes| ==> InputValue(writes[i].value) }

  lemma WriteKeepsSettled(model: Json, w: Write, path: string)
    requires InputValue(w.value) && SettledPath(model, path)
    ensures SettledPath(WriteOne(model, w), path)
  {
    var tokens, other := TokensOf(w.path), TokensOf(path);
    if tokens.Some? && tokens.value != [] && other.Some? && other.value != [] {
      PutKeepsSettled(model, tokens.value, w.value, other.value);
    }
  }

  lemma WriteSettles(model: Json, w: Write)
    requires InputValue(w.value)
    ensures SettledPath(WriteOne(model, w), w.path)
  {
    var tokens := TokensOf(w.path);
    if tokens.Some? && tokens.value != [] {
      PutSettles(model, tokens.value, w.value);
    }
  }

  lemma {:induction false} WrittenKeepsSettled(model: Json, writes: seq<Write>, path: string)
    requires InputWrites(writes) && SettledPath(model, path)
    ensures SettledPath(Written(model, writes), path)
    decreases |writes|
  {
    if writes != [] {
      WriteKeepsSettled(model, writes[0], path);
      WrittenKeepsSettled(WriteOne(model, writes[0]), writes[1..], path);
    }
  }

  /** After any writes of input values, a written pointer that reads null is one that cannot be written. */
  lemma {:induction false} WrittenSettles(model: Json, writes: seq<Write>, i: nat)
    requires InputWrites(writes) && i < |writes|
    ensures SettledPath(Written(model, writes), writes[i].path)
    decreases |writes|
  {
    var next := WriteOne(model, writes[0]);
    if i == 0 {
      WriteSettles(model, writes[0]);
      WrittenKeepsSettled(next, writes[1..], writes[0].path);
    } else {
      WrittenSettles(next, writes[1..], i - 1);
    }
  }

  /** Writes that find their value, or find no way, leave the model equal. */
  lemma {:induction false} WrittenStays(model: Json, writes: seq<Write>)
    requires forall i :: 0 <= i < |writes| ==>
      (writes[i].value != Null && Read(model, writes[i].path) == writes[i].value) || !Writable(model, writes[i].path)
    ensures Written(model, writes) == model
    decreases |writes|
  {
    if writes != [] {
      if Writable(model, writes[0].path) {
        WrittenAgain(model, [writes[0]]);
        assert [writes[0]][1..] == [];
      } else {
        ReadAfterWrite(model, writes[0].path, writes[0].value);
      }
      WrittenStays(model, writes[1..]);
    }
  }

  // ----- what opens no way -----

  /** A value with nothing below it. */
  predicate Flat(v: Json) { v.Str? || v.Bool? || v == Arr([]) }

  predicate Starts(a: string, b: string) {
    var s, t := TokensOf(a), TokensOf(b);
    s.Some? && t.Some? && s.value <= t.value
  }

  lemma StartsBelow(tokens: Tokens, other: Tokens)
    requires tokens != [] && other != [] && tokens[0] == other[0] && tokens[1..] <= other[1..]
    ensures tokens <= other
  {
    assert tokens == [tokens[0]] + tokens[1..] && other == [other[0]] + other[1..];
  }

  lemma {:induction false} PutKeepsBlocked(at: Json, tokens: Tokens, v: Json, other: Tokens)
    requires (Flat(v) || !(tokens <= other)) && !Open(at, other)
    ensures !Open(Put(at, tokens, v), other)
    decreases |tokens|
  {
    if tokens != [] && Place(at, tokens[0]).Some? {
      var child := Place(at, tokens[0]).value;
      StoreThenLook(at, tokens[0], Put(child, tokens[1..], v), other[0]);
      if other[0] == tokens[0] {
        if tokens[1..] <= other[1..] {
          StartsBelow(tokens, other);
        }
        PutKeepsBlocked(child, tokens[1..], v, other[1..]);
      }
    }
  }

  lemma WriteKeepsBlocked(model: Json, w: Write, path: string)
    requires !Writable(model, path) && (Flat(w.value) || w.path == path || !Starts(w.path, path))
    ensures !Writable(WriteOne(model, w), path)
  {
    var tokens, other := TokensOf(w.path), TokensOf(path);
    if w.path == path {
      ReadAfterWrite(model, path, w.value);
    } else if tokens.Some? && tokens.value != [] && other.Some? && other.value != [] {
      PutKeepsBlocked(model, tokens.value, w.value, other.value);
    }
  }

  /** A pointer that cannot be written stays so when no list with items is written where the pointer passes. */
  lemma {:induction false} WrittenKeepsBlocked(model: Json, writes: seq<Write>, path: string)
    requires !Writable(model, path)
    requires forall i :: 0 <= i < |writes| ==>
      Flat(writes[i].value) || writes[i].path == path || !Starts(writes[i].path, path)
    ensures !Writable(Written(model, writes), path)
    decreases |writes|
  {
    if writes != [] {
      WriteKeepsBlocked(model, writes[0], path);
      WrittenKeepsBlocked(WriteOne(model, writes[0]), writes[1..], path);
    }
  }

  lemma BlockedReadsNull(model: Json, path: string)
    requires model.Obj? && !Writable(model, path)
    ensures Read(model, path) == Null || Read(model, path).Obj?
  {
    ReadAfterWrite(model, path, Null);
  }

  // ----- what is read below an input value -----

  /** Of an input value only itself and the items of a list can be read. */
  predicate Within(v: Json, part: Json) { part == v || (v.Arr? && part in v.items) }

  lemma BelowValue(v: Json, tokens: Tokens)
    requires InputValue(v) || v == Null
    ensures Follow(v, tokens) == Null || Within(v, Follow(v, tokens))
  {
    if tokens != [] {
      var next := Step(v, tokens[0]);
      if next != Null && tokens[1..] != [] {
        assert Step(next, tokens[1..][0]) == Null;
        FollowNull(tokens[1..][1..]);
      } else if next == Null {
        FollowNull(tokens[1..]);
      }
    }
  }

  /** A pointer that another one starts reads as part of what that one reads. */
  lemma OverlapReadsPart(model: Json, a: string, b: string)
    requires Starts(a, b) && (InputValue(Read(model, a)) || Read(model, a) == Null)
    ensures Read(model, b) == Null || Within(Read(model, a), Read(model, b))
  {
    var s, t := TokensOf(a).value, TokensOf(b).value;
    assert t == s + t[|s|..];
    FollowAppend(model, s, t[|s|..]);
    BelowValue(Read(model, a), t[|s|..]);
  }
}
