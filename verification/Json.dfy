/**
 JSON values with the order their objects' keys are held in, and the values they mean.

 An object is a list of fields, as a Python dict keeps them: replacing a key keeps its place and a new key goes to
 the end. Two values mean the same when they differ in the order of keys alone, at any depth; numbers with a
 fraction are kept as their text.
 */
module Json {
  import opened Options

  datatype Field = Field(key: string, value: Json)

  datatype Json =
    | Null
    | Bool(b: bool)
    | Int(n: int)
    | Float(literal: string)  // identified with its `repr`
    | Str(s: string)
    | Arr(items: seq<Json>)
    | Obj(fields: seq<Field>)

  /** `d.get(key)` with absence kept apart from a stored null. */
  function Find(fs: seq<Field>, key: string): (r: Option<Json>)
    ensures r.Some? ==> exists i :: 0 <= i < |fs| && fs[i] == Field(key, r.value)
    ensures r.None? <==> forall i :: 0 <= i < |fs| ==> fs[i].key != key
  {
    if fs == [] then None
    else if fs[0].key == key then (assert fs[0] == Field(key, fs[0].value); Some(fs[0].value))
    else
      var r := Find(fs[1..], key);
      assert r.Some? ==> exists i :: 1 <= i < |fs| && fs[i] == Field(key, r.value) by {
        if r.Some? {
          var j :| 0 <= j < |fs[1..]| && fs[1..][j] == Field(key, r.value);
          assert fs[j + 1] == Field(key, r.value);
        }
      }
      assert r.None? ==> forall i :: 1 <= i < |fs| ==> fs[i].key != key by {
        if r.None? {
          forall i | 1 <= i < |fs| ensures fs[i].key != key { assert fs[i] == fs[1..][i - 1]; }
        }
      }
      assert r.Some? ==> !(forall i :: 0 <= i < |fs| ==> fs[i].key != key);
      r
  }

  /** `{**d, key: value}`: a present key keeps its place, a new one goes last. */
  function Set(fs: seq<Field>, key: string, value: Json): seq<Field> {
    if fs == [] then [Field(key, value)]
    else if fs[0].key == key then [Field(key, value)] + fs[1..]
    else [fs[0]] + Set(fs[1..], key, value)
  }

  lemma {:induction false} FindAfterSet(fs: seq<Field>, key: string, value: Json, other: string)
    ensures Find(Set(fs, key, value), other) == if other == key then Some(value) else Find(fs, other)
  {
    if fs != [] && fs[0].key != key {
      FindAfterSet(fs[1..], key, value, other);
    }
  }

  /** Storing what is already there changes nothing, not even the order. */
  lemma {:induction false} SetSame(fs: seq<Field>, key: string, value: Json)
    requires Find(fs, key) == Some(value)
    ensures Set(fs, key, value) == fs
  {
    if fs[0].key != key {
      SetSame(fs[1..], key, value);
    }
  }

  // ----- a value up to the order of object keys -----

  datatype Value =
    | VNull
    | VBool(b: bool)
    | VInt(n: int)
    | VFloat(literal: string)
    | VStr(s: string)
    | VArr(items: seq<Value>)
    | VObj(fields: map<string, Value>)

  function Meaning(j: Json): Value {
    match j
    case Null => VNull
    case Bool(b) => VBool(b)
    case Int(n) => VInt(n)
    case Float(l) => VFloat(l)
    case Str(s) => VStr(s)
    case Arr(items) => VArr(MeaningItems(items))
    case Obj(fs) => VObj(MeaningFields(fs))
  }

  function MeaningItems(items: seq<Json>): (r: seq<Value>)
    ensures |r| == |items|
    ensures forall i :: 0 <= i < |items| ==> r[i] == Meaning(items[i])
  {
    if items == [] then [] else [Meaning(items[0])] + MeaningItems(items[1..])
  }

  function MeaningFields(fs: seq<Field>): map<string, Value> {
    if fs == [] then map[] else MeaningFields(fs[1..])[fs[0].key := Meaning(fs[0].value)]
  }

  lemma {:induction false} MeaningFinds(fs: seq<Field>, key: string)
    ensures key in MeaningFields(fs) <==> Find(fs, key).Some?
    ensures key in MeaningFields(fs) ==> MeaningFields(fs)[key] == Meaning(Find(fs, key).value)
  {
    if fs != [] && fs[0].key != key {
      MeaningFinds(fs[1..], key);
    }
  }

  lemma {:induction false} MeaningOfSet(fs: seq<Field>, key: string, value: Json)
    ensures MeaningFields(Set(fs, key, value)) == MeaningFields(fs)[key := Meaning(value)]
  {
    if fs == [] {
    } else if fs[0].key == key {
      assert Set(fs, key, value)[1..] == fs[1..];
    } else {
      var r := Set(fs, key, value);
      assert r[1..] == Set(fs[1..], key, value);
      MeaningOfSet(fs[1..], key, value);
    }
  }

  // ----- no object names a key twice, at any depth: what a Python dict guarantees -----

  predicate Distinct(fs: seq<Field>) {
    forall i, k :: 0 <= i < k < |fs| ==> fs[i].key != fs[k].key
  }

  predicate WellFormed(j: Json) {
    match j
    case Arr(items) => forall i :: 0 <= i < |items| ==> WellFormed(items[i])
    case Obj(fs) => Distinct(fs) && forall i :: 0 <= i < |fs| ==> WellFormed(fs[i].value)
    case _ => true
  }
}
