/** The normal form of an automation's desired spec: the allowed keys, and a delivery that can only announce. */
module SpecNormalForm {
  import opened Options
  import opened Text
  import opened Json
  import opened CanonicalJson

  const ALLOWED := {"name", "description", "schedule", "sessionTarget", "wakeMode", "payload",
                    "delivery", "failureAlert", "enabled", "agentId", "sessionKey", "deleteAfterRun"}

  /** An order in which a set of keys may be iterated. */
  ghost predicate Lists(order: seq<string>, keys: set<string>) {
    forall k :: k in order <==> k in keys
  }

  /** The only delivery supported: announce to a channel. None when there is no usable target. */
  function Delivery(delivery: Json): Option<Json> {
    if !delivery.Obj? then None
    else
      var to := Find(delivery.fields, "to");
      if to.None? || !to.value.Str? || Strip(to.value.s) == "" then None
      else Some(Obj([Field("mode", Str("announce")), Field("to", Str(Strip(to.value.s)))]))
  }

  /** One key's field, if the object has it. */
  function KeptField(fs: seq<Field>, key: string): seq<Field> {
    var value := Find(fs, key);
    if value.Some? then [Field(key, value.value)] else []
  }

  function Keep(fs: seq<Field>, order: seq<string>): seq<Field> {
    if order == [] then []
    else KeptField(fs, order[0]) + Keep(fs, order[1..])
  }

  /** `del d[key]`. */
  function Remove(fs: seq<Field>, key: string): seq<Field> {
    if fs == [] then []
    else (if fs[0].key == key then [] else [fs[0]]) + Remove(fs[1..], key)
  }

  function WithDelivery(fs: seq<Field>): seq<Field> {
    var given := Find(fs, "delivery");
    if given.None? then fs
    else
      var delivery := Delivery(given.value);
      if delivery.None? then Remove(fs, "delivery") else Set(fs, "delivery", delivery.value)
  }

  /** None stands for the error raised when the spec is not an object. */
  function Normalized(spec: Json, order: seq<string>): Option<Json> {
    if spec.Obj? then Some(Obj(WithDelivery(Keep(spec.fields, order)))) else None
  }

  lemma {:induction false} KeepAppend(fs: seq<Field>, a: seq<string>, b: seq<string>)
    ensures Keep(fs, a + b) == Keep(fs, a) + Keep(fs, b)
    decreases |a|
  {
    if a == [] {
      assert a + b == b;
    } else {
      KeepAppend(fs, a[1..], b);
      KeepFirst(fs, a[0], a[1..]);
      KeepFirst(fs, a[0], a[1..] + b);
      assert a == [a[0]] + a[1..] && a + b == [a[0]] + (a[1..] + b);
    }
  }

  lemma KeepFirst(fs: seq<Field>, key: string, rest: seq<string>)
    ensures Keep(fs, [key] + rest) == KeptField(fs, key) + Keep(fs, rest)
  {
    assert ([key] + rest)[1..] == rest;
  }

  /** `result` is filled key by key, then its delivery is replaced or deleted. */
  method Normalize(spec: Json, order: seq<string>) returns (r: Option<Json>)
    ensures r == Normalized(spec, order)
  {
    if !spec.Obj? {
      return None;
    }
    var result: seq<Field> := [];
    for i := 0 to |order|
      invariant result == Keep(spec.fields, order[..i])
    {
      KeepAppend(spec.fields, order[..i], [order[i]]);
      assert order[..i + 1] == order[..i] + [order[i]];
      assert [order[i]][1..] == [];
      var value := Find(spec.fields, order[i]);
      if value.Some? {
        result := result + [Field(order[i], value.value)];
      }
    }
    assert order[..|order|] == order;
    var given := Find(result, "delivery");
    if given.Some? {
      var delivery := Delivery(given.value);
      if delivery.None? {
        result := Remove(result, "delivery");
      } else {
        result := Set(result, "delivery", delivery.value);
      }
    }
    r := Some(Obj(result));
  }

  // ----- the normal form of a value up to key order -----

  function DeliveryV(delivery: Value): Option<Value> {
    if !delivery.VObj? || "to" !in delivery.fields then None
    else
      var to := delivery.fields["to"];
      if !to.VStr? || Strip(to.s) == "" then None
      else Some(Announcement(Strip(to.s)))
  }

  function Announcement(to: string): Value {
    VObj(map["mode" := VStr("announce"), "to" := VStr(to)])
  }

  function KeptV(m: map<string, Value>, allowed: set<string>): map<string, Value> {
    map k | k in m && k in allowed :: m[k]
  }

  function WithDeliveryV(m: map<string, Value>): map<string, Value> {
    if "delivery" !in m then m
    else
      var delivery := DeliveryV(m["delivery"]);
      if delivery.None? then m - {"delivery"} else m["delivery" := delivery.value]
  }

  function NormalV(m: map<string, Value>, allowed: set<string>): map<string, Value> {
    WithDeliveryV(KeptV(m, allowed))
  }

  lemma DeliveryMeaning(delivery: Json)
    ensures DeliveryV(Meaning(delivery)).Some? == Delivery(delivery).Some?
    ensures Delivery(delivery).Some? ==> DeliveryV(Meaning(delivery)).value == Meaning(Delivery(delivery).value)
  {
    if delivery.Obj? {
      MeaningFinds(delivery.fields, "to");
      if Delivery(delivery).Some? {
        var fs := Delivery(delivery).value.fields;
        assert fs[1..] == [fs[1]] && fs[1..][1..] == [];
        assert MeaningFields(fs[1..]) == map["to" := Meaning(fs[1].value)];
        assert MeaningFields(fs) == map["mode" := VStr("announce"), "to" := Meaning(fs[1].value)];
      }
    }
  }

  function Among(m: map<string, Value>, order: seq<string>): map<string, Value> {
    map k | k in m && k in order :: m[k]
  }

  lemma AmongFirst(m: map<string, Value>, order: seq<string>)
    requires order != []
    ensures Among(m, order) == if order[0] in m then Among(m, order[1..])[order[0] := m[order[0]]] else Among(m, order[1..])
  {
    assert order == [order[0]] + order[1..];
  }

  lemma MeaningFirst(f: Field, rest: seq<Field>)
    ensures MeaningFields([f] + rest) == MeaningFields(rest)[f.key := Meaning(f.value)]
  {
    assert ([f] + rest)[1..] == rest;
  }

  lemma {:induction false} KeepMeaning(fs: seq<Field>, order: seq<string>)
    ensures MeaningFields(Keep(fs, order)) == Among(MeaningFields(fs), order)
  {
    if order != [] {
      KeepMeaning(fs, order[1..]);
      MeaningFinds(fs, order[0]);
      AmongFirst(MeaningFields(fs), order);
      var found, rest := Find(fs, order[0]), Keep(fs, order[1..]);
      if found.Some? {
        MeaningFirst(Field(order[0], found.value), rest);
      } else {
        assert [] + rest == rest;
      }
    }
  }

  lemma {:induction false} RemoveMeaning(fs: seq<Field>, key: string)
    ensures MeaningFields(Remove(fs, key)) == MeaningFields(fs) - {key}
  {
    if fs != [] {
      RemoveMeaning(fs[1..], key);
      var m := MeaningFields(fs[1..]);
      if fs[0].key == key {
        assert [] + Remove(fs[1..], key) == Remove(fs[1..], key);
        assert m[key := Meaning(fs[0].value)] - {key} == m - {key};
      } else {
        assert ([fs[0]] + Remove(fs[1..], key))[1..] == Remove(fs[1..], key);
        assert m[fs[0].key := Meaning(fs[0].value)] - {key} == (m - {key})[fs[0].key := Meaning(fs[0].value)];
      }
    }
  }

  lemma DeliveredMeaning(fs: seq<Field>)
    ensures MeaningFields(WithDelivery(fs)) == WithDeliveryV(MeaningFields(fs))
  {
    MeaningFinds(fs, "delivery");
    var given := Find(fs, "delivery");
    if given.Some? {
      DeliveryMeaning(given.value);
      RemoveMeaning(fs, "delivery");
      if Delivery(given.value).Some? {
        MeaningOfSet(fs, "delivery", Delivery(given.value).value);
      }
    }
  }

  /** Normalizing is a function of the value alone, whatever order its keys and the allowed ones come in. */
  lemma NormalizedMeaning(spec: Json, order: seq<string>, allowed: set<string>)
    requires spec.Obj? && Lists(order, allowed)
    ensures Meaning(Normalized(spec, order).value) == VObj(NormalV(MeaningFields(spec.fields), allowed))
  {
    KeepMeaning(spec.fields, order);
    assert Among(MeaningFields(spec.fields), order) == KeptV(MeaningFields(spec.fields), allowed);
    DeliveredMeaning(Keep(spec.fields, order));
  }

  lemma DeliveryTwice(delivery: Value)
    requires DeliveryV(delivery).Some?
    ensures DeliveryV(DeliveryV(delivery).value) == DeliveryV(delivery)
  {
    StripTwice(delivery.fields["to"].s);
  }

  lemma NormalTwice(m: map<string, Value>, allowed: set<string>)
    ensures NormalV(NormalV(m, allowed), allowed) == NormalV(m, allowed)
  {
    var n := NormalV(m, allowed);
    assert KeptV(n, allowed) == n;
    if "delivery" in KeptV(m, allowed) && DeliveryV(m["delivery"]).Some? {
      DeliveryTwice(m["delivery"]);
    }
  }

  /** Normalizing a normalized spec changes nothing but key order, so the hash stays. */
  lemma NormalizeIsIdempotent(spec: Json, order: seq<string>, again: seq<string>)
    requires spec.Obj? && Lists(order, ALLOWED) && Lists(again, ALLOWED)
    ensures var once := Normalized(spec, order).value;
            Meaning(Normalized(once, again).value) == Meaning(once)
  {
    NormalizedMeaning(spec, order, ALLOWED);
    NormalizedMeaning(Normalized(spec, order).value, again, ALLOWED);
    NormalTwice(MeaningFields(spec.fields), ALLOWED);
  }

  /** Specs equal up to key order normalize to equal specs, in whatever order the allowed keys come. */
  lemma NormalizeRespectsEquality(a: Json, b: Json, order: seq<string>, order': seq<string>)
    requires Meaning(a) == Meaning(b) && Lists(order, ALLOWED) && Lists(order', ALLOWED)
    ensures Normalized(a, order).Some? == Normalized(b, order').Some?
    ensures Normalized(a, order).Some? ==>
      Meaning(Normalized(a, order).value) == Meaning(Normalized(b, order').value)
  {
    if a.Obj? {
      NormalizedMeaning(a, order, ALLOWED);
      NormalizedMeaning(b, order', ALLOWED);
    }
  }

  /** A stored delivery never carries anything but an announcement and its target. */
  lemma DeliveryOnlyAnnounces(spec: Json, order: seq<string>)
    requires spec.Obj? && Lists(order, ALLOWED)
    ensures var fs := Normalized(spec, order).value.fields;
            Find(fs, "delivery").Some? ==>
              exists to :: to != "" && Meaning(Find(fs, "delivery").value) == Announcement(to)
  {
    NormalizedMeaning(spec, order, ALLOWED);
    var fs, m := Normalized(spec, order).value.fields, KeptV(MeaningFields(spec.fields), ALLOWED);
    MeaningFinds(fs, "delivery");
    if Find(fs, "delivery").Some? {
      assert WithDeliveryV(m)["delivery"] == Announcement(Strip(m["delivery"].fields["to"].s));
    }
  }

  // ----- the normal form can be printed and hashed -----

  lemma {:induction false} KeepFrom(fs: seq<Field>, order: seq<string>)
    requires Printable(Obj(fs)) && forall i, k :: 0 <= i < k < |order| ==> order[i] != order[k]
    ensures Printable(Obj(Keep(fs, order)))
    ensures forall f :: f in Keep(fs, order) ==> f.key in order
  {
    if order != [] {
      KeepFrom(fs, order[1..]);
      var value := Find(fs, order[0]);
      if value.Some? {
        var i :| 0 <= i < |fs| && fs[i] == Field(order[0], value.value);
        PrintableCons(fs[i], Keep(fs, order[1..]));
      }
    }
  }

  lemma PrintableCons(f: Field, rest: seq<Field>)
    requires Printable(f.value) && Printable(Obj(rest))
    requires forall g :: g in rest ==> g.key != f.key
    ensures Printable(Obj([f] + rest))
  {
    var all := [f] + rest;
    forall i, k | 0 <= i < k < |all| ensures all[i].key != all[k].key {
      if i == 0 {
        assert all[k] in rest;
      }
    }
  }

  lemma {:induction false} RemovePrintable(fs: seq<Field>, key: string)
    requires Printable(Obj(fs))
    ensures Printable(Obj(Remove(fs, key)))
    ensures forall f :: f in Remove(fs, key) ==> f in fs
  {
    if fs != [] {
      assert Printable(Obj(fs[1..]));
      RemovePrintable(fs[1..], key);
      if fs[0].key != key {
        forall g | g in Remove(fs[1..], key) ensures g.key != fs[0].key {
          var k :| 0 <= k < |fs[1..]| && fs[1..][k] == g;
          assert fs[0].key != fs[k + 1].key;
        }
        PrintableCons(fs[0], Remove(fs[1..], key));
      }
    }
  }

  lemma {:induction false} SetPrintable(fs: seq<Field>, key: string, value: Json)
    requires Printable(Obj(fs)) && Printable(value)
    ensures Printable(Obj(Set(fs, key, value)))
    ensures forall f :: f in Set(fs, key, value) ==> f == Field(key, value) || f in fs
  {
    if fs != [] {
      assert Printable(Obj(fs[1..]));
      var rest := if fs[0].key == key then fs[1..] else Set(fs[1..], key, value);
      if fs[0].key != key {
        SetPrintable(fs[1..], key, value);
      }
      forall g | g in rest ensures g.key != fs[0].key {
        if g in fs[1..] {
          var k :| 0 <= k < |fs[1..]| && fs[1..][k] == g;
          assert fs[0].key != fs[k + 1].key;
        }
      }
      PrintableCons(if fs[0].key == key then Field(key, value) else fs[0], rest);
    }
  }

  lemma NormalizedPrintable(spec: Json, order: seq<string>)
    requires spec.Obj? && Printable(spec) && forall i, k :: 0 <= i < k < |order| ==> order[i] != order[k]
    ensures Printable(Normalized(spec, order).value)
  {
    var kept := Keep(spec.fields, order);
    KeepFrom(spec.fields, order);
    var given := Find(kept, "delivery");
    if given.Some? {
      RemovePrintable(kept, "delivery");
      if Delivery(given.value).Some? {
        SetPrintable(kept, "delivery", Delivery(given.value).value);
      }
    }
  }

  /** Normalizing again never changes a spec's hash, whatever order the allowed keys are iterated in. */
  lemma NormalizeKeepsHash<H(!new)>(hash: string -> H, spec: Json, order: seq<string>, again: seq<string>)
    requires spec.Obj? && Printable(spec) && Lists(order, ALLOWED) && Lists(again, ALLOWED)
    requires forall i, k :: 0 <= i < k < |order| ==> order[i] != order[k]
    requires forall i, k :: 0 <= i < k < |again| ==> again[i] != again[k]
    ensures var once := Normalized(spec, order).value;
            SpecHash(hash, Normalized(once, again).value) == SpecHash(hash, once)
  {
    var once := Normalized(spec, order).value;
    NormalizedPrintable(spec, order);
    NormalizedPrintable(once, again);
    NormalizeIsIdempotent(spec, order, again);
    CanonicalIdentifies(Normalized(once, again).value, once);
  }
}
