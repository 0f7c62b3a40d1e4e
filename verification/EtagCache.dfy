/** Conditional reads over HTTP. */
module EtagCache {
  // A body is kept with the ETag it came with, and a 304 answers with the kept body (RFC 9110 section 13.1.2).
  // Requests interleave at the one point where a request waits for its answer, and the server changes at any
  // time.

  import opened Options
  import opened Json

  const CAPACITY := 256

  datatype Slot = Slot(key: string, etag: string, body: Json)

  /** What the server sends back; an empty ETag stands for none. */
  datatype Response =
    | Ok(etag: string, body: Option<Json>)
    | NotModified
    | Missing
    | Conflict
    | Failed
    | Unreachable

  datatype Result = Returned(body: Option<Json>) | RaisedConflict | Raised

  // ----- the ordered dict, oldest use first -----

  function Lookup(slots: seq<Slot>, key: string): (r: Option<Slot>)
    ensures r.Some? ==> r.value in slots && r.value.key == key
    ensures r.None? ==> forall i :: 0 <= i < |slots| ==> slots[i].key != key
  {
    if slots == [] then None
    else if slots[0].key == key then Some(slots[0])
    else
      var rest := Lookup(slots[1..], key);
      assert rest.None? ==> forall i :: 1 <= i < |slots| ==> slots[i] == slots[1..][i - 1];
      rest
  }

  function Without(slots: seq<Slot>, key: string): seq<Slot> {
    if slots == [] then []
    else (if slots[0].key == key then [] else [slots[0]]) + Without(slots[1..], key)
  }

  /** `move_to_end(key)`. */
  function Touched(slots: seq<Slot>, key: string): seq<Slot> {
    var found := Lookup(slots, key);
    if found.None? then slots else Without(slots, key) + [found.value]
  }

  /** The slot stored last, the oldest one dropped beyond the capacity. */
  function Stored(slots: seq<Slot>, slot: Slot): seq<Slot> {
    var grown := Without(slots, slot.key) + [slot];
    if |grown| > CAPACITY then grown[1..] else grown
  }

  predicate Sound(slots: seq<Slot>) {
    && |slots| <= CAPACITY
    && DistinctSlots(slots)
  }

  predicate DistinctSlots(slots: seq<Slot>) {
    forall i, j :: 0 <= i < j < |slots| ==> slots[i].key != slots[j].key
  }

  lemma {:induction false} WithoutMembers(slots: seq<Slot>, key: string)
    ensures forall s :: s in Without(slots, key) <==> s in slots && s.key != key
  {
    if slots != [] {
      WithoutMembers(slots[1..], key);
      assert slots == [slots[0]] + slots[1..];
    }
  }

  lemma {:induction false} WithoutDistinct(slots: seq<Slot>, key: string)
    requires DistinctSlots(slots)
    ensures DistinctSlots(Without(slots, key))
  {
    if slots != [] {
      var tail := slots[1..];
      WithoutDistinct(tail, key);
      WithoutMembers(tail, key);
      var rest := Without(tail, key);
      forall j | 0 <= j < |rest| ensures rest[j].key != slots[0].key {
        assert rest[j] in rest;
        var k :| 0 <= k < |tail| && tail[k] == rest[j];
        assert slots[0].key != slots[k + 1].key;
      }
    }
  }

  lemma {:induction false} WithoutSize(slots: seq<Slot>, key: string)
    requires DistinctSlots(slots)
    ensures |Without(slots, key)| == |slots| - if Lookup(slots, key).Some? then 1 else 0
  {
    if slots != [] {
      WithoutSize(slots[1..], key);
      assert forall i :: 1 <= i < |slots| ==> slots[i] == slots[1..][i - 1];
    }
  }

  lemma WithoutEffect(slots: seq<Slot>, key: string)
    requires DistinctSlots(slots)
    ensures var r := Without(slots, key);
            && DistinctSlots(r)
            && (forall s :: s in r <==> s in slots && s.key != key)
            && |r| == |slots| - if Lookup(slots, key).Some? then 1 else 0
  {
    WithoutMembers(slots, key);
    WithoutDistinct(slots, key);
    WithoutSize(slots, key);
  }

  lemma TouchedSound(slots: seq<Slot>, key: string)
    requires Sound(slots)
    ensures Sound(Touched(slots, key)) && forall s :: s in Touched(slots, key) <==> s in slots
  {
    if Lookup(slots, key).Some? {
      var found := Lookup(slots, key).value;
      WithoutEffect(slots, key);
      forall s | s in slots && s.key == key ensures s == found {
        OneSlot(slots, s, found);
      }
    }
  }

  lemma OneSlot(slots: seq<Slot>, a: Slot, b: Slot)
    requires DistinctSlots(slots)
    requires a in slots && b in slots && a.key == b.key
    ensures a == b
  {
    var i :| 0 <= i < |slots| && slots[i] == a;
    var j :| 0 <= j < |slots| && slots[j] == b;
  }

  /** Storing keeps at most the capacity, never evicts the slot just stored, and invents nothing. */
  lemma StoredSound(slots: seq<Slot>, slot: Slot)
    requires Sound(slots)
    ensures Sound(Stored(slots, slot)) && Lookup(Stored(slots, slot), slot.key) == Some(slot)
    ensures forall s :: s in Stored(slots, slot) ==> s == slot || s in slots
    ensures Lookup(slots, slot.key).Some? || |slots| < CAPACITY ==>
      forall s :: s in slots && s.key != slot.key ==> s in Stored(slots, slot)
    ensures |Stored(slots, slot)| >= |slots|
  {
    WithoutEffect(slots, slot.key);
    var kept, r := Without(slots, slot.key), Stored(slots, slot);
    assert r[|r| - 1] == slot;
    assert forall s :: s in r ==> s == slot || s in kept;
    assert slot in r;
    OneSlot(r, Lookup(r, slot.key).value, slot);
  }

  // ----- the order of use -----

  predicate Earlier(slots: seq<Slot>, a: Slot, b: Slot) {
    exists i, j :: 0 <= i < j < |slots| && slots[i] == a && slots[j] == b
  }

  lemma EarlierCons(x: Slot, rest: seq<Slot>, a: Slot, b: Slot)
    ensures Earlier([x] + rest, a, b) <==> (x == a && b in rest) || Earlier(rest, a, b)
  {
    var all := [x] + rest;
    if Earlier(all, a, b) {
      var i, j :| 0 <= i < j < |all| && all[i] == a && all[j] == b;
      assert rest[j - 1] == b;
      if i > 0 {
        assert rest[i - 1] == a;
      }
    }
    if x == a && b in rest {
      var j :| 0 <= j < |rest| && rest[j] == b;
      assert all[0] == a && all[j + 1] == b;
    }
    if Earlier(rest, a, b) {
      var i, j :| 0 <= i < j < |rest| && rest[i] == a && rest[j] == b;
      assert all[i + 1] == a && all[j + 1] == b;
    }
  }

  lemma {:induction false} WithoutOrder(slots: seq<Slot>, key: string, a: Slot, b: Slot)
    requires a.key != key && b.key != key
    ensures Earlier(Without(slots, key), a, b) <==> Earlier(slots, a, b)
  {
    if slots != [] {
      var rest := slots[1..];
      WithoutOrder(rest, key, a, b);
      WithoutMembers(rest, key);
      EarlierCons(slots[0], rest, a, b);
      assert slots == [slots[0]] + rest;
      if slots[0].key == key {
        assert [] + Without(rest, key) == Without(rest, key);
      } else {
        EarlierCons(slots[0], Without(rest, key), a, b);
      }
    }
  }

  lemma EarlierSnoc(slots: seq<Slot>, x: Slot, a: Slot, b: Slot)
    requires x != a && x != b
    ensures Earlier(slots + [x], a, b) <==> Earlier(slots, a, b)
  {
    var all := slots + [x];
    if Earlier(slots, a, b) {
      var i, j :| 0 <= i < j < |slots| && slots[i] == a && slots[j] == b;
      assert all[i] == a && all[j] == b;
    }
  }

  /** A slot that is used becomes the latest; the others keep their order. */
  lemma TouchedIsLatest(slots: seq<Slot>, key: string, a: Slot, b: Slot)
    requires Lookup(slots, key).Some? && a.key != key && b.key != key
    ensures var r := Touched(slots, key);
      r != [] && r[|r| - 1] == Lookup(slots, key).value && (Earlier(r, a, b) <==> Earlier(slots, a, b))
  {
    WithoutOrder(slots, key, a, b);
    EarlierSnoc(Without(slots, key), Lookup(slots, key).value, a, b);
  }

  /** A slot that is stored becomes the latest and the others keep their order; beyond the capacity the oldest one of
      all, and no other, is gone. */
  lemma StoredIsLatest(slots: seq<Slot>, slot: Slot, a: Slot, b: Slot)
    requires Sound(slots) && a in slots && b in slots && a.key != slot.key && b.key != slot.key
    ensures var r := Stored(slots, slot);
      && r != [] && r[|r| - 1] == slot
      && (a in r <==> !(a == slots[0] && |slots| == CAPACITY && Lookup(slots, slot.key).None?))
      && (a in r && b in r ==> (Earlier(r, a, b) <==> Earlier(slots, a, b)))
  {
    WithoutEffect(slots, slot.key);
    WithoutOrder(slots, slot.key, a, b);
    var kept := Without(slots, slot.key);
    EarlierSnoc(kept, slot, a, b);
    if |kept| == CAPACITY {
      NothingWithout(slots, slot.key);
      var tail := slots[1..];
      assert Stored(slots, slot) == tail + [slot];
      assert slots == [slots[0]] + tail;
      EarlierCons(slots[0], tail, a, b);
      EarlierSnoc(tail, slot, a, b);
      FirstOnly(slots);
    }
  }

  lemma {:induction false} NothingWithout(slots: seq<Slot>, key: string)
    requires Lookup(slots, key).None?
    ensures Without(slots, key) == slots
  {
    if slots != [] {
      NothingWithout(slots[1..], key);
    }
  }

  lemma FirstOnly(slots: seq<Slot>)
    requires slots != [] && DistinctSlots(slots)
    ensures slots[0] !in slots[1..]
  {
  }

  // ----- a request, in two halves around its await -----

  /** What a request sends, and keeps for when the answer comes: the slot it found. */
  function Cached(slots: seq<Slot>, key: string, cache: bool): Option<Slot> {
    if cache then Lookup(slots, key) else None
  }

  function AfterBegin(slots: seq<Slot>, key: string, cache: bool): seq<Slot> {
    if Cached(slots, key, cache).Some? then Touched(slots, key) else slots
  }

  function ResultOf(cached: Option<Slot>, r: Response): Result {
    match r
    case Unreachable => Raised
    case NotModified => Returned(if cached.Some? then Some(cached.value.body) else None)
    case Missing => Returned(None)
    case Conflict => RaisedConflict
    case Failed => Raised
    case Ok(_, body) => Returned(body)
  }

  function AfterFinish(slots: seq<Slot>, key: string, cache: bool, r: Response): seq<Slot> {
    if cache && r.Ok? && r.body.Some? && r.etag != "" then Stored(slots, Slot(key, r.etag, r.body.value)) else slots
  }

  class Cache {
    var slots: seq<Slot>

    constructor ()
      ensures slots == [] && Sound(slots)
    {
      slots := [];
    }

    /** The first half, up to the await. */
    method Begin(key: string, cache: bool) returns (cached: Option<Slot>)
      requires Sound(slots)
      modifies this
      ensures Sound(slots) && cached == Cached(old(slots), key, cache)
      ensures slots == AfterBegin(old(slots), key, cache)
      ensures forall s :: s in slots <==> s in old(slots)
    {
      cached := if cache then Lookup(slots, key) else None;
      if cached.Some? {
        TouchedSound(slots, key);
        slots := Without(slots, key) + [cached.value];
      }
    }

    /** The second half, once the answer is there; other requests may have run in between. */
    method Finish(key: string, cache: bool, cached: Option<Slot>, r: Response) returns (result: Result)
      requires Sound(slots)
      modifies this
      ensures Sound(slots) && result == ResultOf(cached, r)
      ensures slots == AfterFinish(old(slots), key, cache, r)
      ensures cache && r.Ok? && r.body.Some? && r.etag != "" ==>
        Lookup(slots, key) == Some(Slot(key, r.etag, r.body.value))
    {
      if r.Unreachable? {
        return Raised;
      }
      if cached.Some? && r.NotModified? {
        return Returned(Some(cached.value.body));
      }
      if r.Missing? {
        return Returned(None);
      }
      if r.Conflict? {
        return RaisedConflict;
      }
      if r.Failed? {
        return Raised;
      }
      var body := if r.Ok? then r.body else None;
      if cache && body.Some? && r.etag != "" {
        StoredSound(slots, Slot(key, r.etag, body.value));
        slots := Without(slots, key) + [Slot(key, r.etag, body.value)];
        if |slots| > CAPACITY {
          slots := slots[1..];
        }
      }
      result := Returned(body);
    }
  }

  // ----- runs: requests in flight, and a server that changes -----

  datatype Resource = Absent | Present(etag: string, body: Json)

  /** What the server answers from what it holds: 304 only to the ETag it holds now. */
  function Answer(held: Resource, ifNoneMatch: Option<string>): Response {
    match held
    case Absent => Missing
    case Present(etag, body) =>
      if etag != "" && ifNoneMatch == Some(etag) then NotModified else Ok(etag, Some(body))
  }

  /** A reply from what the server held when it answered, or a refusal or failure of any kind. */
  datatype Reply = FromStore(held: Resource) | Broken(conflict: bool)

  datatype Flight = Flight(key: string, cache: bool, cached: Option<Slot>, answer: Option<Reply>)

  datatype Finished = Finished(reply: Reply, result: Result)

  /** `seen` is every representation the server ever held, `done` every request that returned. */
  datatype System = System(
    slots: seq<Slot>, server: map<string, Resource>, flights: map<nat, Flight>, seen: set<Slot>, done: seq<Finished>)

  datatype Event =
    | Change(key: string, resource: Resource)
    | Start(id: nat, key: string, cache: bool)
    | Respond(id: nat)
    | Break(id: nat, conflict: bool)
    | End(id: nat)

  const INITIAL := System([], map[], map[], {}, [])

  function Held(s: System, key: string): Resource {
    if key in s.server then s.server[key] else Absent
  }

  function IfNoneMatch(cached: Option<Slot>): Option<string> {
    if cached.Some? then Some(cached.value.etag) else None
  }

  function ResponseTo(f: Flight): Response
    requires f.answer.Some?
  {
    match f.answer.value
    case FromStore(held) => Answer(held, IfNoneMatch(f.cached))
    case Broken(conflict) => if conflict then Conflict else Failed
  }

  function Answered(s: System, id: nat, reply: Reply): System {
    if id !in s.flights || s.flights[id].answer.Some? then s
    else s.(flights := s.flights[id := s.flights[id].(answer := Some(reply))])
  }

  /** One step; an event that makes no sense changes nothing. */
  function Step(s: System, e: Event): System {
    match e
    case Change(key, resource) =>
      s.(server := s.server[key := resource],
         seen := s.seen + if resource.Present? then {Slot(key, resource.etag, resource.body)} else {})
    case Start(id, key, cache) =>
      if id in s.flights then s
      else s.(slots := AfterBegin(s.slots, key, cache),
              flights := s.flights[id := Flight(key, cache, Cached(s.slots, key, cache), None)])
    case Respond(id) => Answered(s, id, FromStore(if id in s.flights then Held(s, s.flights[id].key) else Absent))
    case Break(id, conflict) => Answered(s, id, Broken(conflict))
    case End(id) =>
      if id !in s.flights || s.flights[id].answer.None? then s
      else
        var f := s.flights[id];
        s.(slots := AfterFinish(s.slots, f.key, f.cache, ResponseTo(f)),
           flights := s.flights - {id},
           done := s.done + [Finished(f.answer.value, ResultOf(f.cached, ResponseTo(f)))])
  }

  function Run(s: System, events: seq<Event>): System
    decreases events
  {
    if events == [] then s else Run(Step(s, events[0]), events[1..])
  }

  /** Equal ETags of one URL imply equal bodies. */
  ghost predicate HonestTags(seen: set<Slot>) {
    forall a, b :: a in seen && b in seen && a.key == b.key && a.etag == b.etag && a.etag != "" ==> a.body == b.body
  }

  /** What a request should come to: the body the server held when it answered, or the failure. */
  function Expected(reply: Reply): Result {
    match reply
    case FromStore(held) => Returned(if held.Present? then Some(held.body) else None)
    case Broken(conflict) => if conflict then RaisedConflict else Raised
  }

  predicate FlightSound(f: Flight, seen: set<Slot>) {
    && (f.cached.Some? ==> f.cached.value in seen && f.cached.value.key == f.key)
    && (f.answer.Some? && f.answer.value.FromStore? && f.answer.value.held.Present? ==>
          Slot(f.key, f.answer.value.held.etag, f.answer.value.held.body) in seen)
  }

  ghost predicate Inv(s: System) {
    && Sound(s.slots)
    && (forall slot :: slot in s.slots ==> slot in s.seen)
    && (forall key :: key in s.server && s.server[key].Present? ==>
          Slot(key, s.server[key].etag, s.server[key].body) in s.seen)
    && (forall id :: id in s.flights ==> FlightSound(s.flights[id], s.seen))
    && (forall i :: 0 <= i < |s.done| ==> s.done[i].result == Expected(s.done[i].reply))
  }

  lemma StepGrows(s: System, e: Event)
    ensures s.seen <= Step(s, e).seen
  {
  }

  lemma {:induction false} RunGrows(s: System, events: seq<Event>)
    ensures s.seen <= Run(s, events).seen
    decreases events
  {
    if events != [] {
      RunGrows(Step(s, events[0]), events[1..]);
    }
  }

  lemma FinishesRight(f: Flight, seen: set<Slot>)
    requires FlightSound(f, seen) && HonestTags(seen) && f.answer.Some?
    ensures ResultOf(f.cached, ResponseTo(f)) == Expected(f.answer.value)
    ensures ResponseTo(f).Ok? ==> ResponseTo(f).body.Some? && Slot(f.key, ResponseTo(f).etag, ResponseTo(f).body.value) in seen
  {
  }

  lemma StepKeeps(s: System, e: Event)
    requires Inv(s) && HonestTags(s.seen)
    ensures Inv(Step(s, e))
  {
    match e
    case Change(_, _) =>
    case Start(_, key, cache) =>
      if Cached(s.slots, key, cache).Some? {
        TouchedSound(s.slots, key);
      }
    case Respond(_) =>
    case Break(_, _) =>
    case End(id) =>
      if id in s.flights && s.flights[id].answer.Some? {
        var f := s.flights[id];
        FinishesRight(f, s.seen);
        if ResponseTo(f).Ok? && f.cache && ResponseTo(f).etag != "" {
          StoredSound(s.slots, Slot(f.key, ResponseTo(f).etag, ResponseTo(f).body.value));
        }
      }
  }

  lemma {:induction false} RunKeeps(s: System, events: seq<Event>)
    requires Inv(s) && HonestTags(Run(s, events).seen)
    ensures Inv(Run(s, events))
    decreases events
  {
    if events != [] {
      var next := Step(s, events[0]);
      RunGrows(next, events[1..]);
      StepGrows(s, events[0]);
      StepKeeps(s, events[0]);
      RunKeeps(next, events[1..]);
    }
  }

  /** For every history of server changes and every interleaving of requests, each request that
      returned gave the body the server held when it answered it, and the cache never holds more
      than its capacity. */
  lemma ReadsAreCurrent(events: seq<Event>)
    requires HonestTags(Run(INITIAL, events).seen)
    ensures var s := Run(INITIAL, events);
            && |s.slots| <= CAPACITY
            && forall i :: 0 <= i < |s.done| ==> s.done[i].result == Expected(s.done[i].reply)
  {
    RunKeeps(INITIAL, events);
  }

  /** One URL read twice, its body changed in between under the same tag. */
  function Reuse(key: string, etag: string, first: Json, second: Json): seq<Event> {
    [Change(key, Present(etag, first)), Start(0, key, true), Respond(0), End(0)]
    + [Change(key, Present(etag, second)), Start(1, key, true), Respond(1), End(1)]
  }

  lemma FirstRead(key: string, etag: string, body: Json)
    requires etag != ""
    ensures
      var s := Run(INITIAL, [Change(key, Present(etag, body)), Start(0, key, true), Respond(0), End(0)]);
      && s.slots == [Slot(key, etag, body)] && s.seen == {Slot(key, etag, body)} && s.flights == map[]
      && s.done == [Finished(FromStore(Present(etag, body)), Returned(Some(body)))]
  {
    FourSteps(INITIAL, Change(key, Present(etag, body)), Start(0, key, true), Respond(0), End(0));
    var s3 := Step(Step(Step(INITIAL, Change(key, Present(etag, body))), Start(0, key, true)), Respond(0));
    assert s3.flights == map[0 := Flight(key, true, None, Some(FromStore(Present(etag, body))))];
    assert s3.slots == [] && Stored([], Slot(key, etag, body)) == [Slot(key, etag, body)];
  }

  lemma SecondRead(s: System, key: string, etag: string, first: Json, second: Json)
    requires etag != "" && s.slots == [Slot(key, etag, first)] && s.flights == map[]
    ensures
      var s' := Run(s, [Change(key, Present(etag, second)), Start(1, key, true), Respond(1), End(1)]);
      && s'.seen == s.seen + {Slot(key, etag, second)}
      && s'.done == s.done + [Finished(FromStore(Present(etag, second)), Returned(Some(first)))]
  {
    FourSteps(s, Change(key, Present(etag, second)), Start(1, key, true), Respond(1), End(1));
    var s2 := Step(Step(s, Change(key, Present(etag, second))), Start(1, key, true));
    assert s2.flights == map[1 := Flight(key, true, Some(Slot(key, etag, first)), None)];
  }

  /** A tag used again for another body returns the old one, for every URL, tag and pair of bodies. */
  lemma ReusedTagReturnsOldBody(key: string, etag: string, first: Json, second: Json)
    requires etag != ""
    ensures
      var s := Run(INITIAL, Reuse(key, etag, first, second));
      && s.seen == {Slot(key, etag, first), Slot(key, etag, second)}
      && |s.done| == 2 && s.done[1] == Finished(FromStore(Present(etag, second)), Returned(Some(first)))
  {
    var before := [Change(key, Present(etag, first)), Start(0, key, true), Respond(0), End(0)];
    var after := [Change(key, Present(etag, second)), Start(1, key, true), Respond(1), End(1)];
    RunAppend(INITIAL, before, after);
    FirstRead(key, etag, first);
    SecondRead(Run(INITIAL, before), key, etag, first, second);
  }

  /** Every request that a run finished came to what it should. */
  ghost predicate AllCurrent(s: System) {
    forall i :: 0 <= i < |s.done| ==> s.done[i].result == Expected(s.done[i].reply)
  }

  /** Whatever representations a server may hold: every history of them, under every interleaving of requests, is
      read right exactly when none of its URLs uses a tag for two bodies. */
  lemma ReadsAreCurrentIff(held: set<Slot>)
    ensures (forall events :: Run(INITIAL, events).seen <= held ==> AllCurrent(Run(INITIAL, events)))
       <==> HonestTags(held)
  {
    if HonestTags(held) {
      forall events | Run(INITIAL, events).seen <= held
        ensures AllCurrent(Run(INITIAL, events))
      {
        ReadsAreCurrent(events);
      }
    } else {
      var a, b :| a in held && b in held && a.key == b.key && a.etag == b.etag && a.etag != "" && a.body != b.body;
      ReusedTagReturnsOldBody(a.key, a.etag, a.body, b.body);
      var s := Run(INITIAL, Reuse(a.key, a.etag, a.body, b.body));
      assert s.done[1].result != Expected(s.done[1].reply);
    }
  }

  lemma FourSteps(s: System, a: Event, b: Event, c: Event, d: Event)
    ensures Run(s, [a, b, c, d]) == Step(Step(Step(Step(s, a), b), c), d)
  {
    assert [a, b, c, d][1..] == [b, c, d] && [b, c, d][1..] == [c, d] && [c, d][1..] == [d] && [d][1..] == [];
    var s3 := Step(Step(Step(s, a), b), c);
    assert Run(s3, [d]) == Run(Step(s3, d), []) == Step(s3, d);
    assert Run(Step(Step(s, a), b), [c, d]) == Run(s3, [d]);
    assert Run(Step(s, a), [b, c, d]) == Run(Step(Step(s, a), b), [c, d]);
  }

  lemma {:induction false} RunAppend(s: System, a: seq<Event>, b: seq<Event>)
    ensures Run(s, a + b) == Run(Run(s, a), b)
    decreases a
  {
    if a == [] {
      assert a + b == b;
    } else {
      assert (a + b)[1..] == a[1..] + b;
      RunAppend(Step(s, a[0]), a[1..], b);
    }
  }
}
