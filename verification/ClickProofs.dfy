/**
 Steps towards the theorems on clicks.

 What validation says of a click's keys, inputs and checks, and what collecting values keeps: each key's value
 is one its input shows, and sending the collected values back collects them again.
 */
module ClickProofs {
  import opened Options
  import opened Json
  import opened Pointer
  import opened Walk
  import S = Surface
  import opened Inputs
  import opened PlainText
  import opened Validate
  import opened Click

  // ----- the inputs of a surface -----

  predicate DistinctPaths(inputs: seq<InputAt>) {
    forall i, j :: 0 <= i < j < |inputs| ==> inputs[i].path != inputs[j].path
  }

  predicate HasPath(inputs: seq<InputAt>, path: string) {
    exists i :: 0 <= i < |inputs| && inputs[i].path == path
  }

  lemma HasPathCons(x: InputAt, rest: seq<InputAt>, path: string)
    ensures HasPath([x] + rest, path) <==> x.path == path || HasPath(rest, path)
  {
    var all := [x] + rest;
    assert all[0] == x;
    assert forall i :: 0 <= i < |rest| ==> all[i + 1] == rest[i];
  }

  lemma {:induction false} PutInputEffect(inputs: seq<InputAt>, x: InputAt)
    ensures forall y :: y in PutInput(inputs, x) ==> y == x || y in inputs
    ensures forall p :: HasPath(PutInput(inputs, x), p) <==> p == x.path || HasPath(inputs, p)
    ensures DistinctPaths(inputs) ==> DistinctPaths(PutInput(inputs, x))
  {
    if inputs == [] {
      assert PutInput(inputs, x) == [x] + [];
      forall p ensures HasPath([x] + [], p) <==> p == x.path { HasPathCons(x, [], p); }
    } else {
      assert inputs == [inputs[0]] + inputs[1..];
      var r := if inputs[0].path == x.path then inputs[1..] else PutInput(inputs[1..], x);
      forall p
        ensures HasPath(inputs, p) <==> inputs[0].path == p || HasPath(inputs[1..], p)
        ensures inputs[0].path == x.path ==> (HasPath(PutInput(inputs, x), p) <==> x.path == p || HasPath(r, p))
        ensures inputs[0].path != x.path ==> (HasPath(PutInput(inputs, x), p) <==> inputs[0].path == p || HasPath(r, p))
      {
        HasPathCons(inputs[0], inputs[1..], p);
        HasPathCons(x, r, p);
        HasPathCons(inputs[0], r, p);
      }
      if inputs[0].path != x.path {
        PutInputEffect(inputs[1..], x);
        if DistinctPaths(inputs) {
          forall j | 0 <= j < |r| ensures inputs[0].path != r[j].path {
            assert r[j] in r;
          }
        }
      }
    }
  }

  /** The inputs are the bound inputs among the components, one per pointer. */
  lemma {:induction false} InputsAreComponents(components: seq<S.Component>)
    ensures forall x :: x in InputsOf(components) ==> FromComponent(components, x)
    ensures forall p :: p in InputPaths(components) <==> HasPath(InputsOf(components), p)
    ensures DistinctPaths(InputsOf(components))
    decreases |components|
  {
    if components != [] {
      var n := |components| - 1;
      var init, c := components[..n], components[n];
      assert components == init + [c];
      InputsAreComponents(init);
      InputPathsSnoc(init, c);
      forall x | x in InputsOf(init) ensures FromComponent(components, x) {
        var i :| 0 <= i < |init| && S.BoundInput(init[i]) && InputOf(init[i]) == x;
        assert components[i] == init[i];
      }
      if S.BoundInput(c) {
        PutInputEffect(InputsOf(init), InputOf(c));
        assert FromComponent(components, InputOf(c));
      }
    }
  }

  predicate FromComponent(components: seq<S.Component>, x: InputAt) {
    exists i :: 0 <= i < |components| && S.BoundInput(components[i]) && InputOf(components[i]) == x
  }

  lemma InputFound(components: seq<S.Component>, path: string)
    ensures OrderOf(InputsOf(components), path).Some? <==> path in InputPaths(components)
  {
    InputsAreComponents(components);
    var inputs := InputsOf(components);
    if OrderOf(inputs, path).Some? {
      assert inputs[OrderOf(inputs, path).value] in inputs;
    }
  }

  // ----- the bound keys of a context -----

  /** Each bound key is a context entry whose value is an object with that pointer. */
  lemma {:induction false} BoundEntry(context: seq<Field>, i: nat) returns (k: nat)
    requires i < |S.BoundPaths(context)|
    ensures k < |context| && S.BoundPaths(context)[i].key == context[k].key
    ensures S.BoundPath(context[k].value) == Some(S.BoundPaths(context)[i].path)
    ensures context[k].value.Obj?
  {
    if S.BoundPath(context[0].value).Some? && i == 0 {
      k := 0;
    } else {
      var n := if S.BoundPath(context[0].value).Some? then 1 else 0;
      k := BoundEntry(context[1..], i - n);
      k := k + 1;
    }
  }

  predicate DistinctKeys(paths: seq<S.Bound>) {
    forall i, j :: 0 <= i < j < |paths| ==> paths[i].key != paths[j].key
  }

  lemma {:induction false} BoundKeysDistinct(context: seq<Field>)
    requires Distinct(context)
    ensures DistinctKeys(S.BoundPaths(context))
  {
    if context != [] {
      var tail := context[1..];
      BoundKeysDistinct(tail);
      var rest := S.BoundPaths(tail);
      forall j | 0 <= j < |rest| ensures rest[j].key != context[0].key {
        var k := BoundEntry(tail, j);
        assert context[0].key != context[k + 1].key;
      }
    }
  }

  predicate DistinctSent(paths: seq<S.Bound>) {
    forall i, j :: 0 <= i < j < |paths| ==> paths[i].path != paths[j].path
  }

  /** A click on a Button of valid components, with its event. */
  predicate ValidClick(click: Click) {
    && ComponentsValid(click.surface.components)
    && click.button.Button? && click.button.action == S.Send(click.event)
    && exists i :: 0 <= i < |click.surface.components| && click.surface.components[i].body == click.button
  }

  lemma ValidClickOf(ui: S.PostUi, request: S.Request)
    requires ComponentsValid(ui.surface.components) && ClickOf(ui, request).Some?
    ensures ValidClick(ClickOf(ui, request).value)
  {
    var source := S.ById(ui.surface.components, request.source).value;
    var i :| 0 <= i < |ui.surface.components| && ui.surface.components[i] == source;
  }

  lemma ValidIsComponentsValid(surface: S.Surface, iso: Calendar)
    requires Valid(surface, iso)
    ensures ComponentsValid(surface.components)
  {
  }

  function PathsOfClick(click: Click): seq<S.Bound> {
    S.BoundPaths(click.event.context)
  }

  /** What validation established about the keys of a click's context. */
  lemma SentKeys(click: Click)
    requires ValidClick(click)
    ensures DistinctKeys(PathsOfClick(click)) && DistinctSent(PathsOfClick(click))
    ensures forall i :: 0 <= i < |PathsOfClick(click)| ==>
      && OrderOf(InputsOf(click.surface.components), PathsOfClick(click)[i].path).Some?
      && Plain(PathsOfClick(click)[i].key)
  {
    var components, event, paths := click.surface.components, click.event, PathsOfClick(click);
    var n :| 0 <= n < |components| && components[n].body == click.button;
    assert TypedComponent(components[n]);
    BoundKeysDistinct(event.context);
    assert EventClean(components, click.button.child, event);
    forall i | 0 <= i < |paths|
      ensures OrderOf(InputsOf(components), paths[i].path).Some? && Plain(paths[i].key)
      ensures forall j :: i < j < |paths| ==> paths[i].path != paths[j].path
    {
      var k := BoundEntry(event.context, i);
      assert GoodEntry(event.context[k], paths, InputPaths(components));
      InputFound(components, paths[i].path);
    }
  }

  // ----- collecting -----

  /** The value a key sends. */
  function ValueOf(key: S.Bound, inputs: seq<InputAt>, given: map<string, Json>): Json
    requires OrderOf(inputs, key.path).Some? && key.key in given
  {
    if given[key.key] == Null then Empty(inputs[OrderOf(inputs, key.path).value].kind) else given[key.key]
  }

  predicate Found(keys: seq<S.Bound>, inputs: seq<InputAt>, given: map<string, Json>) {
    forall i :: 0 <= i < |keys| ==> OrderOf(inputs, keys[i].path).Some? && keys[i].key in given
  }

  lemma {:induction false} CollectNoCrash(keys: seq<S.Bound>, inputs: seq<InputAt>, given: map<string, Json>, iso: Calendar)
    requires Found(keys, inputs, given)
    ensures !Collect(keys, inputs, given, iso).Crash?
    ensures Collect(keys, inputs, given, iso).Refused? ==> Collect(keys, inputs, given, iso).why == BadValue
    ensures (forall i :: 0 <= i < |keys| ==>
               Shown(inputs[OrderOf(inputs, keys[i].path).value].kind, ValueOf(keys[i], inputs, given), iso).Some?)
      ==> Collect(keys, inputs, given, iso).Done?
    decreases keys
  {
    if keys != [] {
      forall i | 0 <= i < |keys[1..]| ensures keys[1..][i] == keys[i + 1] {}
      CollectNoCrash(keys[1..], inputs, given, iso);
    }
  }

  /** What a key collected: in the action, and as its input shows it. */
  predicate Holds(bound: map<string, Json>, key: S.Bound, inputs: seq<InputAt>, given: map<string, Json>, iso: Calendar)
    requires OrderOf(inputs, key.path).Some? && key.key in given
  {
    && key.key in bound && bound[key.key] == ValueOf(key, inputs, given) != Null
    && Shown(inputs[OrderOf(inputs, key.path).value].kind, ValueOf(key, inputs, given), iso).Some?
  }

  lemma HoldsFirst(keys: seq<S.Bound>, inputs: seq<InputAt>, given: map<string, Json>, iso: Calendar)
    requires keys != [] && OrderOf(inputs, keys[0].path).Some? && keys[0].key in given && DistinctKeys(keys)
    requires Collect(keys, inputs, given, iso).Done?
    ensures Holds(Collect(keys, inputs, given, iso).value.bound, keys[0], inputs, given, iso)
  {
    CollectParts(keys, inputs, given, iso);
    CollectedOne(keys[0], inputs, given, iso);
    var tail := keys[1..];
    assert forall j :: 0 <= j < |tail| ==> tail[j] == keys[j + 1];
    NotAmong(keys[0].key, tail);
  }

  lemma HoldsLater(keys: seq<S.Bound>, inputs: seq<InputAt>, given: map<string, Json>, iso: Calendar, key: S.Bound)
    requires keys != [] && OrderOf(inputs, key.path).Some? && key.key in given
    requires Collect(keys, inputs, given, iso).Done? && Collect(keys[1..], inputs, given, iso).Done?
    requires Holds(Collect(keys[1..], inputs, given, iso).value.bound, key, inputs, given, iso)
    ensures Holds(Collect(keys, inputs, given, iso).value.bound, key, inputs, given, iso)
  {
    CollectParts(keys, inputs, given, iso);
  }

  lemma TailDistinct(keys: seq<S.Bound>)
    requires keys != [] && DistinctKeys(keys)
    ensures DistinctKeys(keys[1..])
  {
    var tail := keys[1..];
    assert forall j :: 0 <= j < |tail| ==> tail[j] == keys[j + 1];
  }

  lemma {:induction false} AllHold(keys: seq<S.Bound>, inputs: seq<InputAt>, given: map<string, Json>, iso: Calendar, key: S.Bound)
    requires DistinctKeys(keys) && key in keys && OrderOf(inputs, key.path).Some? && key.key in given
    requires Collect(keys, inputs, given, iso).Done?
    ensures Holds(Collect(keys, inputs, given, iso).value.bound, key, inputs, given, iso)
    decreases |keys|
  {
    if key == keys[0] {
      HoldsFirst(keys, inputs, given, iso);
    } else {
      assert key in keys[1..];
      TailDistinct(keys);
      CollectParts(keys, inputs, given, iso);
      AllHold(keys[1..], inputs, given, iso, key);
      HoldsLater(keys, inputs, given, iso, key);
    }
  }

  /** What was collected is each key's value, and never null. */
  lemma CollectedValue(keys: seq<S.Bound>, inputs: seq<InputAt>, given: map<string, Json>, iso: Calendar, i: nat)
    requires Found(keys, inputs, given) && DistinctKeys(keys) && i < |keys|
    requires Collect(keys, inputs, given, iso).Done?
    ensures keys[i].key in Collect(keys, inputs, given, iso).value.bound
    ensures Collect(keys, inputs, given, iso).value.bound[keys[i].key] == ValueOf(keys[i], inputs, given)
    ensures ValueOf(keys[i], inputs, given) != Null
    ensures Shown(inputs[OrderOf(inputs, keys[i].path).value].kind, ValueOf(keys[i], inputs, given), iso).Some?
  {
    AllHold(keys, inputs, given, iso, keys[i]);
  }

  lemma NotAmong(key: string, tail: seq<S.Bound>)
    requires forall j :: 0 <= j < |tail| ==> tail[j].key != key
    ensures key !in (set j | 0 <= j < |tail| :: tail[j].key)
  {
  }

  lemma CollectParts(keys: seq<S.Bound>, inputs: seq<InputAt>, given: map<string, Json>, iso: Calendar)
    requires keys != [] && Collect(keys, inputs, given, iso).Done?
    ensures CollectOne(keys[0], inputs, given, iso).Done? && Collect(keys[1..], inputs, given, iso).Done?
    ensures Collect(keys, inputs, given, iso).value.bound
         == CollectOne(keys[0], inputs, given, iso).value.bound + Collect(keys[1..], inputs, given, iso).value.bound
  {
  }

  lemma CollectedOne(key: S.Bound, inputs: seq<InputAt>, given: map<string, Json>, iso: Calendar)
    requires OrderOf(inputs, key.path).Some? && key.key in given && CollectOne(key, inputs, given, iso).Done?
    ensures CollectOne(key, inputs, given, iso).value.bound == map[key.key := ValueOf(key, inputs, given)]
    ensures ValueOf(key, inputs, given) != Null
    ensures Shown(inputs[OrderOf(inputs, key.path).value].kind, ValueOf(key, inputs, given), iso).Some?
  {
    EmptyIsShown(inputs[OrderOf(inputs, key.path).value].kind, iso);
  }

  lemma SameOne(key: S.Bound, inputs: seq<InputAt>, given: map<string, Json>, again: map<string, Json>, iso: Calendar)
    requires OrderOf(inputs, key.path).Some? && key.key in given && key.key in again
    requires ValueOf(key, inputs, given) == ValueOf(key, inputs, again)
    ensures CollectOne(key, inputs, again, iso) == CollectOne(key, inputs, given, iso)
  {
  }

  lemma SameCollect(
    keys: seq<S.Bound>, inputs: seq<InputAt>, given: map<string, Json>, again: map<string, Json>, iso: Calendar)
    requires keys != [] && CollectOne(keys[0], inputs, again, iso) == CollectOne(keys[0], inputs, given, iso)
    requires Collect(keys[1..], inputs, again, iso) == Collect(keys[1..], inputs, given, iso)
    ensures Collect(keys, inputs, again, iso) == Collect(keys, inputs, given, iso)
  {
  }

  /** Sending values that read as the collected ones collects the same. */
  lemma {:induction false} CollectAgain(
    keys: seq<S.Bound>, inputs: seq<InputAt>, given: map<string, Json>, again: map<string, Json>, iso: Calendar)
    requires Found(keys, inputs, given) && Found(keys, inputs, again)
    requires forall i :: 0 <= i < |keys| ==> ValueOf(keys[i], inputs, given) == ValueOf(keys[i], inputs, again)
    ensures Collect(keys, inputs, again, iso) == Collect(keys, inputs, given, iso)
    decreases keys
  {
    if keys != [] {
      assert forall j :: 0 <= j < |keys[1..]| ==> keys[1..][j] == keys[j + 1];
      CollectAgain(keys[1..], inputs, given, again, iso);
      SameOne(keys[0], inputs, given, again, iso);
      SameCollect(keys, inputs, given, again, iso);
    }
  }

  lemma {:induction false} SortMembers(paths: seq<S.Bound>, inputs: seq<InputAt>)
    ensures |SortBound(paths, inputs)| == |paths|
    ensures forall b :: b in SortBound(paths, inputs) <==> b in paths
    ensures DistinctKeys(paths) ==> DistinctKeys(SortBound(paths, inputs))
  {
    SortPermutes(paths, inputs);
    var sorted := SortBound(paths, inputs);
    assert |multiset(sorted)| == |multiset(paths)|;
    forall b ensures b in sorted <==> b in paths {
      assert b in multiset(sorted) <==> b in multiset(paths);
    }
    if DistinctKeys(paths) {
      DistinctKeysPermuted(paths, sorted);
    }
  }

  lemma {:induction false} DistinctKeysPermuted(a: seq<S.Bound>, b: seq<S.Bound>)
    requires multiset(a) == multiset(b) && DistinctKeys(a)
    ensures DistinctKeys(b)
    decreases |a|
  {
    if a != [] {
      var before, after := TakeOut(a, b);
      assert a == [a[0]] + a[1..];
      assert DistinctKeys(a[1..]) by {
        forall i, j | 0 <= i < j < |a[1..]| ensures a[1..][i].key != a[1..][j].key {
          assert a[i + 1].key != a[j + 1].key;
        }
      }
      DistinctKeysPermuted(a[1..], before + after);
      var rest: seq<S.Bound> := before + after;
      forall k | 0 <= k < |rest| ensures rest[k].key != a[0].key {
        assert rest[k] in multiset(a[1..]);
        var j :| 0 <= j < |a[1..]| && a[1..][j] == rest[k];
        assert a[0].key != a[j + 1].key;
      }
      OneMore(before, a[0], after);
    } else {
      assert |multiset(b)| == |b|;
    }
  }

  lemma OneMore(before: seq<S.Bound>, x: S.Bound, after: seq<S.Bound>)
    requires DistinctKeys(before + after)
    requires forall k :: 0 <= k < |before + after| ==> (before + after)[k].key != x.key
    ensures DistinctKeys(before + [x] + after)
  {
    var s, t := before + after, before + [x] + after;
    forall i, j | 0 <= i < j < |t| ensures t[i].key != t[j].key {
      var i', j' := if i < |before| then i else i - 1, if j < |before| then j else j - 1;
      if i == |before| {
        assert t[j] == s[j'];
      } else if j == |before| {
        assert t[i] == s[i];
      } else {
        assert t[i] == s[i'] && t[j] == s[j'] && i' < j';
      }
    }
  }
}
