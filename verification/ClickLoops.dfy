/** The loops of building an action, each against the function that specifies it. */
module ClickLoops {
  import opened Options
  import opened Json
  import opened Pointer
  import S = Surface
  import opened Inputs
  import opened Click

  function Onto(acc: Collected, rest: Outcome<Collected>): Outcome<Collected> {
    if rest.Done? then Done(Merge(acc, rest.value)) else rest
  }

  lemma OntoStep(acc: Collected, keys: seq<S.Bound>, i: nat, inputs: seq<InputAt>, given: map<string, Json>, iso: Calendar)
    requires i < |keys|
    ensures var one := CollectOne(keys[i], inputs, given, iso);
            Onto(acc, Collect(keys[i..], inputs, given, iso))
            == if one.Done? then Onto(Merge(acc, one.value), Collect(keys[i + 1..], inputs, given, iso)) else one
  {
    assert keys[i..][1..] == keys[i + 1..];
    var one, rest := CollectOne(keys[i], inputs, given, iso), Collect(keys[i + 1..], inputs, given, iso);
    if one.Done? && rest.Done? {
      assert acc.bound + (one.value.bound + rest.value.bound) == (acc.bound + one.value.bound) + rest.value.bound;
      assert acc.shown + (one.value.shown + rest.value.shown) == (acc.shown + one.value.shown) + rest.value.shown;
    }
  }

  lemma OntoNothing(o: Outcome<Collected>)
    ensures Onto(Collected(map[], []), o) == o
  {
    if o.Done? {
      assert map[] + o.value.bound == o.value.bound && [] + o.value.shown == o.value.shown;
    }
  }

  lemma NothingOnto(acc: Collected, keys: seq<S.Bound>, inputs: seq<InputAt>, given: map<string, Json>, iso: Calendar)
    requires |keys| == 0
    ensures Onto(acc, Collect(keys, inputs, given, iso)) == Done(acc)
  {
    assert acc.bound + map[] == acc.bound && acc.shown + [] == acc.shown;
  }

  /** `bound` and `shown` grow key by key. */
  method CollectValues(keys: seq<S.Bound>, inputs: seq<InputAt>, given: map<string, Json>, iso: Calendar)
    returns (r: Outcome<Collected>)
    ensures r == Collect(keys, inputs, given, iso)
  {
    var bound: map<string, Json> := map[];
    var shown: seq<Line> := [];
    assert keys[0..] == keys;
    OntoNothing(Collect(keys, inputs, given, iso));
    for i := 0 to |keys|
      invariant Collect(keys, inputs, given, iso) == Onto(Collected(bound, shown), Collect(keys[i..], inputs, given, iso))
    {
      OntoStep(Collected(bound, shown), keys, i, inputs, given, iso);
      var one := CollectOne(keys[i], inputs, given, iso);
      if one.IsFailure() {
        return one;
      }
      bound := bound + one.value.bound;
      shown := shown + one.value.shown;
    }
    NothingOnto(Collected(bound, shown), keys[|keys|..], inputs, given, iso);
    r := Done(Collected(bound, shown));
  }

  /** The first component with a failing check ends the click. */
  method RunChecks(checked: seq<Checked>, model: Json) returns (r: Outcome<()>)
    ensures r == PassChecks(checked, model)
  {
    assert checked[0..] == checked;
    for i := 0 to |checked|
      invariant PassChecks(checked, model) == PassChecks(checked[i..], model)
    {
      assert checked[i..][1..] == checked[i + 1..];
      var failures := CheckFailures(checked[i].checks, model);
      if failures.IsFailure() {
        return failures.PropagateFailure();
      }
      if failures.value != [] {
        return Refused(checked[i].at, CheckFails(failures.value[0]));
      }
    }
    r := Done(());
  }

  /** The action a request's click sends and the text it posts; else why not. */
  method Build(ui: S.PostUi, request: S.Request, iso: Calendar) returns (r: Outcome<(S.UiAction, string)>)
    ensures r == BuildAction(ui, request, iso)
  {
    var click := ClickOf(ui, request);
    if click.None? {
      return Refused("/sourceComponentId", NotAnEventButton);
    }
    r := BuildClick(click.value, iso);
  }

  method BuildClick(click: Click, iso: Calendar) returns (r: Outcome<(S.UiAction, string)>)
    requires click.button.Button?
    ensures r == BuildEvent(click, iso)
  {
    var paths := S.BoundPaths(click.event.context);
    if click.given.Keys != KeysOf(paths) {
      return Refused("/bound", WrongKeys);
    }
    var inputs := InputsOf(click.surface.components);
    if exists i :: 0 <= i < |paths| && OrderOf(inputs, paths[i].path).None? {
      return Crash;
    }
    var sent := CollectValues(SortBound(paths, inputs), inputs, click.given, iso);
    if sent.IsFailure() {
      return sent.PropagateFailure();
    }
    SortKeepsKeys(paths, inputs);
    var model := WriteAll(click.surface.dataModel, WritesOf(paths, sent.value.bound));
    var passed := RunChecks(CheckedBy(click.button, paths, inputs), model);
    r := FinishClick(click, sent.value.shown, sent.value.bound, passed);
  }

  /** The text and the action, once the checks have passed. */
  method FinishClick(click: Click, shown: seq<Line>, bound: map<string, Json>, passed: Outcome<()>)
    returns (r: Outcome<(S.UiAction, string)>)
    requires click.button.Button?
    ensures r == Finish(click, shown, bound, passed)
  {
    if passed.IsFailure() {
      return passed.PropagateFailure();
    }
    var caption := ButtonLabel(click.surface.components, click.button.child);
    if caption.IsFailure() {
      return caption.PropagateFailure();
    }
    var text := PostText(Said(click.event, caption.value), shown);
    if |text| > MESSAGE_MAX {
      return Refused("/bound", TooLong);
    }
    r := Done((S.UiAction(click.event.name, click.surface.surfaceId, click.source, click.event.userMessage,
                          SentContext(click.event.context, bound)), text));
  }
}
