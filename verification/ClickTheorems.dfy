/** What clicks on valid surfaces guarantee. */
module ClickTheorems {
  // No unguarded lookup fails, whatever the model and the request. The verdict, the action and the text depend only
  // on the components and the values sent, provided the sent pointers keep what is written at them. Closing a card
  // stores exactly the model that the click's checks passed over.

  import opened Options
  import opened Text
  import opened Json
  import opened Pointer
  import opened Walk
  import S = Surface
  import opened Inputs
  import opened PlainText
  import opened Validate
  import opened Click
  import opened ClickProofs

  // ----- checks read only what a click sends -----

  predicate SameReads(paths: set<string>, m: Json, m': Json) {
    forall p :: p in paths ==> Read(m, p) == Read(m', p)
  }

  lemma {:induction false} ArgIsRead(args: seq<Field>, key: string)
    requires Find(args, key).Some? && S.BoundPath(Find(args, key).value).Some?
    ensures S.BoundPath(Find(args, key).value).value in ReadsOf(S.Call("", args))
  {
    var i :| 0 <= i < |args| && args[i] == Field(key, Find(args, key).value);
  }

  lemma ArgReads(args: seq<Field>, key: string, m: Json, m': Json)
    requires SameReads(ReadsOf(S.Call("", args)), m, m') && Find(args, key).Some?
    ensures Arg(Find(args, key).value, m) == Arg(Find(args, key).value, m')
  {
    if S.BoundPath(Find(args, key).value).Some? {
      ArgIsRead(args, key);
    }
  }

  lemma LimitReads(args: seq<Field>, key: string, default: int, m: Json, m': Json)
    requires SameReads(ReadsOf(S.Call("", args)), m, m')
    ensures Limit(args, key, default, m) == Limit(args, key, default, m')
  {
    if Find(args, key).Some? {
      ArgReads(args, key, m, m');
    }
  }

  lemma FailureReads(c: S.Condition, m: Json, m': Json)
    requires SameReads(ReadsOf(c), m, m')
    ensures Failure(c, m) == Failure(c, m')
  {
    match c
    case AtPath(path) =>
    case Call(name, args) =>
      assert ReadsOf(c) == ReadsOf(S.Call("", args));
      if Find(args, "value").Some? {
        ArgReads(args, "value", m, m');
        LimitReads(args, "min", 0, m, m');
        LimitReads(args, "max", |StringOf(Arg(Find(args, "value").value, m))|, m, m');
      }
  }

  lemma {:induction false} FailuresRead(checks: seq<S.Check>, m: Json, m': Json)
    requires forall i :: 0 <= i < |checks| ==> SameReads(ReadsOf(checks[i].condition), m, m')
    ensures CheckFailures(checks, m) == CheckFailures(checks, m')
  {
    if checks != [] {
      FailureReads(checks[0].condition, m, m');
      FailuresRead(checks[1..], m, m');
    }
  }

  lemma {:induction false} PassReads(checked: seq<Checked>, m: Json, m': Json)
    requires forall i, k :: 0 <= i < |checked| && 0 <= k < |checked[i].checks|
               ==> SameReads(ReadsOf(checked[i].checks[k].condition), m, m')
    ensures PassChecks(checked, m) == PassChecks(checked, m')
  {
    if checked != [] {
      FailuresRead(checked[0].checks, m, m');
      PassReads(checked[1..], m, m');
    }
  }

  predicate TypedChecks(checks: seq<S.Check>) {
    forall k :: 0 <= k < |checks| ==> TypedCondition(checks[k].condition)
  }

  lemma {:induction false} FailuresNoCrash(checks: seq<S.Check>, m: Json)
    requires TypedChecks(checks)
    ensures CheckFailures(checks, m).Done?
  {
    if checks != [] {
      assert TypedCondition(checks[0].condition);
      FailuresNoCrash(checks[1..], m);
    }
  }

  lemma {:induction false} PassNoCrash(checked: seq<Checked>, m: Json)
    requires forall i :: 0 <= i < |checked| ==> TypedChecks(checked[i].checks)
    ensures PassChecks(checked, m).Done? || (PassChecks(checked, m).Refused? && PassChecks(checked, m).why.CheckFails?)
  {
    if checked != [] {
      FailuresNoCrash(checked[0].checks, m);
      PassNoCrash(checked[1..], m);
    }
  }

  function SentPaths(paths: seq<S.Bound>): (r: seq<string>)
    ensures |r| == |paths| && forall i :: 0 <= i < |r| ==> r[i] == paths[i].path
  {
    seq(|paths|, i requires 0 <= i < |paths| => paths[i].path)
  }

  /** Typed checks that read only the sent pointers. */
  predicate ReadyChecks(checks: seq<S.Check>, paths: seq<string>) {
    && TypedChecks(checks)
    && forall k :: 0 <= k < |checks| ==> forall p :: p in ReadsOf(checks[k].condition) ==> p in paths
  }

  predicate ChecksReady(checked: seq<Checked>, paths: seq<string>) {
    forall i :: 0 <= i < |checked| ==> ReadyChecks(checked[i].checks, paths)
  }

  lemma ButtonChecks(click: Click)
    requires ValidClick(click)
    ensures ReadyChecks(S.ChecksOf(click.button), SentPaths(PathsOfClick(click)))
  {
    var components := click.surface.components;
    var n :| 0 <= n < |components| && components[n].body == click.button;
    assert TypedComponent(components[n]) && ChecksClean(components[n].body);
    ButtonReads(click);
  }

  lemma ButtonReads(click: Click)
    requires ValidClick(click) && ChecksClean(click.button)
    ensures var checks := S.ChecksOf(click.button);
            forall k :: 0 <= k < |checks| ==> forall p :: p in ReadsOf(checks[k].condition) ==> p in SentPaths(PathsOfClick(click))
  {
    var checks, paths := S.ChecksOf(click.button), PathsOfClick(click);
    forall k, p | 0 <= k < |checks| && p in ReadsOf(checks[k].condition) ensures p in SentPaths(paths) {
      assert p in SentBy(click.button);
      var i :| 0 <= i < |paths| && paths[i].path == p;
      assert SentPaths(paths)[i] == p;
    }
  }

  lemma InputReads(components: seq<S.Component>, x: InputAt)
    requires ComponentsValid(components) && FromComponent(components, x)
    ensures ReadyChecks(x.checks, [x.path])
  {
    var i :| 0 <= i < |components| && S.BoundInput(components[i]) && InputOf(components[i]) == x;
    var c := components[i];
    assert TypedComponent(c) && ChecksClean(c.body);
    assert S.ChecksOf(c.body) == x.checks && SentBy(c.body) == {x.path};
  }

  lemma InputChecks(components: seq<S.Component>, paths: seq<S.Bound>, i: nat)
    requires ComponentsValid(components) && i < |paths| && OrderOf(InputsOf(components), paths[i].path).Some?
    ensures ReadyChecks(InputsOf(components)[OrderOf(InputsOf(components), paths[i].path).value].checks, SentPaths(paths))
  {
    var inputs := InputsOf(components);
    var x := inputs[OrderOf(inputs, paths[i].path).value];
    InputsAreComponents(components);
    assert x in inputs;
    InputReads(components, x);
    assert SentPaths(paths)[i] == x.path;
    assert forall p :: p in [x.path] ==> p in SentPaths(paths);
  }

  lemma PartsReady(button: S.Body, paths: seq<S.Bound>, inputs: seq<InputAt>, sent: seq<string>)
    requires forall i :: 0 <= i < |paths| ==> OrderOf(inputs, paths[i].path).Some?
    requires ReadyChecks(S.ChecksOf(button), sent)
    requires forall i :: 0 <= i < |paths| ==> ReadyChecks(inputs[OrderOf(inputs, paths[i].path).value].checks, sent)
    ensures ChecksReady(CheckedBy(button, paths, inputs), sent)
  {
    var checked := CheckedBy(button, paths, inputs);
    forall i | 0 <= i < |checked|
      ensures ReadyChecks(checked[i].checks, sent)
    {
      if i > 0 {
        assert checked[i].checks == inputs[OrderOf(inputs, paths[i - 1].path).value].checks;
      } else {
        assert checked[i].checks == S.ChecksOf(button);
      }
    }
  }

  /** The checks of a click are typed and read only pointers that it sends. */
  lemma CheckedChecks(click: Click)
    requires ValidClick(click)
    ensures var paths, inputs := PathsOfClick(click), InputsOf(click.surface.components);
            && (forall i :: 0 <= i < |paths| ==> OrderOf(inputs, paths[i].path).Some?)
            && ChecksReady(CheckedBy(click.button, paths, inputs), SentPaths(paths))
  {
    SentKeys(click);
    var components, paths := click.surface.components, PathsOfClick(click);
    ButtonChecks(click);
    forall i | 0 <= i < |paths|
      ensures ReadyChecks(InputsOf(components)[OrderOf(InputsOf(components), paths[i].path).value].checks, SentPaths(paths))
    {
      InputChecks(components, paths, i);
    }
    PartsReady(click.button, paths, InputsOf(components), SentPaths(paths));
  }

  // ----- what the validation of components gives a click -----

  /** Every lookup of the click succeeds and its checks read only what it sends. */
  predicate Ready(components: seq<S.Component>, button: S.Body, paths: seq<S.Bound>)
    requires button.Button?
  {
    && DistinctKeys(paths)
    && (forall i :: 0 <= i < |paths| ==> OrderOf(InputsOf(components), paths[i].path).Some?)
    && ChecksReady(CheckedBy(button, paths, InputsOf(components)), SentPaths(paths))
    && ButtonLabel(components, button.child).Done?
  }

  predicate ReadyClick(click: Click) {
    click.button.Button? && Ready(click.surface.components, click.button, PathsOfClick(click))
  }

  lemma ValidIsReady(click: Click)
    requires ValidClick(click)
    ensures ReadyClick(click)
  {
    SentKeys(click);
    CheckedChecks(click);
    var components := click.surface.components;
    var n :| 0 <= n < |components| && components[n].body == click.button;
    assert LabelledByText(components, components[n].body);
  }

  lemma RequestIsReady(ui: S.PostUi, request: S.Request)
    requires ComponentsValid(ui.surface.components) && ClickOf(ui, request).Some?
    ensures ReadyClick(ClickOf(ui, request).value)
  {
    ValidClickOf(ui, request);
    ValidIsReady(ClickOf(ui, request).value);
  }

  function InputsOfClick(click: Click): seq<InputAt> { InputsOf(click.surface.components) }

  function KeysOfClick(click: Click): seq<S.Bound> { SortBound(PathsOfClick(click), InputsOfClick(click)) }

  function Sent(click: Click, iso: Calendar): Outcome<Collected> {
    Collect(KeysOfClick(click), InputsOfClick(click), click.given, iso)
  }

  /** The keys of a click in the order they are collected. */
  lemma SortedKeys(click: Click)
    requires ReadyClick(click) && click.given.Keys == KeysOf(PathsOfClick(click))
    ensures Found(KeysOfClick(click), InputsOfClick(click), click.given) && DistinctKeys(KeysOfClick(click))
    ensures forall b :: b in KeysOfClick(click) <==> b in PathsOfClick(click)
  {
    var inputs, paths, keys := InputsOfClick(click), PathsOfClick(click), KeysOfClick(click);
    SortMembers(paths, inputs);
    forall i | 0 <= i < |keys| ensures OrderOf(inputs, keys[i].path).Some? && keys[i].key in click.given {
      assert keys[i] in paths;
      var j :| 0 <= j < |paths| && paths[j] == keys[i];
      assert paths[j].key in KeysOf(paths);
    }
  }

  lemma EventSteps(click: Click, iso: Calendar)
    requires click.button.Button? && click.given.Keys == KeysOf(PathsOfClick(click))
    requires forall i :: 0 <= i < |PathsOfClick(click)| ==> OrderOf(InputsOfClick(click), PathsOfClick(click)[i].path).Some?
    ensures !Sent(click, iso).Done? ==> BuildEvent(click, iso) == Sent(click, iso).PropagateFailure()
    ensures Sent(click, iso).Done? ==>
      var sent, paths := Sent(click, iso).value, PathsOfClick(click);
      && sent.bound.Keys == KeysOf(paths)
      && BuildEvent(click, iso) == Finish(click, sent.shown, sent.bound,
           PassChecks(CheckedBy(click.button, paths, InputsOfClick(click)), SentModel(click.surface.dataModel, paths, sent.bound)))
  {
    SortKeepsKeys(PathsOfClick(click), InputsOfClick(click));
  }

  /** A click with the right keys, step by step. */
  lemma Steps(click: Click, iso: Calendar)
    requires ReadyClick(click) && click.given.Keys == KeysOf(PathsOfClick(click))
    ensures !Sent(click, iso).Done? ==> BuildEvent(click, iso) == Sent(click, iso).PropagateFailure()
    ensures Sent(click, iso).Done? ==>
      var sent, paths := Sent(click, iso).value, PathsOfClick(click);
      && sent.bound.Keys == KeysOf(paths)
      && BuildEvent(click, iso) == Finish(click, sent.shown, sent.bound,
           PassChecks(CheckedBy(click.button, paths, InputsOfClick(click)), SentModel(click.surface.dataModel, paths, sent.bound)))
  {
    EventSteps(click, iso);
  }

  // ----- no unguarded lookup fails -----

  /** Over valid components no click raises, whatever the model and whatever the client sends. */
  lemma NoCrash(ui: S.PostUi, request: S.Request, iso: Calendar)
    requires ComponentsValid(ui.surface.components)
    ensures !BuildAction(ui, request, iso).Crash?
  {
    if ClickOf(ui, request).Some? {
      RequestIsReady(ui, request);
      ClickNoCrash(ClickOf(ui, request).value, iso);
    }
  }

  lemma FinishVerdict(click: Click, shown: seq<Line>, bound: map<string, Json>, checked: Outcome<()>)
    requires click.button.Button? && ButtonLabel(click.surface.components, click.button.child).Done?
    requires checked.Done? || (checked.Refused? && checked.why.CheckFails?)
    ensures var r := Finish(click, shown, bound, checked);
            r.Done? || (r.Refused? && (r.why.CheckFails? || r.why == TooLong))
  {
  }

  /** A click with the right keys and values its inputs can hold is refused only by a failing check
      or by the length cap. */
  lemma AfterCollecting(click: Click, iso: Calendar)
    requires ReadyClick(click) && click.given.Keys == KeysOf(PathsOfClick(click)) && Sent(click, iso).Done?
    ensures var r := BuildEvent(click, iso);
            r.Done? || (r.Refused? && (r.why.CheckFails? || r.why == TooLong))
  {
    Steps(click, iso);
    var paths, sent := PathsOfClick(click), Sent(click, iso).value;
    var checked := CheckedBy(click.button, paths, InputsOfClick(click));
    var model := SentModel(click.surface.dataModel, paths, sent.bound);
    PassNoCrash(checked, model);
    FinishVerdict(click, sent.shown, sent.bound, PassChecks(checked, model));
  }

  lemma ClickNoCrash(click: Click, iso: Calendar)
    requires ReadyClick(click)
    ensures !BuildEvent(click, iso).Crash?
  {
    if click.given.Keys == KeysOf(PathsOfClick(click)) {
      SortedKeys(click);
      CollectNoCrash(KeysOfClick(click), InputsOfClick(click), click.given, iso);
      if Sent(click, iso).Done? {
        AfterCollecting(click, iso);
      } else {
        Steps(click, iso);
      }
    }
  }

  // ----- the stored model does not matter -----

  /** The sent pointers keep what is written: each writable, no two overlapping. */
  predicate KeepsSent(model: Json, paths: seq<S.Bound>) {
    AllWritable(model, SentPaths(paths)) && PairwiseDivergent(SentPaths(paths))
  }

  lemma SentIsRead(model: Json, paths: seq<S.Bound>, values: map<string, Json>, i: nat)
    requires KeysOf(paths) <= values.Keys && KeepsSent(model, paths) && i < |paths|
    ensures paths[i].key in values
    ensures Read(SentModel(model, paths, values), paths[i].path) == values[paths[i].key]
  {
    assert paths[i].key in KeysOf(paths);
    var writes := WritesOf(paths, values);
    assert Paths(writes) == SentPaths(paths);
    assert Writable(model, SentPaths(paths)[i]);
    ReadAfterAll(model, writes, i);
  }

  /** Verdict, text and action depend only on the components and the values sent: any two models in
      which the sent pointers keep what is written give the same result. */
  lemma ModelIrrelevant(ui: S.PostUi, other: Json, request: S.Request, iso: Calendar)
    requires ComponentsValid(ui.surface.components)
    requires ClickOf(ui, request).Some? ==>
      && KeepsSent(ui.surface.dataModel, PathsOfClick(ClickOf(ui, request).value))
      && KeepsSent(other, PathsOfClick(ClickOf(ui, request).value))
    ensures BuildAction(ui.(surface := ui.surface.(dataModel := other)), request, iso) == BuildAction(ui, request, iso)
  {
    if ClickOf(ui, request).Some? {
      RequestIsReady(ui, request);
      ModelIrrelevantToClick(ClickOf(ui, request).value, other, iso);
    }
  }

  lemma ModelIrrelevantToClick(click: Click, other: Json, iso: Calendar)
    requires ReadyClick(click)
    requires KeepsSent(click.surface.dataModel, PathsOfClick(click)) && KeepsSent(other, PathsOfClick(click))
    ensures BuildEvent(click.(surface := click.surface.(dataModel := other)), iso) == BuildEvent(click, iso)
  {
    var paths := PathsOfClick(click);
    var click' := click.(surface := click.surface.(dataModel := other));
    if click.given.Keys == KeysOf(paths) {
      Steps(click, iso);
      Steps(click', iso);
      if Sent(click, iso).Done? {
        var bound := Sent(click, iso).value.bound;
        SameAfterSending(click.surface.dataModel, other, paths, bound);
        PassReads(CheckedBy(click.button, paths, InputsOfClick(click)),
                  SentModel(click.surface.dataModel, paths, bound), SentModel(other, paths, bound));
      }
    }
  }

  lemma SameAfterSending(m: Json, m': Json, paths: seq<S.Bound>, bound: map<string, Json>)
    requires KeysOf(paths) <= bound.Keys && KeepsSent(m, paths) && KeepsSent(m', paths)
    ensures forall p :: p in SentPaths(paths) ==>
      Read(SentModel(m, paths, bound), p) == Read(SentModel(m', paths, bound), p)
  {
    forall p | p in SentPaths(paths)
      ensures Read(SentModel(m, paths, bound), p) == Read(SentModel(m', paths, bound), p)
    {
      var i :| 0 <= i < |paths| && SentPaths(paths)[i] == p;
      SentIsRead(m, paths, bound, i);
      SentIsRead(m', paths, bound, i);
    }
  }

  // ----- closing stores the checked model -----

  lemma {:induction false} SentContextFinds(context: seq<Field>, bound: map<string, Json>, key: string)
    requires key in bound
    ensures Find(SentContext(context, bound), key) == if Find(context, key).Some? then Some(bound[key]) else None
  {
    if context != [] {
      assert SentContext(context, bound)[1..] == SentContext(context[1..], bound);
      if context[0].key != key {
        SentContextFinds(context[1..], bound, key);
      }
    }
  }

  /** The bound keys of a sent context hold what was collected. */
  lemma SentWrites(context: seq<Field>, bound: map<string, Json>)
    requires KeysOf(S.BoundPaths(context)) == bound.Keys
    ensures KeysOf(S.BoundPaths(context)) <= Dict(SentContext(context, bound)).Keys
    ensures WritesOf(S.BoundPaths(context), Dict(SentContext(context, bound))) == WritesOf(S.BoundPaths(context), bound)
  {
    var paths, values := S.BoundPaths(context), Dict(SentContext(context, bound));
    forall i | 0 <= i < |paths|
      ensures paths[i].key in bound && paths[i].key in values && values[paths[i].key] == bound[paths[i].key]
    {
      assert paths[i].key in KeysOf(paths);
      var k := BoundEntry(context, i);
      assert Find(context, paths[i].key).Some?;
      SentContextFinds(context, bound, paths[i].key);
    }
  }

  /** The model a click's checks run over: the stored one with every value it sends written. */
  function CheckedModel(click: Click, iso: Calendar): Json
    requires Sent(click, iso).Done? && Sent(click, iso).value.bound.Keys == KeysOf(PathsOfClick(click))
  {
    SentModel(click.surface.dataModel, PathsOfClick(click), Sent(click, iso).value.bound)
  }

  lemma Accepted(click: Click, iso: Calendar)
    requires ReadyClick(click) && BuildEvent(click, iso).Done?
    ensures click.given.Keys == KeysOf(PathsOfClick(click))
    ensures Sent(click, iso).Done? && Sent(click, iso).value.bound.Keys == KeysOf(PathsOfClick(click))
    ensures PassChecks(CheckedBy(click.button, PathsOfClick(click), InputsOfClick(click)), CheckedModel(click, iso)).Done?
    ensures BuildEvent(click, iso).value.0.context == SentContext(click.event.context, Sent(click, iso).value.bound)
    ensures BuildEvent(click, iso).value.0.source == click.source
  {
    Steps(click, iso);
    var sent, paths := Sent(click, iso).value, PathsOfClick(click);
    var model := SentModel(click.surface.dataModel, paths, sent.bound);
    FinishDone(click, sent.shown, sent.bound, PassChecks(CheckedBy(click.button, paths, InputsOfClick(click)), model));
  }

  lemma FinishDone(click: Click, shown: seq<Line>, bound: map<string, Json>, checked: Outcome<()>)
    requires click.button.Button? && Finish(click, shown, bound, checked).Done?
    ensures checked.Done?
    ensures var action := Finish(click, shown, bound, checked).value.0;
      action.context == SentContext(click.event.context, bound) && action.source == click.source
  {
  }

  /** `closed_by` stores exactly the model that the click's checks passed over, and the text up to its first newline. */
  lemma ClosesOverCheckedModel(ui: S.PostUi, request: S.Request, iso: Calendar)
    requires ComponentsValid(ui.surface.components) && BuildAction(ui, request, iso).Done?
    ensures ClickOf(ui, request).Some? && ReadyClick(ClickOf(ui, request).value)
    ensures var click := ClickOf(ui, request).value;
            var (action, text) := BuildAction(ui, request, iso).value;
            && Sent(click, iso).Done? && Sent(click, iso).value.bound.Keys == KeysOf(PathsOfClick(click))
            && PassChecks(CheckedBy(click.button, PathsOfClick(click), InputsOfClick(click)), CheckedModel(click, iso)).Done?
            && LineStart(text, FirstLine(text))
            && ClosedBy(ui, action, text) == Done(ui.(
                 surface := ui.surface.(dataModel := CheckedModel(click, iso)),
                 rev := ui.rev + 1, closed := Some(FirstLine(text))))
  {
    PartitionStarts(BuildAction(ui, request, iso).value.1);
    RequestIsReady(ui, request);
    var click := ClickOf(ui, request).value;
    Accepted(click, iso);
    var built := BuildEvent(click, iso).value;
    ClosedWith(ui, request, built.0, built.1, Sent(click, iso).value.bound);
    ClosedModel(ui, click, iso, built.1);
  }

  /** Closing with the context of a click writes what the click collected. */
  lemma ClosedWith(ui: S.PostUi, request: S.Request, action: S.UiAction, text: string, bound: map<string, Json>)
    requires ComponentsValid(ui.surface.components) && ClickOf(ui, request).Some? && action.source == request.source
    requires var click := ClickOf(ui, request).value;
      bound.Keys == KeysOf(PathsOfClick(click)) && action.context == SentContext(click.event.context, bound)
    ensures ClosedBy(ui, action, text) == Done(CloseWith(ui, PathsOfClick(ClickOf(ui, request).value), bound, text))
  {
    FindsSource(ui, request);
    var paths := PathsOfClick(ClickOf(ui, request).value);
    SentWrites(ClickOf(ui, request).value.event.context, bound);
    SameClose(ui, paths, Dict(action.context), bound, text);
  }

  lemma ClosedModel(ui: S.PostUi, click: Click, iso: Calendar, text: string)
    requires click.surface == ui.surface
    requires Sent(click, iso).Done? && Sent(click, iso).value.bound.Keys == KeysOf(PathsOfClick(click))
    ensures CloseWith(ui, PathsOfClick(click), Sent(click, iso).value.bound, text) == ui.(
      surface := ui.surface.(dataModel := CheckedModel(click, iso)), rev := ui.rev + 1, closed := Some(FirstLine(text)))
  {
  }

  lemma SameClose(ui: S.PostUi, paths: seq<S.Bound>, a: map<string, Json>, b: map<string, Json>, text: string)
    requires KeysOf(paths) <= a.Keys && KeysOf(paths) <= b.Keys && WritesOf(paths, a) == WritesOf(paths, b)
    ensures CloseWith(ui, paths, a, text) == CloseWith(ui, paths, b, text)
  {
  }

  lemma FindsSource(ui: S.PostUi, request: S.Request)
    requires ComponentsValid(ui.surface.components)
    ensures S.FirstById(ui.surface.components, request.source) == S.ById(ui.surface.components, request.source)
  {
    S.LookupsAgree(ui.surface.components, request.source);
  }
}
