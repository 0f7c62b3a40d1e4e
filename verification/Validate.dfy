/** What a valid surface is. */
module Validate {
  // The server's own rules, and what a2ui-core and the catalog guarantee before those run. Each rule's loop reports
  // no problem exactly when its declarative form holds.

  import opened Options
  import opened Text
  import opened Json
  import opened Pointer
  import opened Walk
  import S = Surface
  import opened Inputs
  import opened PlainText

  datatype Why = NotPlain | SharedPointer | BadStart | NotToTheMinute | NotAnInput | SentTwice
               | ListTemplate | SharedChild | NotLabelledByText

  datatype Problem = Problem(path: string, why: Why)

  predicate PlainJson(j: Json) { j.Str? ==> Plain(j.s) }

  predicate PlainOption(j: Option<Json>) { j.Some? ==> PlainJson(j.value) }

  // ----- structure: a tree -----

  /** The children a component names, in order. */
  function ChildIds(body: S.Body): seq<string> {
    match body
    case Layout(Ids(ids)) => ids
    case Card(child) => [child]
    case Button(child, _, _) => [child]
    case _ => []
  }

  /** Every reference of a surface, in order. */
  function Refs(components: seq<S.Component>): seq<string> {
    if components == [] then []
    else Refs(components[..|components| - 1]) + ChildIds(components[|components| - 1].body)
  }

  predicate NoRepeat(ids: seq<string>) {
    forall i, j :: 0 <= i < j < |ids| ==> ids[i] != ids[j]
  }

  predicate LabelledByText(components: seq<S.Component>, body: S.Body) {
    body.Button? ==> var c := S.ById(components, body.child); c.Some? && c.value.body.Text?
  }

  /** One parent per component, children named by id, a Button labelled by a Text. */
  predicate StructureClean(components: seq<S.Component>) {
    && (forall i :: 0 <= i < |components| ==> components[i].body != S.Layout(S.Template))
    && NoRepeat(Refs(components))
    && forall i :: 0 <= i < |components| ==> LabelledByText(components, components[i].body)
  }

  predicate CleanTo(components: seq<S.Component>, n: nat)
    requires n <= |components|
  {
    && (forall i :: 0 <= i < n ==> components[i].body != S.Layout(S.Template))
    && NoRepeat(Refs(components[..n]))
    && forall i :: 0 <= i < n ==> LabelledByText(components, components[i].body)
  }

  function IdSet(ids: seq<string>): set<string> { set id | id in ids }

  predicate NoneIn(ids: seq<string>, known: set<string>) { forall id :: id in ids ==> id !in known }

  lemma CleanSnoc(components: seq<S.Component>, n: nat)
    requires n < |components|
    ensures var body, before := components[n].body, Refs(components[..n]);
      && IdSet(Refs(components[..n + 1])) == IdSet(before) + IdSet(ChildIds(body))
      && (CleanTo(components, n + 1) <==>
          && CleanTo(components, n)
          && body != S.Layout(S.Template)
          && NoRepeat(ChildIds(body)) && NoneIn(ChildIds(body), IdSet(before))
          && LabelledByText(components, body))
  {
    RefsSnoc(components, n);
    IdSetAppend(Refs(components[..n]), ChildIds(components[n].body));
    RepeatAppend(Refs(components[..n]), ChildIds(components[n].body));
  }

  lemma IdSetAppend(a: seq<string>, b: seq<string>)
    ensures IdSet(a + b) == IdSet(a) + IdSet(b)
    ensures NoneIn(b, IdSet(a)) <==> forall id :: id in b ==> id !in a
  {
  }

  /** The structure loop: `parented` grows by each child named. */
  method StructureProblems(components: seq<S.Component>) returns (problems: seq<Problem>)
    ensures problems == [] <==> StructureClean(components)
  {
    problems := [];
    var parented: set<string> := {};
    for index := 0 to |components|
      invariant parented == IdSet(Refs(components[..index]))
      invariant problems == [] <==> CleanTo(components, index)
    {
      var body := components[index].body;
      var path := "/components/" + NatText(index);
      CleanSnoc(components, index);
      if body == S.Layout(S.Template) {
        problems := problems + [Problem(path + "/children", ListTemplate)];
      } else {
        var shared;
        shared, parented := ParentProblems(ChildIds(body), parented, path);
        problems := problems + shared;
        if !LabelledByText(components, body) {
          problems := problems + [Problem(path + "/child", NotLabelledByText)];
        }
      }
    }
    assert components[..|components|] == components;
  }

  method ParentProblems(children: seq<string>, before: set<string>, path: string)
    returns (problems: seq<Problem>, parented: set<string>)
    ensures parented == before + IdSet(children)
    ensures problems == [] <==> NoRepeat(children) && NoneIn(children, before)
  {
    problems, parented := [], before;
    for k := 0 to |children|
      invariant parented == before + IdSet(children[..k])
      invariant problems == [] <==> NoRepeat(children[..k]) && NoneIn(children[..k], before)
    {
      assert children[..k + 1] == children[..k] + [children[k]];
      RepeatAppend(children[..k], [children[k]]);
      if children[k] in parented {
        problems := problems + [Problem(path, SharedChild)];
      }
      parented := parented + {children[k]};
    }
    assert children[..|children|] == children;
  }

  lemma RefsSnoc(components: seq<S.Component>, n: nat)
    requires n < |components|
    ensures Refs(components[..n + 1]) == Refs(components[..n]) + ChildIds(components[n].body)
  {
    assert components[..n + 1][..n] == components[..n];
  }

  lemma RepeatAppend(a: seq<string>, b: seq<string>)
    ensures NoRepeat(a + b) <==> NoRepeat(a) && NoRepeat(b) && forall id :: id in b ==> id !in a
  {
    var all := a + b;
    if NoRepeat(all) {
      forall i, j | 0 <= i < j < |a| ensures a[i] != a[j] {
        assert all[i] != all[j];
      }
      forall i, j | 0 <= i < j < |b| ensures b[i] != b[j] {
        assert all[|a| + i] != all[|a| + j];
      }
      forall i, j | 0 <= i < |a| && 0 <= j < |b| ensures a[i] != b[j] {
        assert all[i] != all[|a| + j];
      }
    }
    if NoRepeat(a) && NoRepeat(b) && forall id :: id in b ==> id !in a {
      forall i, j | 0 <= i < j < |all| ensures all[i] != all[j] {
        if i < |a| <= j {
          assert all[j] == b[j - |a|] && b[j - |a|] in b;
        }
      }
    }
  }

  // ----- clicks -----

  /** An input's texts that a click may post. */
  predicate PlainInput(body: S.Body)
    requires body.Input?
  {
    && PlainOption(body.caption)
    && (body.kind.ChoicePicker? ==>
          forall k :: 0 <= k < |body.kind.options| ==> Plain(ChoiceText(body.kind.options[k])))
  }

  /** What an untouched input starts with is nothing, or a value it can hold. */
  predicate GoodStart(kind: S.InputKind, start: Json, iso: Calendar) {
    var shown := Shown(kind, start, iso);
    && (start != Null ==> shown.Some?)
    && (start.Str? && kind.DateTimeInput? ==> shown == Some(ReplaceChar(start.s, 'T', " ")))
  }

  /** Each bound input has a pointer of its own, as a string, and a good start. */
  predicate InputsClean(components: seq<S.Component>, dataModel: Json, iso: Calendar) {
    && (forall i :: 0 <= i < |components| && components[i].body.Input? ==> PlainInput(components[i].body))
    && (forall i, j :: 0 <= i < j < |components| && S.BoundInput(components[i]) && S.BoundInput(components[j])
          ==> S.PathOf(components[i]) != S.PathOf(components[j]))
    && (forall i :: 0 <= i < |components| && S.BoundInput(components[i])
          ==> GoodStart(components[i].body.kind, Read(dataModel, S.PathOf(components[i])), iso))
  }

  function InputPaths(components: seq<S.Component>): set<string> {
    set i | 0 <= i < |components| && S.BoundInput(components[i]) :: S.PathOf(components[i])
  }

  /** A context value is a literal, or the pointer of an input that no other key sends. */
  predicate GoodEntry(entry: Field, sent: seq<S.Bound>, paths: set<string>) {
    entry.value.Obj? ==>
      && S.BoundPath(entry.value).Some?
      && S.BoundPath(entry.value).value in paths
      && Plain(entry.key)
      && forall i, j :: 0 <= i < j < |sent| && sent[i].path == S.BoundPath(entry.value).value ==> sent[j].path != sent[i].path
  }

  predicate PlainEvent(components: seq<S.Component>, child: string, event: S.Event) {
    && (var c := S.ById(components, child); c.Some? ==> PlainOption(S.TextOf(c.value.body)))
    && Plain(event.name)
    && (event.userMessage.Some? ==> Plain(event.userMessage.value))
  }

  predicate EventClean(components: seq<S.Component>, child: string, event: S.Event) {
    && PlainEvent(components, child, event)
    && forall k :: 0 <= k < |event.context|
         ==> GoodEntry(event.context[k], S.BoundPaths(event.context), InputPaths(components))
  }

  predicate EventsClean(components: seq<S.Component>) {
    forall i :: 0 <= i < |components| && components[i].body.Button? && components[i].body.action.Send?
      ==> EventClean(components, components[i].body.child, components[i].body.action.event)
  }

  predicate PlainModel(dataModel: Json) {
    forall node :: node in Nodes(dataModel, "/dataModel") ==> PlainJson(node.1)
  }

  /** Clicks that can succeed, from an untouched card too, and whose text is plain. */
  predicate ClickClean(components: seq<S.Component>, dataModel: Json, iso: Calendar) {
    && InputsClean(components, dataModel, iso)
    && PlainModel(dataModel)
    && EventsClean(components)
  }

  // ----- checks -----

  predicate Checkable(c: S.Condition) {
    c.AtPath? ||
    (c.name in {"required", "length", "email"}
      && forall i :: 0 <= i < |c.args| && c.args[i].value.Obj? ==> Find(c.args[i].value.fields, "@call").None?)
  }

  /** The pointers a condition reads. */
  function ReadsOf(c: S.Condition): set<string> {
    match c
    case AtPath(path) => {path}
    case Call(_, args) =>
      set i | 0 <= i < |args| && S.BoundPath(args[i].value).Some? :: S.BoundPath(args[i].value).value
  }

  /** The pointers a click sends that a component's checks may read. */
  function SentBy(body: S.Body): set<string> {
    match body
    case Button(_, Send(event), _) =>
      var paths := S.BoundPaths(event.context);
      set i | 0 <= i < |paths| :: paths[i].path
    case Input(_, _, value, _) => if S.BoundPath(value).Some? then {S.BoundPath(value).value} else {}
    case _ => {}
  }

  predicate ChecksClean(body: S.Body) {
    var checks := S.ChecksOf(body);
    forall i :: 0 <= i < |checks| ==> Checkable(checks[i].condition) && ReadsOf(checks[i].condition) <= SentBy(body)
  }

  // ----- what a2ui-core and the catalog guarantee -----

  predicate TypedLimit(args: seq<Field>, key: string) {
    Find(args, key).Some? ==> Find(args, key).value.Int? && Find(args, key).value.n >= 0
  }

  predicate TypedCondition(c: S.Condition) {
    c.Call? ==> Find(c.args, "value").Some? && TypedLimit(c.args, "min") && TypedLimit(c.args, "max")
  }

  predicate TypedComponent(c: S.Component) {
    && (var checks := S.ChecksOf(c.body); forall k :: 0 <= k < |checks| ==> TypedCondition(checks[k].condition))
    && (c.body.Button? && c.body.action.Send? ==> Distinct(c.body.action.event.context))
  }

  /** Ids are unique, references resolve, properties are present and typed, and the data model is an
      object; a dict never names a key twice. */
  predicate CoreOk(surface: S.Surface) {
    && S.UniqueIds(surface.components)
    && (forall i :: 0 <= i < |surface.components| ==>
          && TypedComponent(surface.components[i])
          && var ids := ChildIds(surface.components[i].body);
             forall k :: 0 <= k < |ids| ==> S.ById(surface.components, ids[k]).Some?)
    && surface.dataModel.Obj? && WellFormed(surface.dataModel)
  }

  /** What a valid surface's components keep whatever its data model holds. */
  predicate ComponentsValid(components: seq<S.Component>) {
    && S.UniqueIds(components)
    && (forall i :: 0 <= i < |components| ==> TypedComponent(components[i]) && ChecksClean(components[i].body))
    && StructureClean(components)
    && EventsClean(components)
    && (forall i, j :: 0 <= i < j < |components| && S.BoundInput(components[i]) && S.BoundInput(components[j])
          ==> S.PathOf(components[i]) != S.PathOf(components[j]))
  }

  predicate Valid(surface: S.Surface, iso: Calendar) {
    && CoreOk(surface)
    && StructureClean(surface.components)
    && ClickClean(surface.components, surface.dataModel, iso)
    && forall i :: 0 <= i < |surface.components| ==> ChecksClean(surface.components[i].body)
  }

  /** The click rules in the order they are checked: inputs, the data model's strings, Buttons. */
  method ClickProblems(components: seq<S.Component>, dataModel: Json, iso: Calendar) returns (problems: seq<Problem>)
    ensures problems == [] <==> ClickClean(components, dataModel, iso)
  {
    var inputs: set<string>;
    problems, inputs := InputProblems(components, dataModel, iso);
    var nodes := Nodes(dataModel, "/dataModel");
    ghost var before := problems == [];
    for i := 0 to |nodes|
      invariant problems == [] <==> before && forall k :: 0 <= k < i ==> PlainJson(nodes[k].1)
    {
      if nodes[i].1.Str? && !Plain(nodes[i].1.s) {
        problems := problems + [Problem(nodes[i].0, NotPlain)];
      }
    }
    assert problems == [] <==> before && PlainModel(dataModel);
    var found := EventProblems(components, inputs);
    problems := problems + found;
  }

  /** The input loop: `inputs` grows by the pointer of each bound input. */
  method InputProblems(components: seq<S.Component>, dataModel: Json, iso: Calendar)
    returns (problems: seq<Problem>, inputs: set<string>)
    ensures inputs == InputPaths(components)
    ensures problems == [] <==> InputsClean(components, dataModel, iso)
  {
    problems, inputs := [], {};
    for index := 0 to |components|
      invariant inputs == InputPaths(components[..index])
      invariant problems == [] <==> InputsClean(components[..index], dataModel, iso)
    {
      var c := components[index];
      ghost var done := components[..index];
      assert components[..index + 1] == done + [c];
      InputPathsSnoc(done, c);
      InputsCleanSnoc(done, c, dataModel, iso);
      if c.body.Input? {
        var found := OneInputProblems(c, inputs, dataModel, iso, "/components/" + NatText(index));
        problems := problems + found;
        if S.BoundInput(c) {
          inputs := inputs + {S.PathOf(c)};
        }
      }
    }
    assert components[..|components|] == components;
  }

  method OneInputProblems(c: S.Component, inputs: set<string>, dataModel: Json, iso: Calendar, at: string)
    returns (problems: seq<Problem>)
    requires c.body.Input?
    ensures problems == [] <==>
      && PlainInput(c.body)
      && (S.BoundInput(c) ==> S.PathOf(c) !in inputs && GoodStart(c.body.kind, Read(dataModel, S.PathOf(c)), iso))
  {
    problems := InputTextProblems(c.body, at);
    var path := S.BoundPath(c.body.value);
    if path.Some? {
      if path.value in inputs {
        problems := problems + [Problem(at + "/value", SharedPointer)];
      }
      var start := Read(dataModel, path.value);
      var shown := Shown(c.body.kind, start, iso);
      if start != Null && shown.None? {
        problems := problems + [Problem("/dataModel" + path.value, BadStart)];
      } else if start.Str? && c.body.kind.DateTimeInput? && shown != Some(ReplaceChar(start.s, 'T', " ")) {
        problems := problems + [Problem("/dataModel" + path.value, NotToTheMinute)];
      }
    }
  }

  method InputTextProblems(body: S.Body, at: string) returns (problems: seq<Problem>)
    requires body.Input?
    ensures problems == [] <==> PlainInput(body)
  {
    problems := [];
    if body.caption.Some? && body.caption.value.Str? && !Plain(body.caption.value.s) {
      problems := [Problem(at + "/label", NotPlain)];
    }
    if body.kind.ChoicePicker? {
      var options := body.kind.options;
      for k := 0 to |options|
        invariant problems == [] <==> PlainOption(body.caption) && forall j :: 0 <= j < k ==> Plain(ChoiceText(options[j]))
      {
        if !Plain(ChoiceText(options[k])) {
          problems := problems + [Problem(at + "/options/" + NatText(k) + (if options[k].caption.Str? then "/label" else "/value"), NotPlain)];
        }
      }
    }
  }

  lemma InputPathsSnoc(cs: seq<S.Component>, c: S.Component)
    ensures InputPaths(cs + [c]) == InputPaths(cs) + if S.BoundInput(c) then {S.PathOf(c)} else {}
  {
    var all := cs + [c];
    forall p ensures p in InputPaths(all) <==> p in InputPaths(cs) || (S.BoundInput(c) && p == S.PathOf(c)) {
      if p in InputPaths(cs) {
        var i :| 0 <= i < |cs| && S.BoundInput(cs[i]) && S.PathOf(cs[i]) == p;
        assert all[i] == cs[i];
      }
      if S.BoundInput(c) && p == S.PathOf(c) {
        assert all[|cs|] == c;
      }
    }
  }

  lemma InputsCleanSnoc(cs: seq<S.Component>, c: S.Component, dataModel: Json, iso: Calendar)
    ensures InputsClean(cs + [c], dataModel, iso) <==>
      && InputsClean(cs, dataModel, iso)
      && (c.body.Input? ==> PlainInput(c.body))
      && (S.BoundInput(c) ==> S.PathOf(c) !in InputPaths(cs) && GoodStart(c.body.kind, Read(dataModel, S.PathOf(c)), iso))
  {
    var all := cs + [c];
    assert all[|cs|] == c && forall i :: 0 <= i < |cs| ==> all[i] == cs[i];
    if InputsClean(all, dataModel, iso) {
      assert InputsClean(cs, dataModel, iso) by {
        forall i | 0 <= i < |cs| ensures cs[i] == all[i] {}
      }
      assert c.body.Input? ==> PlainInput(all[|cs|].body);
      if S.BoundInput(c) {
        assert GoodStart(all[|cs|].body.kind, Read(dataModel, S.PathOf(all[|cs|])), iso);
        forall i | 0 <= i < |cs| && S.BoundInput(cs[i]) ensures S.PathOf(cs[i]) != S.PathOf(c) {
          assert S.PathOf(all[i]) != S.PathOf(all[|cs|]);
        }
      }
    }
  }

  method EventProblems(components: seq<S.Component>, inputs: set<string>) returns (problems: seq<Problem>)
    requires inputs == InputPaths(components)
    ensures problems == [] <==> EventsClean(components)
  {
    problems := [];
    for index := 0 to |components|
      invariant problems == [] <==>
        forall i :: 0 <= i < index && components[i].body.Button? && components[i].body.action.Send?
          ==> EventClean(components, components[i].body.child, components[i].body.action.event)
    {
      var body := components[index].body;
      if body.Button? && body.action.Send? {
        var found := OneEventProblems(components, body.child, body.action.event, inputs, "/components/" + NatText(index));
        problems := problems + found;
      }
    }
  }

  method OneEventProblems(components: seq<S.Component>, child: string, event: S.Event, inputs: set<string>, at: string)
    returns (problems: seq<Problem>)
    requires inputs == InputPaths(components)
    ensures problems == [] <==> EventClean(components, child, event)
  {
    problems := [];
    var child' := S.ById(components, child);
    if child'.Some? && !PlainOption(S.TextOf(child'.value.body)) {
      problems := problems + [Problem(at + "/child", NotPlain)];
    }
    if event.userMessage.Some? && !Plain(event.userMessage.value) {
      problems := problems + [Problem(at + "/action/event/userMessage", NotPlain)];
    }
    if !Plain(event.name) {
      problems := problems + [Problem(at + "/action/event/name", NotPlain)];
    }
    ghost var before := problems == [];
    assert before <==> PlainEvent(components, child, event);
    var sent := S.BoundPaths(event.context);
    for k := 0 to |event.context|
      invariant problems == [] <==> before && forall j :: 0 <= j < k ==> GoodEntry(event.context[j], sent, inputs)
    {
      var entry := event.context[k];
      if entry.value.Obj? {
        var path := S.BoundPath(entry.value);
        var where := at + "/action/event/context/" + Escape(entry.key);
        if path.None? || path.value !in inputs {
          problems := problems + [Problem(where, NotAnInput)];
        } else if exists i, j :: 0 <= i < j < |sent| && sent[i].path == path.value && sent[j].path == path.value {
          problems := problems + [Problem(where, SentTwice)];
        } else if !Plain(entry.key) {
          problems := problems + [Problem(where, NotPlain)];
        }
      }
    }
  }
}
