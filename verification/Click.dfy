/**
 A click checked against its stored surface, and the card closed by it.

 A click is a Button's event with a value for each bound key of its context. The values are collected in the
 order of the surface's inputs and written into the data model; the checks then run over that model. Closing the
 card writes the same values once more.
 */
module Click {
  import opened Options
  import opened Text
  import opened Json
  import opened Pointer
  import S = Surface
  import opened Inputs
  import opened PlainText

  const MESSAGE_MAX := 40000

  datatype Why = NotAnEventButton | WrongKeys | BadValue | CheckFails(text: string) | TooLong

  /** What a computation over a surface comes to. `Crash` stands for the exception of an unguarded
      lookup or comparison. */
  datatype Outcome<+T> = Done(value: T) | Refused(at: string, why: Why) | Crash {
    predicate IsFailure() { !Done? }

    function PropagateFailure<U>(): Outcome<U>
      requires IsFailure()
    {
      if Crash? then Crash else Refused(at, why)
    }

    function Extract(): T
      requires Done?
    {
      value
    }
  }

  // ----- checks -----

  /** An argument of a check's call: what its pointer reads, or itself. */
  function Arg(arg: Json, model: Json): Json {
    var path := S.BoundPath(arg);
    if path.Some? then Read(model, path.value) else arg
  }

  /** An optional number among a call's arguments; comparing anything else with a length raises. */
  function Limit(args: seq<Field>, key: string, default: int, model: Json): Outcome<int> {
    var arg := Find(args, key);
    if arg.None? then Done(default)
    else
      var value := Arg(arg.value, model);
      if value.Int? then Done(value.n) else Crash
  }

  function StringOf(value: Json): string { if value.Str? then value.s else "" }

  /** The verdict of a check function on its value; a length is compared with its limits in turn. */
  function CallFailure(name: string, value: Json, min: Outcome<int>, max: Outcome<int>): Outcome<Option<string>> {
    var text := StringOf(value);
    if name == "required" then
      Done(if value == Null || value == Arr([]) || (value.Str? && Blank(text)) then Some("Required.") else None)
    else if name == "length" then
      var least :- min;
      if |text| < least then Done(Some("Use at least " + IntText(least) + " characters."))
      else
        var most :- max;
        Done(if |text| > most then Some("Use at most " + IntText(most) + " characters.") else None)
    else if name == "email" then
      Done(if text != "" && !Email(text) then Some("Enter an email address.") else None)
    else Done(None)
  }

  /** The default text of a condition that fails over `model`; None when it passes. */
  function Failure(condition: S.Condition, model: Json): Outcome<Option<string>> {
    match condition
    case AtPath(path) => Done(if Read(model, path) == Bool(true) then None else Some("Check this field."))
    case Call(name, args) =>
      var arg := Find(args, "value");
      if arg.None? then Crash
      else
        var value := Arg(arg.value, model);
        CallFailure(name, value, Limit(args, "min", 0, model), Limit(args, "max", |StringOf(value)|, model))
  }

  /** The text of each check that fails: its message, else the default. */
  function CheckFailures(checks: seq<S.Check>, model: Json): Outcome<seq<string>> {
    if checks == [] then Done([])
    else
      var failure :- Failure(checks[0].condition, model);
      var rest :- CheckFailures(checks[1..], model);
      var message := checks[0].message;
      Done((if failure.None? then []
            else if message.Some? && message.value != "" then [message.value]
            else [failure.value]) + rest)
  }

  /** What is checked, with the path a failure is reported at. */
  datatype Checked = Checked(at: string, checks: seq<S.Check>)

  /** The first failing check stops the click. */
  function PassChecks(checked: seq<Checked>, model: Json): Outcome<()> {
    if checked == [] then Done(())
    else
      var failures :- CheckFailures(checked[0].checks, model);
      if failures != [] then Refused(checked[0].at, CheckFails(failures[0]))
      else PassChecks(checked[1..], model)
  }

  // ----- the inputs of a surface, by the pointer each is bound to -----

  datatype InputAt = InputAt(path: string, kind: S.InputKind, caption: Option<Json>, checks: seq<S.Check>)

  function InputOf(c: S.Component): InputAt
    requires S.BoundInput(c)
  {
    InputAt(S.PathOf(c), c.body.kind, c.body.caption, c.body.checks)
  }

  /** `inputs[i.path] = i` on an ordered dict. */
  function PutInput(inputs: seq<InputAt>, i: InputAt): seq<InputAt> {
    if inputs == [] then [i]
    else if inputs[0].path == i.path then [i] + inputs[1..]
    else [inputs[0]] + PutInput(inputs[1..], i)
  }

  /** The bound inputs in the surface's order; of one pointer the last input counts. */
  function InputsOf(components: seq<S.Component>): seq<InputAt> {
    if components == [] then []
    else
      var c := components[|components| - 1];
      var before := InputsOf(components[..|components| - 1]);
      if S.BoundInput(c) then PutInput(before, InputOf(c)) else before
  }

  /** `order.index(path)`. */
  function OrderOf(inputs: seq<InputAt>, path: string): (r: Option<nat>)
    ensures r.Some? ==> r.value < |inputs| && inputs[r.value].path == path
    ensures r.None? <==> forall i :: 0 <= i < |inputs| ==> inputs[i].path != path
  {
    if inputs == [] then None
    else if inputs[0].path == path then Some(0)
    else
      var rest := OrderOf(inputs[1..], path);
      if rest.Some? then Some(rest.value + 1)
      else
        assert forall i :: 1 <= i < |inputs| ==> inputs[i] == inputs[1..][i - 1];
        None
  }

  /** Sorts bound keys by the place of their input, keeping the order of equal places. */
  function SortBound(paths: seq<S.Bound>, inputs: seq<InputAt>): seq<S.Bound> {
    if paths == [] then [] else InsertBound(paths[0], SortBound(paths[1..], inputs), inputs)
  }

  function Rank(b: S.Bound, inputs: seq<InputAt>): nat {
    var at := OrderOf(inputs, b.path);
    if at.Some? then at.value else |inputs|
  }

  function InsertBound(b: S.Bound, sorted: seq<S.Bound>, inputs: seq<InputAt>): seq<S.Bound> {
    if sorted == [] then [b]
    else if Rank(b, inputs) <= Rank(sorted[0], inputs) then [b] + sorted
    else [sorted[0]] + InsertBound(b, sorted[1..], inputs)
  }

  // ----- collecting the values a click sends -----

  datatype Line = Line(name: string, value: string)

  datatype Collected = Collected(bound: map<string, Json>, shown: seq<Line>)

  /** An input's label, else the key. */
  function NameOf(input: InputAt, key: string): string {
    if input.caption.Some? && input.caption.value.Str? && input.caption.value.s != "" then input.caption.value.s else key
  }

  /** The value one key sends and how it is shown. */
  function CollectOne(key: S.Bound, inputs: seq<InputAt>, given: map<string, Json>, iso: Calendar)
    : (r: Outcome<Collected>)
    ensures r.Done? ==> r.value.bound.Keys == {key.key}
  {
    var at := OrderOf(inputs, key.path);
    if at.None? || key.key !in given then Crash
    else
      var input := inputs[at.value];
      var value := if given[key.key] == Null then Empty(input.kind) else given[key.key];
      var text := Shown(input.kind, value, iso);
      if text.None? then Refused("/bound/" + Escape(key.key), BadValue)
      else
        Done(Collected(map[key.key := value],
                       if text.value == "" then [] else [Line(NameOf(input, key.key), text.value)]))
  }

  function Merge(a: Collected, b: Collected): Collected {
    Collected(a.bound + b.bound, a.shown + b.shown)
  }

  /** The keys in turn; the first one with a value its input cannot hold stops the click. */
  function Collect(keys: seq<S.Bound>, inputs: seq<InputAt>, given: map<string, Json>, iso: Calendar)
    : (r: Outcome<Collected>)
    ensures r.Done? ==> r.value.bound.Keys == set i | 0 <= i < |keys| :: keys[i].key
    decreases keys
  {
    if keys == [] then Done(Collected(map[], []))
    else
      var first :- CollectOne(keys[0], inputs, given, iso);
      var rest :- Collect(keys[1..], inputs, given, iso);
      assert forall i :: 1 <= i < |keys| ==> keys[i] == keys[1..][i - 1];
      Done(Merge(first, rest))
  }

  // ----- the action and its text -----

  function KeysOf(paths: seq<S.Bound>): set<string> {
    set i | 0 <= i < |paths| :: paths[i].key
  }

  function WritesOf(paths: seq<S.Bound>, values: map<string, Json>): (r: seq<Write>)
    requires KeysOf(paths) <= values.Keys
    ensures |r| == |paths|
    ensures forall i :: 0 <= i < |r| ==> paths[i].key in values && r[i] == Write(paths[i].path, values[paths[i].key])
  {
    assert forall i :: 0 <= i < |paths| ==> paths[i].key in KeysOf(paths);
    seq(|paths|, i requires 0 <= i < |paths| => Write(paths[i].path, values[paths[i].key]))
  }

  /** Every value a click sent, at the pointer its key is bound to. */
  function SentModel(model: Json, paths: seq<S.Bound>, values: map<string, Json>): Json
    requires KeysOf(paths) <= values.Keys
  {
    Written(model, WritesOf(paths, values))
  }

  /** The Button, then the input of each bound key. */
  function CheckedBy(button: S.Body, paths: seq<S.Bound>, inputs: seq<InputAt>): seq<Checked>
    requires forall i :: 0 <= i < |paths| ==> OrderOf(inputs, paths[i].path).Some?
  {
    [Checked("/sourceComponentId", S.ChecksOf(button))]
    + seq(|paths|, i requires 0 <= i < |paths| =>
        Checked("/bound/" + Escape(paths[i].key), inputs[OrderOf(inputs, paths[i].path).value].checks))
  }

  function LineText(line: Line): string {
    line.name + ": " + line.value
  }

  function LineTexts(shown: seq<Line>): (r: seq<string>)
    ensures |r| == |shown| && forall i :: 0 <= i < |r| ==> r[i] == LineText(shown[i])
  {
    seq(|shown|, i requires 0 <= i < |shown| => LineText(shown[i]))
  }

  /** One shown value follows what is said; several take a line each. */
  function PostText(said: string, shown: seq<Line>): string {
    if |shown| == 1 then said + ": " + shown[0].value else Join([said] + LineTexts(shown), "\n")
  }

  /** The literal user message, else the Button's label, else the event's name. */
  function Said(event: S.Event, caption: Json): string {
    if event.userMessage.Some? && event.userMessage.value != "" then event.userMessage.value
    else if caption.Str? && caption.s != "" then caption.s
    else event.name
  }

  /** The context with each bound value in place. */
  function SentContext(context: seq<Field>, bound: map<string, Json>): (r: seq<Field>)
    ensures |r| == |context|
  {
    seq(|context|, i requires 0 <= i < |context| =>
      Field(context[i].key, if context[i].key in bound then bound[context[i].key] else context[i].value))
  }

  function ButtonLabel(components: seq<S.Component>, child: string): Outcome<Json> {
    var c := S.ById(components, child);
    if c.None? || S.TextOf(c.value.body).None? then Crash else Done(S.TextOf(c.value.body).value)
  }

  datatype Click = Click(surface: S.Surface, source: string, button: S.Body, event: S.Event, given: map<string, Json>)

  /** The rest of a click once its values are collected and its checks have run. */
  function Finish(click: Click, shown: seq<Line>, bound: map<string, Json>, checked: Outcome<()>)
    : Outcome<(S.UiAction, string)>
    requires click.button.Button?
  {
    var _ :- checked;
    var caption :- ButtonLabel(click.surface.components, click.button.child);
    var text := PostText(Said(click.event, caption), shown);
    if |text| > MESSAGE_MAX then Refused("/bound", TooLong)
    else
      Done((S.UiAction(click.event.name, click.surface.surfaceId, click.source, click.event.userMessage,
                       SentContext(click.event.context, bound)), text))
  }

  /** A click on a Button that sends an event. */
  function BuildEvent(click: Click, iso: Calendar): Outcome<(S.UiAction, string)>
    requires click.button.Button?
  {
    var surface, event := click.surface, click.event;
    var paths := S.BoundPaths(event.context);
    var inputs := InputsOf(surface.components);
    if click.given.Keys != KeysOf(paths) then Refused("/bound", WrongKeys)
    else if exists i :: 0 <= i < |paths| && OrderOf(inputs, paths[i].path).None? then Crash
    else
      var sent :- Collect(SortBound(paths, inputs), inputs, click.given, iso);
      SortKeepsKeys(paths, inputs);
      Finish(click, sent.shown, sent.bound,
             PassChecks(CheckedBy(click.button, paths, inputs), SentModel(surface.dataModel, paths, sent.bound)))
  }

  /** The click a request makes, if its source is a Button with an event. */
  function ClickOf(ui: S.PostUi, request: S.Request): (r: Option<Click>)
    ensures r.Some? ==> r.value.button.Button?
  {
    var source := S.ById(ui.surface.components, request.source);
    if source.Some? && source.value.body.Button? && source.value.body.action.Send? then
      Some(Click(ui.surface, request.source, source.value.body, source.value.body.action.event, request.bound))
    else None
  }

  /** The action a click sends and the text it posts; else why not. */
  function BuildAction(ui: S.PostUi, request: S.Request, iso: Calendar): Outcome<(S.UiAction, string)> {
    var click := ClickOf(ui, request);
    if click.None? then Refused("/sourceComponentId", NotAnEventButton) else BuildEvent(click.value, iso)
  }

  lemma {:induction false} SortKeepsKeys(paths: seq<S.Bound>, inputs: seq<InputAt>)
    ensures multiset(SortBound(paths, inputs)) == multiset(paths)
    ensures KeysOf(SortBound(paths, inputs)) == KeysOf(paths)
  {
    SortPermutes(paths, inputs);
    SameKeys(SortBound(paths, inputs), paths);
    SameKeys(paths, SortBound(paths, inputs));
  }

  lemma SameKeys(a: seq<S.Bound>, b: seq<S.Bound>)
    requires multiset(a) == multiset(b)
    ensures KeysOf(a) <= KeysOf(b)
  {
    forall k | k in KeysOf(a) ensures k in KeysOf(b) {
      var i :| 0 <= i < |a| && a[i].key == k;
      assert a[i] in multiset(a);
      assert a[i] in b;
    }
  }

  lemma {:induction false} SortPermutes(paths: seq<S.Bound>, inputs: seq<InputAt>)
    ensures multiset(SortBound(paths, inputs)) == multiset(paths)
  {
    if paths != [] {
      SortPermutes(paths[1..], inputs);
      InsertPermutes(paths[0], SortBound(paths[1..], inputs), inputs);
      assert paths == [paths[0]] + paths[1..];
    }
  }

  lemma {:induction false} InsertPermutes(b: S.Bound, sorted: seq<S.Bound>, inputs: seq<InputAt>)
    ensures multiset(InsertBound(b, sorted, inputs)) == multiset(sorted) + multiset{b}
  {
    if sorted != [] {
      assert sorted == [sorted[0]] + sorted[1..];
      InsertPermutes(b, sorted[1..], inputs);
    }
  }

  // ----- closing -----

  /** A stored context as a lookup. */
  function Dict(fs: seq<Field>): (r: map<string, Json>)
    ensures forall k :: k in r <==> Find(fs, k).Some?
    ensures forall k :: k in r ==> r[k] == Find(fs, k).value
  {
    if fs == [] then map[] else Dict(fs[1..])[fs[0].key := fs[0].value]
  }

  /** `text.partition("\n")[0]`. */
  function FirstLine(text: string): string { Partition(text, '\n').0 }

  /** The card closed with values written at their pointers. */
  function CloseWith(ui: S.PostUi, paths: seq<S.Bound>, values: map<string, Json>, text: string): S.PostUi
    requires KeysOf(paths) <= values.Keys
  {
    ui.(surface := ui.surface.(dataModel := SentModel(ui.surface.dataModel, paths, values)),
        rev := ui.rev + 1, closed := Some(FirstLine(text)))
  }

  /** The card closed by an action that was built from it: every bound value is in its model. */
  function ClosedBy(ui: S.PostUi, action: S.UiAction, text: string): Outcome<S.PostUi> {
    var source := S.FirstById(ui.surface.components, action.source);
    if source.None? || !source.value.body.Button? || !source.value.body.action.Send? then Crash
    else
      var paths := S.BoundPaths(source.value.body.action.event.context);
      var values := Dict(action.context);
      if !(KeysOf(paths) <= values.Keys) then Crash
      else Done(CloseWith(ui, paths, values, text))
  }
}
