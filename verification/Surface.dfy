/** A surface, a click on it and a post, as posts keep them and clients send them. */
module Surface {
  import opened Options
  import opened Json

  /** A check's condition: a pointer to a boolean, or a call of a check function. */
  datatype Condition =
    | AtPath(path: string)
    | Call(name: string, args: seq<Field>)

  datatype Check = Check(condition: Condition, message: Option<string>)

  datatype Choice = Choice(caption: Json, value: string)

  datatype Variant = ShortText | LongText | Number

  datatype InputKind =
    | ChoicePicker(options: seq<Choice>, multiple: bool)
    | TextField(variant: Variant)
    | CheckBox
    | DateTimeInput(enableDate: bool, enableTime: bool)

  datatype Event = Event(name: string, userMessage: Option<string>, context: seq<Field>)

  datatype Action =
    | Send(event: Event)
    | OpenUrl(url: string)

  datatype Children = Ids(ids: seq<string>) | Template

  datatype Body =
    | Text(text: Json)
    | Layout(children: Children)  // Column, Row
    | Card(child: string)
    | Button(child: string, action: Action, checks: seq<Check>)
    | Input(kind: InputKind, caption: Option<Json>, value: Json, checks: seq<Check>)
    | Notice(title: Option<string>, notice: string)
    | Leaf(own: string)  // Divider, KeyValue, Stats, StatusList, Table, Chart: no reference, no input

  datatype Component = Component(id: string, body: Body)

  datatype Surface = Surface(surfaceId: string, components: seq<Component>, dataModel: Json)

  /** `closed` holds the text a closing click left. */
  datatype PostUi = PostUi(surface: Surface, rev: nat, once: bool, closed: Option<string>)

  datatype UiAction = UiAction(
    name: string, surfaceId: string, source: string, userMessage: Option<string>, context: seq<Field>)

  /** A click as a client sends it: the Button, and a value per bound context key. */
  datatype Request = Request(source: string, bound: map<string, Json>)

  /** `{c["id"]: c for c in components}.get(id)`: of equal ids the last one counts. */
  function ById(components: seq<Component>, id: string): (r: Option<Component>)
    ensures r.Some? ==> r.value in components && r.value.id == id
    ensures r.None? ==> forall c :: c in components ==> c.id != id
  {
    if components == [] then None
    else
      var rest := ById(components[1..], id);
      if rest.Some? then rest else if components[0].id == id then Some(components[0]) else None
  }

  /** `next(c for c in components if c["id"] == id)`: the first one. */
  function FirstById(components: seq<Component>, id: string): Option<Component> {
    if components == [] then None
    else if components[0].id == id then Some(components[0])
    else FirstById(components[1..], id)
  }

  predicate UniqueIds(components: seq<Component>) {
    forall i, j :: 0 <= i < j < |components| ==> components[i].id != components[j].id
  }

  /** With unique ids the two lookups agree. */
  lemma {:induction false} LookupsAgree(components: seq<Component>, id: string)
    requires UniqueIds(components)
    ensures ById(components, id) == FirstById(components, id)
  {
    if components != [] {
      LookupsAgree(components[1..], id);
    }
  }

  // ----- dynamic values -----

  /** The pointer a value is bound to, if it is an object with an `@path`. */
  function BoundPath(value: Json): Option<string> {
    if !value.Obj? then None
    else
      var at := Find(value.fields, "@path");
      if at.Some? && at.value.Str? then Some(at.value.s) else None
  }

  predicate BoundInput(c: Component) {
    c.body.Input? && BoundPath(c.body.value).Some?
  }

  /** The pointer a bound input keeps its value at. */
  function PathOf(c: Component): string
    requires BoundInput(c)
  {
    BoundPath(c.body.value).value
  }

  datatype Bound = Bound(key: string, path: string)

  /** The pointer of each bound key of an event's context, in the context's order. */
  function BoundPaths(context: seq<Field>): seq<Bound> {
    if context == [] then []
    else
      var path := BoundPath(context[0].value);
      (if path.Some? then [Bound(context[0].key, path.value)] else []) + BoundPaths(context[1..])
  }

  /** `component["text"]`, where the component has one. */
  function TextOf(body: Body): Option<Json> {
    match body
    case Text(text) => Some(text)
    case Notice(_, text) => Some(Str(text))
    case _ => None
  }

  function ChecksOf(body: Body): seq<Check> {
    match body
    case Button(_, _, checks) => checks
    case Input(_, _, _, checks) => checks
    case _ => []
  }
}
