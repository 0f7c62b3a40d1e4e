/**
 A valid card that does not close faithfully.

 Validation compares the pointers of inputs as strings, so two inputs may share one place: `/~` and `/~0` are the
 same pointer. Of the two values such a card sends only the later one is left in its model.
 */
module OverlappingInputs {
  import opened Options
  import opened Text
  import opened Json
  import opened Pointer
  import opened Walk
  import S = Surface
  import opened Inputs
  import opened PlainText
  import opened Validate
  import opened Click
  import opened ClickProofs
  import opened ClickTheorems
  import opened ClosedCards
  import Tree

  function At(path: string): Json { Obj([Field("@path", Str(path))]) }

  function TextInput(id: string, caption: string, path: string): S.Component {
    S.Component(id, S.Input(S.TextField(S.LongText), Some(Str(caption)), At(path), []))
  }

  const CONTEXT := [Field("k", At("/~")), Field("l", At("/~0"))]

  const EVENT := S.Event("go", None, CONTEXT)

  const COMPONENTS := [
    S.Component("root", S.Layout(S.Ids(["send", "first", "second"]))),
    S.Component("send", S.Button("label", S.Send(EVENT), [])),
    S.Component("label", S.Text(Str("Go"))),
    TextInput("first", "First", "/~"),
    TextInput("second", "Second", "/~0")]

  const CARD := S.PostUi(S.Surface("s", COMPONENTS, Obj([])), 0, true, None)

  const REQUEST := S.Request("send", map["k" := Str("x"), "l" := Str("y")])

  const PATHS := [S.Bound("k", "/~"), S.Bound("l", "/~0")]

  const INPUTS := [
    InputAt("/~", S.TextField(S.LongText), Some(Str("First")), []),
    InputAt("/~0", S.TextField(S.LongText), Some(Str("Second")), [])]

  // ----- the card is valid -----

  lemma ContextPaths()
    ensures S.BoundPaths(CONTEXT) == PATHS
    ensures forall path :: S.BoundPath(At(path)) == Some(path)
  {
    forall path
      ensures S.BoundPath(At(path)) == Some(path)
    {
      assert At(path).fields[0] == Field("@path", Str(path));
    }
    assert CONTEXT[1..] == [Field("l", At("/~0"))];
    assert S.BoundPaths([Field("l", At("/~0"))]) == [S.Bound("l", "/~0")] + S.BoundPaths([]);
  }

  lemma Prefixes()
    ensures COMPONENTS[..0] == [] && COMPONENTS[..1] == [COMPONENTS[0]]
    ensures forall i :: 0 <= i < 5 ==> COMPONENTS[..i + 1] == COMPONENTS[..i] + [COMPONENTS[i]]
    ensures COMPONENTS[..5] == COMPONENTS
  {
  }

  lemma RefsTo(components: seq<S.Component>, n: nat, before: seq<string>, ids: seq<string>)
    requires n < |components| && Refs(components[..n]) == before && ChildIds(components[n].body) == ids
    ensures Refs(components[..n + 1]) == before + ids
  {
    RefsSnoc(components, n);
  }

  lemma ChildrenOf(components: seq<S.Component>, i: nat)
    requires components == COMPONENTS && i < 5
    ensures ChildIds(components[i].body) == if i == 0 then ["send", "first", "second"] else if i == 1 then ["label"] else []
  {
  }

  lemma RootRefs(components: seq<S.Component>)
    requires components == COMPONENTS
    ensures Refs(components[..2]) == ["send", "first", "second"] + ["label"]
  {
    ChildrenOf(components, 0);
    ChildrenOf(components, 1);
    RefsTo(components, 0, [], ["send", "first", "second"]);
    RefsTo(components, 1, ["send", "first", "second"], ["label"]);
  }

  lemma AllRefs(components: seq<S.Component>)
    requires components == COMPONENTS
    ensures Refs(components) == ["send", "first", "second", "label"]
  {
    var refs := ["send", "first", "second"] + ["label"];
    RootRefs(components);
    ChildrenOf(components, 2);
    ChildrenOf(components, 3);
    ChildrenOf(components, 4);
    RefsTo(components, 2, refs, []);
    RefsTo(components, 3, refs, []);
    RefsTo(components, 4, refs, []);
    assert components[..5] == components;
  }

  lemma Ids()
    ensures S.UniqueIds(COMPONENTS)
    ensures forall i :: 0 <= i < 5 ==> S.ById(COMPONENTS, COMPONENTS[i].id) == Some(COMPONENTS[i])
  {
    forall i | 0 <= i < 5
      ensures S.ById(COMPONENTS, COMPONENTS[i].id) == Some(COMPONENTS[i])
    {
      Tree.ByOwnId(COMPONENTS, i);
    }
  }

  lemma IdFound(i: nat, id: string)
    requires i < 5 && id == COMPONENTS[i].id
    ensures S.ById(COMPONENTS, id) == Some(COMPONENTS[i])
  {
    Ids();
  }

  /** The place of a component's child. */
  lemma ChildAt(i: nat, id: string) returns (at: nat)
    requires i < 5 && id in ChildIds(COMPONENTS[i].body)
    ensures at < 5 && id == COMPONENTS[at].id
  {
    ChildrenOf(COMPONENTS, i);
    at := if i == 1 then 2 else if id == "send" then 1 else if id == "first" then 3 else 4;
  }

  lemma Resolved(components: seq<S.Component>)
    requires components == COMPONENTS
    ensures forall i :: 0 <= i < |components| ==> var ids := ChildIds(components[i].body);
              forall k :: 0 <= k < |ids| ==> S.ById(components, ids[k]).Some?
  {
    forall i, k | 0 <= i < |components| && 0 <= k < |ChildIds(components[i].body)|
      ensures S.ById(components, ChildIds(components[i].body)[k]).Some?
    {
      var at := ChildAt(i, ChildIds(components[i].body)[k]);
      IdFound(at, components[at].id);
    }
  }

  lemma Labelled(i: nat)
    requires i < 5
    ensures LabelledByText(COMPONENTS, COMPONENTS[i].body) && COMPONENTS[i].body != S.Layout(S.Template)
  {
    IdFound(2, "label");
  }

  lemma Structured(components: seq<S.Component>)
    requires components == COMPONENTS
    ensures StructureClean(components)
  {
    AllRefs(components);
    forall i | 0 <= i < |components|
      ensures LabelledByText(components, components[i].body) && components[i].body != S.Layout(S.Template)
    {
      Labelled(i);
    }
  }

  lemma PlainWords()
    ensures Plain("Go") && Plain("go") && Plain("k") && Plain("l") && Plain("First") && Plain("Second")
  {
    assert LStrip("Go") == "Go" && LStrip("go") == "go" && LStrip("k") == "k" && LStrip("l") == "l";
    assert LStrip("First") == "First" && LStrip("Second") == "Second";
  }

  lemma NothingRead(path: string)
    requires TokensOf(path).Some? && TokensOf(path).value != []
    ensures Read(Obj([]), path) == Null
  {
    FollowEmptyObject(TokensOf(path).value);
  }

  lemma BoundTextInput(id: string, caption: string, path: string)
    ensures S.BoundInput(TextInput(id, caption, path)) && S.PathOf(TextInput(id, caption, path)) == path
  {
    ContextPaths();
  }

  lemma OnlyTwoInputs(i: nat)
    requires i < 5
    ensures COMPONENTS[i].body.Input? <==> i == 3 || i == 4
  {
  }

  lemma StartsWithNothing(iso: Calendar, i: nat)
    requires i == 3 || i == 4
    ensures GoodStart(COMPONENTS[i].body.kind, Read(Obj([]), S.PathOf(COMPONENTS[i])), iso)
  {
    BoundTextInput("first", "First", "/~");
    BoundTextInput("second", "Second", "/~0");
    TwoStringsOnePointer();
    NothingRead("/~");
    NothingRead("/~0");
  }

  lemma PlainCaptions(i: nat)
    requires i == 3 || i == 4
    ensures PlainInput(COMPONENTS[i].body)
  {
    PlainWords();
  }

  lemma PathsDiffer()
    ensures S.PathOf(COMPONENTS[3]) == "/~" && S.PathOf(COMPONENTS[4]) == "/~0" && "/~" != "/~0"
  {
    BoundTextInput("first", "First", "/~");
    BoundTextInput("second", "Second", "/~0");
    TwoStringsOnePointer();
  }

  lemma InputsOk(components: seq<S.Component>, iso: Calendar)
    requires components == COMPONENTS
    ensures InputsClean(components, Obj([]), iso)
  {
    forall i | 0 <= i < |components| && components[i].body.Input?
      ensures PlainInput(components[i].body)
      ensures GoodStart(components[i].body.kind, Read(Obj([]), S.PathOf(components[i])), iso)
    {
      OnlyTwoInputs(i);
      PlainCaptions(i);
      StartsWithNothing(iso, i);
    }
    forall i, j | 0 <= i < j < |components| && S.BoundInput(components[i]) && S.BoundInput(components[j])
      ensures S.PathOf(components[i]) != S.PathOf(components[j])
    {
      OnlyTwoInputs(i);
      OnlyTwoInputs(j);
      PathsDiffer();
    }
  }

  lemma EmptyModelPlain()
    ensures PlainModel(Obj([]))
  {
    assert Nodes(Obj([]), "/dataModel") == [("/dataModel", Obj([]))] + [];
  }

  lemma InputPathsOf(components: seq<S.Component>)
    requires components == COMPONENTS
    ensures "/~" in InputPaths(components) && "/~0" in InputPaths(components)
  {
    BoundTextInput("first", "First", "/~");
    BoundTextInput("second", "Second", "/~0");
    assert S.BoundInput(components[3]) && S.PathOf(components[3]) == "/~";
    assert S.BoundInput(components[4]) && S.PathOf(components[4]) == "/~0";
  }

  lemma EntryOk(key: string, path: string, paths: set<string>)
    requires path in {"/~", "/~0"} && path in paths && Plain(key)
    ensures GoodEntry(Field(key, At(path)), PATHS, paths)
  {
    ContextPaths();
    PathsDiffer();
  }

  lemma EntriesOk(event: S.Event, paths: set<string>)
    requires event == EVENT && "/~" in paths && "/~0" in paths
    ensures forall k :: 0 <= k < |event.context| ==> GoodEntry(event.context[k], S.BoundPaths(event.context), paths)
  {
    ContextPaths();
    PlainWords();
    EntryOk("k", "/~", paths);
    EntryOk("l", "/~0", paths);
  }

  lemma EventOk(components: seq<S.Component>)
    requires components == COMPONENTS
    ensures EventClean(components, "label", EVENT)
  {
    LabelFound();
    PlainWords();
    InputPathsOf(components);
    EntriesOk(EVENT, InputPaths(components));
  }

  lemma LabelFound()
    ensures S.ById(COMPONENTS, "label") == Some(S.Component("label", S.Text(Str("Go"))))
  {
    IdFound(2, "label");
  }

  lemma EventsOk(components: seq<S.Component>)
    requires components == COMPONENTS
    ensures EventsClean(components)
  {
    EventOk(components);
    forall i | 0 <= i < |components| && components[i].body.Button? && components[i].body.action.Send?
      ensures EventClean(components, components[i].body.child, components[i].body.action.event)
    {
      assert i == 1;
    }
  }

  lemma NothingToCheck(i: nat)
    requires i < 5
    ensures S.ChecksOf(COMPONENTS[i].body) == [] && TypedComponent(COMPONENTS[i])
  {
  }

  lemma CoreHolds(surface: S.Surface)
    requires surface == CARD.surface
    ensures CoreOk(surface)
  {
    Ids();
    Resolved(surface.components);
    forall i | 0 <= i < |surface.components|
      ensures TypedComponent(surface.components[i])
    {
      NothingToCheck(i);
    }
  }

  lemma ChecksOk(components: seq<S.Component>)
    requires components == COMPONENTS
    ensures forall i :: 0 <= i < |components| ==> ChecksClean(components[i].body)
  {
    forall i | 0 <= i < |components|
      ensures ChecksClean(components[i].body)
    {
      NothingToCheck(i);
    }
  }

  lemma RootStands(components: seq<S.Component>)
    requires components == COMPONENTS
    ensures Tree.Rooted(components)
  {
    Ids();
    Resolved(components);
    Structured(components);
    AllRefs(components);
    assert components[0].id == "root";
  }

  /** The card passes every rule, and its components are a tree below its root. */
  lemma CardIsValid(iso: Calendar)
    ensures Valid(CARD.surface, iso) && Tree.Rooted(COMPONENTS)
  {
    var surface := CARD.surface;
    CoreHolds(surface);
    Structured(surface.components);
    InputsOk(surface.components, iso);
    EmptyModelPlain();
    EventsOk(surface.components);
    ChecksOk(surface.components);
    RootStands(surface.components);
  }

  // ----- its click is accepted -----

  function CardClick(): Click { Click(CARD.surface, "send", COMPONENTS[1].body, EVENT, REQUEST.bound) }

  lemma TheClick()
    ensures ClickOf(CARD, REQUEST) == Some(CardClick()) && PathsOfClick(CardClick()) == PATHS
  {
    Ids();
    ContextPaths();
    assert COMPONENTS[1].id == "send";
  }

  lemma TheInputs()
    ensures InputsOfClick(CardClick()) == INPUTS
  {
    Prefixes();
    ContextPaths();
    assert forall i :: 0 <= i < 5 ==> COMPONENTS[..i + 1][..i] == COMPONENTS[..i];
    assert InputsOf(COMPONENTS[..3]) == [] by {
      assert InputsOf(COMPONENTS[..1]) == InputsOf(COMPONENTS[..0]) == [];
      assert InputsOf(COMPONENTS[..2]) == InputsOf(COMPONENTS[..1]);
    }
    assert InputsOf(COMPONENTS[..4]) == [INPUTS[0]];
    assert InputsOf(COMPONENTS[..5]) == PutInput([INPUTS[0]], INPUTS[1]);
    assert [INPUTS[0]][1..] == [];
    assert PutInput([INPUTS[0]], INPUTS[1]) == [INPUTS[0]] + PutInput([], INPUTS[1]) == INPUTS by {
      TwoStringsOnePointer();
    }
  }

  lemma Orders()
    ensures OrderOf(INPUTS, "/~") == Some(0) && OrderOf(INPUTS, "/~0") == Some(1)
    ensures SortBound(PATHS, INPUTS) == PATHS
  {
    TwoStringsOnePointer();
    assert INPUTS[1..] == [INPUTS[1]];
    assert OrderOf([INPUTS[1]], "/~0") == Some(0);
    assert PATHS[1..] == [PATHS[1]] && [PATHS[1]][1..] == [];
    assert SortBound([PATHS[1]], INPUTS) == InsertBound(PATHS[1], SortBound([], INPUTS), INPUTS) == [PATHS[1]];
    assert SortBound(PATHS, INPUTS) == InsertBound(PATHS[0], [PATHS[1]], INPUTS) == [PATHS[0]] + [PATHS[1]];
  }

  lemma CollectTwo(a: S.Bound, b: S.Bound, inputs: seq<InputAt>, given: map<string, Json>, iso: Calendar,
                   first: Collected, second: Collected)
    requires CollectOne(a, inputs, given, iso) == Done(first) && CollectOne(b, inputs, given, iso) == Done(second)
    ensures Collect([a, b], inputs, given, iso) == Done(Merge(first, second))
  {
    assert [a, b][1..] == [b] && [b][1..] == [];
    assert second.bound + map[] == second.bound && second.shown + [] == second.shown;
    assert Collect([b], inputs, given, iso) == Done(second);
  }

  const SENT := Collected(map["k" := Str("x"), "l" := Str("y")], [Line("First", "x"), Line("Second", "y")])

  lemma BothCollected(iso: Calendar)
    ensures Collect(PATHS, INPUTS, REQUEST.bound, iso) == Done(SENT)
  {
    Orders();
    var first := Collected(map["k" := Str("x")], [Line("First", "x")]);
    var second := Collected(map["l" := Str("y")], [Line("Second", "y")]);
    assert Merge(first, second).bound == SENT.bound && Merge(first, second).shown == SENT.shown;
    assert PATHS == [PATHS[0], PATHS[1]];
    CollectTwo(PATHS[0], PATHS[1], INPUTS, REQUEST.bound, iso, first, second);
  }

  lemma {:induction false} NoChecksPass(checked: seq<Checked>, model: Json)
    requires forall i :: 0 <= i < |checked| ==> checked[i].checks == []
    ensures PassChecks(checked, model) == Done(())
  {
    if checked != [] {
      NoChecksPass(checked[1..], model);
    }
  }

  lemma TheText()
    ensures |PostText(Said(EVENT, Str("Go")), [Line("First", "x"), Line("Second", "y")])| <= 30
  {
    var shown := [Line("First", "x"), Line("Second", "y")];
    var parts := ["Go"] + LineTexts(shown);
    assert shown[1..] == [Line("Second", "y")] && [Line("Second", "y")][1..] == [];
    assert "First" + ": " + "x" == "First: x" && "Second" + ": " + "y" == "Second: y";
    assert LineTexts([Line("Second", "y")]) == ["Second: y"];
    assert LineTexts(shown) == ["First: x", "Second: y"];
    assert parts == ["Go", "First: x", "Second: y"];
    assert parts[1..] == ["First: x", "Second: y"] && ["First: x", "Second: y"][1..] == ["Second: y"];
    assert Join(["First: x", "Second: y"], "\n") == "First: x" + "\n" + "Second: y";
  }

  /** A click whose values are held and whose checks pass is accepted when its text fits. */
  lemma Accepts(click: Click, sent: Collected, caption: Json, iso: Calendar)
    requires ReadyClick(click) && click.given.Keys == KeysOf(PathsOfClick(click)) && Sent(click, iso) == Done(sent)
    requires forall model :: PassChecks(CheckedBy(click.button, PathsOfClick(click), InputsOfClick(click)), model) == Done(())
    requires ButtonLabel(click.surface.components, click.button.child) == Done(caption)
    requires |PostText(Said(click.event, caption), sent.shown)| <= 30
    ensures BuildEvent(click, iso).Done?
  {
    Steps(click, iso);
  }

  lemma ClickIsReady(iso: Calendar)
    ensures ReadyClick(CardClick())
  {
    CardIsValid(iso);
    ValidIsComponentsValid(CARD.surface, iso);
    TheClick();
    RequestIsReady(CARD, REQUEST);
  }

  lemma SentByClick(iso: Calendar)
    ensures Sent(CardClick(), iso) == Done(SENT)
  {
    TheClick();
    TheInputs();
    Orders();
    BothCollected(iso);
  }

  lemma ClickAccepted(iso: Calendar)
    ensures ReadyClick(CardClick()) && BuildEvent(CardClick(), iso).Done?
  {
    ClickIsReady(iso);
    SentByClick(iso);
    TheClick();
    TheInputs();
    GivenKeys();
    NothingChecked(iso);
    LabelOfClick();
    TheText();
    Accepts(CardClick(), SENT, Str("Go"), iso);
  }

  lemma GivenKeys()
    ensures REQUEST.bound.Keys == KeysOf(PATHS)
  {
    assert KeysOf(PATHS) == {PATHS[0].key, PATHS[1].key};
  }

  lemma LabelOfClick()
    ensures ButtonLabel(COMPONENTS, "label") == Done(Str("Go"))
  {
    LabelFound();
  }

  lemma NothingChecked(iso: Calendar)
    ensures AllFound(PATHS, INPUTS)
    ensures forall model :: PassChecks(CheckedBy(COMPONENTS[1].body, PATHS, INPUTS), model) == Done(())
  {
    Orders();
    forall model
      ensures PassChecks(CheckedBy(COMPONENTS[1].body, PATHS, INPUTS), model) == Done(())
    {
      NoChecksPass(CheckedBy(COMPONENTS[1].body, PATHS, INPUTS), model);
    }
  }

  /** Two different values at one place are not both read back. */
  lemma OnePlaceOneValue(model: Json, paths: seq<S.Bound>, inputs: seq<InputAt>, bound: map<string, Json>, i: nat, j: nat)
    requires AllFound(paths, inputs) && KeysOf(paths) <= bound.Keys && i < |paths| && j < |paths|
    requires TokensOf(paths[i].path) == TokensOf(paths[j].path)
    requires paths[i].key in bound && paths[j].key in bound && bound[paths[i].key] != bound[paths[j].key]
    requires NonEmpty(bound[paths[i].key]) && NonEmpty(bound[paths[j].key])
    ensures !RestoresAll(model, paths, inputs, bound)
  {
    EmptyIsEmpty(inputs[OrderOf(inputs, paths[i].path).value].kind);
    assert Read(SentModel(model, paths, bound), paths[i].path) == Read(SentModel(model, paths, bound), paths[j].path);
  }

  /** Two keys of a click collect different values for one place. */
  predicate SharesAPlace(click: Click, sent: Collected) {
    var paths := PathsOfClick(click);
    exists i, j :: 0 <= i < j < |paths| && TokensOf(paths[i].path) == TokensOf(paths[j].path) && BothHeld(paths[i], paths[j], sent.bound)
  }

  predicate BothHeld(a: S.Bound, b: S.Bound, bound: map<string, Json>) {
    a.key in bound && b.key in bound && bound[a.key] != bound[b.key] && NonEmpty(bound[a.key]) && NonEmpty(bound[b.key])
  }

  lemma ClosesOtherwise(ui: S.PostUi, request: S.Request, click: Click, iso: Calendar)
    requires ComponentsValid(ui.surface.components) && BuildAction(ui, request, iso).Done?
    requires ClickOf(ui, request) == Some(click) && Sent(click, iso).Done? && SharesAPlace(click, Sent(click, iso).value)
    ensures !Faithful(ui, request, iso)
  {
    FaithfulIffRestored(ui, request, iso);
    var paths, bound := PathsOfClick(click), Sent(click, iso).value.bound;
    var i, j :| 0 <= i < j < |paths| && TokensOf(paths[i].path) == TokensOf(paths[j].path) && BothHeld(paths[i], paths[j], bound);
    OnePlaceOneValue(click.surface.dataModel, paths, InputsOfClick(click), bound, i, j);
  }

  lemma ClickShares(click: Click)
    requires PathsOfClick(click) == PATHS
    ensures SharesAPlace(click, SENT)
  {
    TwoStringsOnePointer();
    assert BothHeld(PATHS[0], PATHS[1], SENT.bound);
  }

  lemma CardAccepts(ui: S.PostUi, request: S.Request, iso: Calendar)
    requires ui == CARD && request == REQUEST
    ensures ComponentsValid(ui.surface.components) && BuildAction(ui, request, iso).Done?
    ensures ClickOf(ui, request) == Some(CardClick())
  {
    CardIsValid(iso);
    ValidIsComponentsValid(CARD.surface, iso);
    TheClick();
    ClickAccepted(iso);
  }

  lemma CardClosesOtherwise(ui: S.PostUi, request: S.Request, click: Click, iso: Calendar)
    requires ui == CARD && request == REQUEST && click == CardClick()
    requires ComponentsValid(ui.surface.components) && BuildAction(ui, request, iso).Done?
    ensures !Faithful(ui, request, iso)
  {
    TheClick();
    SentByClick(iso);
    ClickShares(click);
    ClosesOtherwise(ui, request, click, iso);
  }

  /** The surface passes validation and the click is accepted, but clicking the closed card untouched does not give
      the same action and text. */
  lemma SharedPlaceIsNotFaithful(iso: Calendar)
    ensures Valid(CARD.surface, iso) && Tree.Rooted(CARD.surface.components)
    ensures BuildAction(CARD, REQUEST, iso).Done? && !Faithful(CARD, REQUEST, iso)
  {
    CardIsValid(iso);
    CardAccepts(CARD, REQUEST, iso);
    CardClosesOtherwise(CARD, REQUEST, CardClick(), iso);
  }
}
