/** Clicks from a card nobody has changed: when they are refused, and what they post. */
module UntouchedClicks {
  // Validation checks each starting value and each text a click may post, so an untouched click is refused only by
  // a failing check or by the length cap, and its whole text is plain. Its lines follow the surface's inputs.

  import opened Options
  import opened Text
  import opened Json
  import opened Pointer
  import opened Walk
  import S = Surface
  import opened Inputs
  import opened PlainText
  import opened Validate
  import opened Click
  import opened ClickProofs
  import opened ClickTheorems

  /** Each bound key is sent as what the card starts with, or null. */
  predicate Untouched(click: Click) {
    && click.given.Keys == KeysOf(PathsOfClick(click))
    && forall i :: 0 <= i < |PathsOfClick(click)| && PathsOfClick(click)[i].key in click.given ==>
         var value := click.given[PathsOfClick(click)[i].key];
         value == Null || value == Read(click.surface.dataModel, PathsOfClick(click)[i].path)
  }

  // ----- what validation says of one input -----

  predicate GoodInput(x: InputAt, dataModel: Json, iso: Calendar) {
    && GoodStart(x.kind, Read(dataModel, x.path), iso)
    && PlainOption(x.caption)
    && (x.kind.ChoicePicker? ==> forall k :: 0 <= k < |x.kind.options| ==> Plain(ChoiceText(x.kind.options[k])))
  }

  lemma InputsAreGood(surface: S.Surface, iso: Calendar)
    requires InputsClean(surface.components, surface.dataModel, iso)
    ensures forall x :: x in InputsOf(surface.components) ==> GoodInput(x, surface.dataModel, iso)
  {
    var components := surface.components;
    InputsAreComponents(components);
    forall x | x in InputsOf(components) ensures GoodInput(x, surface.dataModel, iso) {
      var i :| 0 <= i < |components| && S.BoundInput(components[i]) && InputOf(components[i]) == x;
      assert PlainInput(components[i].body);
    }
  }

  /** What a key of an untouched click sends. */
  predicate StartValue(key: S.Bound, inputs: seq<InputAt>, given: map<string, Json>, dataModel: Json)
    requires OrderOf(inputs, key.path).Some? && key.key in given
  {
    given[key.key] == Null || given[key.key] == Read(dataModel, key.path)
  }

  lemma StartIsShown(key: S.Bound, inputs: seq<InputAt>, given: map<string, Json>, dataModel: Json, iso: Calendar)
    requires OrderOf(inputs, key.path).Some? && key.key in given
    requires StartValue(key, inputs, given, dataModel)
    requires GoodInput(inputs[OrderOf(inputs, key.path).value], dataModel, iso)
    ensures Shown(inputs[OrderOf(inputs, key.path).value].kind, ValueOf(key, inputs, given), iso).Some?
  {
    EmptyIsShown(inputs[OrderOf(inputs, key.path).value].kind, iso);
  }

  lemma UntouchedStarts(click: Click)
    requires ReadyClick(click) && Untouched(click)
    ensures forall i :: 0 <= i < |KeysOfClick(click)| ==>
      && OrderOf(InputsOfClick(click), KeysOfClick(click)[i].path).Some? && KeysOfClick(click)[i].key in click.given
      && StartValue(KeysOfClick(click)[i], InputsOfClick(click), click.given, click.surface.dataModel)
  {
    SortedKeys(click);
    var keys, paths := KeysOfClick(click), PathsOfClick(click);
    forall i | 0 <= i < |keys|
      ensures keys[i].key in click.given
      ensures click.given[keys[i].key] == Null || click.given[keys[i].key] == Read(click.surface.dataModel, keys[i].path)
    {
      assert keys[i] in paths;
      var j :| 0 <= j < |paths| && paths[j] == keys[i];
    }
  }

  /** On a valid surface an untouched click is refused only by a failing check or by the length cap. */
  lemma UntouchedRefusals(ui: S.PostUi, request: S.Request, iso: Calendar)
    requires Valid(ui.surface, iso)
    requires ClickOf(ui, request).Some? && Untouched(ClickOf(ui, request).value)
    ensures var r := BuildAction(ui, request, iso);
            r.Done? || (r.Refused? && (r.why.CheckFails? || r.why == TooLong))
  {
    ValidIsComponentsValid(ui.surface, iso);
    RequestIsReady(ui, request);
    var click := ClickOf(ui, request).value;
    InputsAreGood(ui.surface, iso);
    UntouchedIsCollected(click, iso);
    AfterCollecting(click, iso);
  }

  lemma UntouchedIsCollected(click: Click, iso: Calendar)
    requires ReadyClick(click) && Untouched(click)
    requires forall x :: x in InputsOfClick(click) ==> GoodInput(x, click.surface.dataModel, iso)
    ensures Sent(click, iso).Done?
  {
    UntouchedStarts(click);
    SortedKeys(click);
    var keys, inputs := KeysOfClick(click), InputsOfClick(click);
    forall i | 0 <= i < |keys|
      ensures Shown(inputs[OrderOf(inputs, keys[i].path).value].kind, ValueOf(keys[i], inputs, click.given), iso).Some?
    {
      assert inputs[OrderOf(inputs, keys[i].path).value] in inputs;
      StartIsShown(keys[i], inputs, click.given, click.surface.dataModel, iso);
    }
    CollectNoCrash(keys, inputs, click.given, iso);
  }

  // ----- the posted text is plain -----

  predicate PlainLine(line: Line) {
    Plain(line.name) && NoLink(line.value)
  }

  predicate PlainLines(lines: seq<Line>) {
    forall i :: 0 <= i < |lines| ==> PlainLine(lines[i])
  }

  lemma {:induction false} CollectedLinesPlain(
    keys: seq<S.Bound>, inputs: seq<InputAt>, given: map<string, Json>, iso: Calendar, dataModel: Json)
    requires Found(keys, inputs, given) && PlainModel(dataModel)
    requires forall i :: 0 <= i < |keys| ==> Plain(keys[i].key) && StartValue(keys[i], inputs, given, dataModel)
    requires forall x :: x in inputs ==> GoodInput(x, dataModel, iso)
    requires Collect(keys, inputs, given, iso).Done?
    ensures PlainLines(Collect(keys, inputs, given, iso).value.shown)
    decreases keys
  {
    if keys != [] {
      forall i | 0 <= i < |keys[1..]| ensures keys[1..][i] == keys[i + 1] {}
      CollectedLinesPlain(keys[1..], inputs, given, iso, dataModel);
      OneLinePlain(keys[0], inputs, given, iso, dataModel);
    }
  }

  lemma OneLinePlain(key: S.Bound, inputs: seq<InputAt>, given: map<string, Json>, iso: Calendar, dataModel: Json)
    requires OrderOf(inputs, key.path).Some? && key.key in given && PlainModel(dataModel)
    requires Plain(key.key) && StartValue(key, inputs, given, dataModel)
    requires GoodInput(inputs[OrderOf(inputs, key.path).value], dataModel, iso)
    requires CollectOne(key, inputs, given, iso).Done?
    ensures PlainLines(CollectOne(key, inputs, given, iso).value.shown)
  {
    var x, value := inputs[OrderOf(inputs, key.path).value], ValueOf(key, inputs, given);
    ReadIsPlain(dataModel, key.path);
    EmptyIsPlain(x.kind);
    ShownIsPlain(x.kind, value, iso);
  }

  lemma EmptyIsPlain(kind: S.InputKind)
    ensures PlainJson(Empty(kind))
  {
  }

  lemma ReadIsPlain(dataModel: Json, path: string)
    requires PlainModel(dataModel)
    ensures PlainJson(Read(dataModel, path))
  {
    ReadIsWalked(dataModel, "/dataModel", path);
    if Read(dataModel, path) != Null {
      var p :| (p, Read(dataModel, path)) in Nodes(dataModel, "/dataModel");
      assert PlainJson((p, Read(dataModel, path)).1);
    }
  }

  lemma LineNoLink(line: Line)
    requires PlainLine(line)
    ensures NoLink(LineText(line)) && !LeadsWithSlash(LineText(line))
  {
    JoinedNoLink(line.name, ": ", line.value);
    assert LineText(line) == line.name + (": " + line.value);
    LeadOfAppend(line.name, ": " + line.value);
  }

  lemma OneValuePlain(said: string, line: Line)
    requires Plain(said) && PlainLine(line)
    ensures Plain(said + ": " + line.value)
  {
    JoinedNoLink(said, ": ", line.value);
    assert said + ": " + line.value == said + (": " + line.value);
    LeadOfAppend(said, ": " + line.value);
  }

  lemma LinesNoLink(said: string, shown: seq<Line>)
    requires Plain(said) && PlainLines(shown)
    ensures NoLink(Join([said] + LineTexts(shown), "\n"))
  {
    var parts := [said] + LineTexts(shown);
    forall i | 0 <= i < |parts| ensures NoLink(parts[i]) {
      if i > 0 {
        LineNoLink(shown[i - 1]);
      }
    }
    JoinNoLink(parts, "\n");
  }

  lemma LinesLead(said: string, shown: seq<Line>)
    requires Plain(said) && PlainLines(shown) && shown != []
    ensures !LeadsWithSlash(Join([said] + LineTexts(shown), "\n"))
  {
    var texts := LineTexts(shown);
    LineNoLink(shown[0]);
    assert texts[0][|shown[0].name|] == ':';
    JoinLead(texts, "\n");
    assert ([said] + texts)[1..] == texts;
    var rest := "\n" + Join(texts, "\n");
    assert rest[1..] == Join(texts, "\n");
    assert Join([said] + texts, "\n") == said + rest;
    LeadOfAppend(said, rest);
  }

  /** A text that starts with what is said, then nothing, a colon, or a line that leads with no slash. */
  lemma PostTextPlain(said: string, shown: seq<Line>)
    requires Plain(said) && PlainLines(shown)
    ensures Plain(PostText(said, shown))
  {
    if |shown| == 1 {
      OneValuePlain(said, shown[0]);
    } else {
      LinesNoLink(said, shown);
      if shown == [] {
        assert [said] + LineTexts(shown) == [said];
      } else {
        LinesLead(said, shown);
      }
    }
  }

  /** Joined lines lead as the first does, if it is not blank. */
  lemma JoinLead(parts: seq<string>, sep: string)
    requires parts != [] && !LeadsWithSlash(parts[0]) && !AllSpace(parts[0])
    ensures !LeadsWithSlash(Join(parts, sep))
  {
    if |parts| > 1 {
      assert Join(parts, sep) == parts[0] + (sep + Join(parts[1..], sep));
      LeadOfAppend(parts[0], sep + Join(parts[1..], sep));
    }
  }

  /** On a valid surface the whole text an untouched click posts is plain. */
  lemma UntouchedTextIsPlain(ui: S.PostUi, request: S.Request, iso: Calendar)
    requires Valid(ui.surface, iso)
    requires ClickOf(ui, request).Some? && Untouched(ClickOf(ui, request).value)
    requires BuildAction(ui, request, iso).Done?
    ensures Plain(BuildAction(ui, request, iso).value.1)
  {
    ValidIsComponentsValid(ui.surface, iso);
    ValidClickOf(ui, request);
    RequestIsReady(ui, request);
    var click := ClickOf(ui, request).value;
    SentKeys(click);
    SaidIsPlain(click);
    InputsAreGood(ui.surface, iso);
    UntouchedLines(click, iso);
    ClickText(click, iso);
    var caption := ButtonLabel(ui.surface.components, click.button.child).value;
    PostTextPlain(Said(click.event, caption), Sent(click, iso).value.shown);
  }

  /** The text of an accepted click: what it says, and the lines it collected. */
  lemma ClickText(click: Click, iso: Calendar)
    requires ReadyClick(click) && BuildEvent(click, iso).Done?
    ensures Sent(click, iso).Done?
    ensures var caption := ButtonLabel(click.surface.components, click.button.child).value;
      BuildEvent(click, iso).value.1 == PostText(Said(click.event, caption), Sent(click, iso).value.shown)
  {
    Steps(click, iso);
  }

  lemma SaidIsPlain(click: Click)
    requires ValidClick(click) && ButtonLabel(click.surface.components, click.button.child).Done?
    ensures Plain(Said(click.event, ButtonLabel(click.surface.components, click.button.child).value))
  {
    var components := click.surface.components;
    var n :| 0 <= n < |components| && components[n].body == click.button;
    assert EventClean(components, components[n].body.child, components[n].body.action.event);
  }

  lemma UntouchedLines(click: Click, iso: Calendar)
    requires ReadyClick(click) && Untouched(click) && PlainModel(click.surface.dataModel)
    requires forall i :: 0 <= i < |PathsOfClick(click)| ==> Plain(PathsOfClick(click)[i].key)
    requires forall x :: x in InputsOfClick(click) ==> GoodInput(x, click.surface.dataModel, iso)
    ensures Sent(click, iso).Done? && PlainLines(Sent(click, iso).value.shown)
  {
    UntouchedIsCollected(click, iso);
    UntouchedStarts(click);
    SortedKeys(click);
    var keys := KeysOfClick(click);
    forall i | 0 <= i < |keys| ensures Plain(keys[i].key) {
      assert keys[i] in PathsOfClick(click);
    }
    CollectedLinesPlain(keys, InputsOfClick(click), click.given, iso, click.surface.dataModel);
  }

  // ----- the lines follow the surface -----

  /** The key bound to a pointer. */
  function KeyAt(paths: seq<S.Bound>, path: string): Option<S.Bound> {
    if paths == [] then None else if paths[0].path == path then Some(paths[0]) else KeyAt(paths[1..], path)
  }

  /** The sent keys in the order the surface lists their inputs. */
  function InOrder(inputs: seq<InputAt>, paths: seq<S.Bound>): seq<S.Bound> {
    if inputs == [] then []
    else
      var key := KeyAt(paths, inputs[0].path);
      (if key.Some? then [key.value] else []) + InOrder(inputs[1..], paths)
  }

  lemma {:induction false} OrderOfOwn(inputs: seq<InputAt>, k: nat)
    requires k < |inputs| && DistinctPaths(inputs)
    ensures OrderOf(inputs, inputs[k].path) == Some(k)
  {
    if k > 0 {
      OrderOfOwn(inputs[1..], k - 1);
    }
  }

  lemma {:induction false} KeyAtMember(paths: seq<S.Bound>, path: string)
    ensures KeyAt(paths, path).Some? ==> KeyAt(paths, path).value in paths && KeyAt(paths, path).value.path == path
    ensures KeyAt(paths, path).None? ==> forall b :: b in paths ==> b.path != path
  {
    if paths != [] {
      KeyAtMember(paths[1..], path);
    }
  }

  /** Every key in InOrder of a suffix sits at or after the suffix's start. */
  lemma {:induction false} InOrderPlaces(inputs: seq<InputAt>, k: nat, paths: seq<S.Bound>)
    requires k <= |inputs| && DistinctPaths(inputs) && InOrder(inputs[k..], paths) != []
    ensures k <= Rank(InOrder(inputs[k..], paths)[0], inputs) < |inputs|
    decreases |inputs| - k
  {
    if k < |inputs| {
      assert inputs[k..][1..] == inputs[k + 1..];
      KeyAtMember(paths, inputs[k].path);
      OrderOfOwn(inputs, k);
      if KeyAt(paths, inputs[k].path).None? {
        InOrderPlaces(inputs, k + 1, paths);
      }
    }
  }

  function Here(paths: seq<S.Bound>, path: string): seq<S.Bound> {
    if KeyAt(paths, path).Some? then [KeyAt(paths, path).value] else []
  }

  lemma InOrderStep(inputs: seq<InputAt>, k: nat, paths: seq<S.Bound>)
    requires k < |inputs|
    ensures InOrder(inputs[k..], paths) == Here(paths, inputs[k].path) + InOrder(inputs[k + 1..], paths)
  {
    assert inputs[k..][1..] == inputs[k + 1..];
  }

  lemma InsertFirst(b: S.Bound, sorted: seq<S.Bound>, inputs: seq<InputAt>)
    requires sorted != [] ==> Rank(b, inputs) <= Rank(sorted[0], inputs)
    ensures InsertBound(b, sorted, inputs) == [b] + sorted
  {
  }

  lemma InsertLater(b: S.Bound, x: S.Bound, sorted: seq<S.Bound>, inputs: seq<InputAt>)
    requires Rank(x, inputs) < Rank(b, inputs)
    ensures InsertBound(b, [x] + sorted, inputs) == [x] + InsertBound(b, sorted, inputs)
  {
    assert ([x] + sorted)[1..] == sorted;
  }

  lemma {:induction false} InsertInOrder(b: S.Bound, rest: seq<S.Bound>, inputs: seq<InputAt>, k: nat)
    requires k <= Rank(b, inputs) < |inputs| && DistinctPaths(inputs)
    requires KeyAt(rest, b.path).None?
    ensures InsertBound(b, InOrder(inputs[k..], rest), inputs) == InOrder(inputs[k..], [b] + rest)
    decreases |inputs| - k
  {
    var here := inputs[k].path;
    InOrderStep(inputs, k, rest);
    InOrderStep(inputs, k, [b] + rest);
    assert ([b] + rest)[1..] == rest;
    OrderOfOwn(inputs, k);
    var tail := InOrder(inputs[k + 1..], rest);
    if here == b.path {
      LaterWithout(b, rest, inputs, k + 1);
      assert Here(rest, here) + tail == tail;
      if tail != [] {
        InOrderPlaces(inputs, k + 1, rest);
      }
      InsertFirst(b, tail, inputs);
    } else {
      InsertInOrder(b, rest, inputs, k + 1);
      assert Here([b] + rest, here) == Here(rest, here);
      if KeyAt(rest, here).Some? {
        var x := KeyAt(rest, here).value;
        KeyAtMember(rest, here);
        InsertLater(b, x, tail, inputs);
      } else {
        assert Here(rest, here) + tail == tail;
        assert Here(rest, here) + InOrder(inputs[k + 1..], [b] + rest) == InOrder(inputs[k + 1..], [b] + rest);
      }
    }
  }

  /** A key whose input comes earlier does not show in a suffix. */
  lemma {:induction false} LaterWithout(b: S.Bound, rest: seq<S.Bound>, inputs: seq<InputAt>, k: nat)
    requires Rank(b, inputs) < k <= |inputs| && DistinctPaths(inputs)
    ensures InOrder(inputs[k..], [b] + rest) == InOrder(inputs[k..], rest)
    decreases |inputs| - k
  {
    if k < |inputs| {
      assert inputs[k..][1..] == inputs[k + 1..];
      assert ([b] + rest)[1..] == rest;
      OrderOfOwn(inputs, k);
      LaterWithout(b, rest, inputs, k + 1);
    }
  }

  /** Sorting the sent keys by input order lists them as a scan of the surface's inputs does. */
  lemma {:induction false} SortIsSurfaceOrder(paths: seq<S.Bound>, inputs: seq<InputAt>)
    requires DistinctPaths(inputs) && DistinctSent(paths)
    requires forall i :: 0 <= i < |paths| ==> OrderOf(inputs, paths[i].path).Some?
    ensures SortBound(paths, inputs) == InOrder(inputs, paths)
  {
    assert inputs[0..] == inputs;
    if paths == [] {
      NothingInOrder(inputs);
    } else {
      var rest := paths[1..];
      assert paths == [paths[0]] + rest;
      SortIsSurfaceOrder(rest, inputs);
      KeyAtMember(rest, paths[0].path);
      InsertInOrder(paths[0], rest, inputs, 0);
    }
  }

  lemma {:induction false} NothingInOrder(inputs: seq<InputAt>)
    ensures InOrder(inputs, []) == []
  {
    if inputs != [] {
      NothingInOrder(inputs[1..]);
    }
  }

  lemma {:induction false} KeyAtUnique(paths: seq<S.Bound>, b: S.Bound)
    requires DistinctSent(paths) && b in paths
    ensures KeyAt(paths, b.path) == Some(b)
  {
    if paths[0] != b {
      KeyAtUnique(paths[1..], b);
    }
  }

  lemma {:induction false} InOrderPermuted(inputs: seq<InputAt>, paths: seq<S.Bound>, paths': seq<S.Bound>)
    requires DistinctSent(paths) && DistinctSent(paths')
    requires forall b :: b in paths <==> b in paths'
    ensures InOrder(inputs, paths) == InOrder(inputs, paths')
    decreases inputs
  {
    if inputs != [] {
      InOrderPermuted(inputs[1..], paths, paths');
      var p := inputs[0].path;
      KeyAtMember(paths, p);
      KeyAtMember(paths', p);
      if KeyAt(paths, p).Some? {
        KeyAtUnique(paths', KeyAt(paths, p).value);
      }
    }
  }

  /** The values are collected, and shown, in the order the surface lists its inputs. */
  lemma LinesFollowSurface(ui: S.PostUi, request: S.Request, iso: Calendar)
    requires ComponentsValid(ui.surface.components) && ClickOf(ui, request).Some?
    ensures var click := ClickOf(ui, request).value;
            Sent(click, iso) == Collect(InOrder(InputsOfClick(click), PathsOfClick(click)), InputsOfClick(click), click.given, iso)
  {
    ValidClickOf(ui, request);
    var click := ClickOf(ui, request).value;
    SentKeys(click);
    InputsAreComponents(ui.surface.components);
    SortIsSurfaceOrder(PathsOfClick(click), InputsOfClick(click));
  }

  lemma {:induction false} BoundMembers(context: seq<Field>, b: S.Bound)
    ensures b in S.BoundPaths(context) <==>
      exists i :: 0 <= i < |context| && context[i].key == b.key && S.BoundPath(context[i].value) == Some(b.path)
  {
    if context != [] {
      var tail := context[1..];
      BoundMembers(tail, b);
      assert b in S.BoundPaths(context) <==>
        (context[0].key == b.key && S.BoundPath(context[0].value) == Some(b.path)) || b in S.BoundPaths(tail);
      if b in S.BoundPaths(tail) {
        var i :| 0 <= i < |tail| && tail[i].key == b.key && S.BoundPath(tail[i].value) == Some(b.path);
        assert context[i + 1] == tail[i];
      }
      if exists i :: 1 <= i < |context| && context[i].key == b.key && S.BoundPath(context[i].value) == Some(b.path) {
        var i :| 1 <= i < |context| && context[i].key == b.key && S.BoundPath(context[i].value) == Some(b.path);
        assert tail[i - 1] == context[i];
      }
    }
  }

  /** The order of an event's context entries changes neither what is collected nor the lines shown. */
  lemma ContextOrderIrrelevant(inputs: seq<InputAt>, context: seq<Field>, context': seq<Field>,
                               given: map<string, Json>, iso: Calendar)
    requires multiset(context) == multiset(context') && DistinctPaths(inputs)
    requires DistinctSent(S.BoundPaths(context)) && DistinctSent(S.BoundPaths(context'))
    requires forall b :: b in S.BoundPaths(context) ==> OrderOf(inputs, b.path).Some?
    ensures Collect(SortBound(S.BoundPaths(context'), inputs), inputs, given, iso)
         == Collect(SortBound(S.BoundPaths(context), inputs), inputs, given, iso)
  {
    var paths, paths' := S.BoundPaths(context), S.BoundPaths(context');
    forall b ensures b in paths <==> b in paths' {
      BoundMembers(context, b);
      BoundMembers(context', b);
      forall f: Field ensures f in context <==> f in context' {
        assert f in multiset(context) <==> f in multiset(context');
      }
      if b in paths {
        var i :| 0 <= i < |context| && context[i].key == b.key && S.BoundPath(context[i].value) == Some(b.path);
        assert context[i] in context';
      }
      if b in paths' {
        var i :| 0 <= i < |context'| && context'[i].key == b.key && S.BoundPath(context'[i].value) == Some(b.path);
        assert context'[i] in context;
      }
    }
    SortIsSurfaceOrder(paths, inputs);
    SortIsSurfaceOrder(paths', inputs);
    InOrderPermuted(inputs, paths, paths');
  }
}
