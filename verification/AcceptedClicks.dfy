/** Exactly which clicks are accepted, and what an accepted one sends and posts. */
module AcceptedClicks {
  import opened Options
  import opened Text
  import opened Json
  import opened Pointer
  import S = Surface
  import opened Inputs
  import opened PlainText
  import opened Validate
  import opened Click
  import opened ClickProofs
  import opened ClickTheorems
  import opened UntouchedClicks
  import opened ClosedCards
  import opened MetChecks

  // ----- the input behind a key -----

  /** The input bound at a pointer. */
  function BoundAt(components: seq<S.Component>, path: string): (r: Option<S.Component>)
    ensures r.Some? ==> r.value in components && S.BoundInput(r.value) && S.PathOf(r.value) == path
    ensures r.None? ==> forall c :: c in components && S.BoundInput(c) ==> S.PathOf(c) != path
  {
    if components == [] then None
    else if S.BoundInput(components[0]) && S.PathOf(components[0]) == path then Some(components[0])
    else BoundAt(components[1..], path)
  }

  /** Every key of a click has its input. */
  predicate AllBound(components: seq<S.Component>, paths: seq<S.Bound>) {
    forall i :: 0 <= i < |paths| ==> BoundAt(components, paths[i].path).Some?
  }

  /** The bound inputs in the components' order. */
  function Filtered(components: seq<S.Component>): seq<InputAt> {
    if components == [] then []
    else (if S.BoundInput(components[0]) then [InputOf(components[0])] else []) + Filtered(components[1..])
  }

  predicate OwnPaths(components: seq<S.Component>) {
    forall i, j :: 0 <= i < j < |components| && S.BoundInput(components[i]) && S.BoundInput(components[j])
      ==> S.PathOf(components[i]) != S.PathOf(components[j])
  }

  lemma {:induction false} FilteredSnoc(init: seq<S.Component>, c: S.Component)
    ensures Filtered(init + [c]) == Filtered(init) + if S.BoundInput(c) then [InputOf(c)] else []
  {
    if init == [] {
      assert init + [c] == [c] && [c][1..] == [];
    } else {
      assert (init + [c])[1..] == init[1..] + [c];
      FilteredSnoc(init[1..], c);
    }
  }

  lemma {:induction false} PutNew(inputs: seq<InputAt>, x: InputAt)
    requires forall k :: 0 <= k < |inputs| ==> inputs[k].path != x.path
    ensures PutInput(inputs, x) == inputs + [x]
  {
    if inputs != [] {
      PutNew(inputs[1..], x);
      assert inputs == [inputs[0]] + inputs[1..];
    }
  }

  /** When no two inputs are bound at one pointer, the click's inputs are the bound ones in order. */
  lemma {:induction false} InputsAreFiltered(components: seq<S.Component>)
    requires OwnPaths(components)
    ensures InputsOf(components) == Filtered(components)
    decreases |components|
  {
    if components != [] {
      var n := |components| - 1;
      var init, c := components[..n], components[n];
      assert components == init + [c];
      InputsAreFiltered(init);
      FilteredSnoc(init, c);
      if S.BoundInput(c) {
        InputsAreComponents(init);
        forall k | 0 <= k < |InputsOf(init)| ensures InputsOf(init)[k].path != InputOf(c).path {
          assert InputsOf(init)[k] in InputsOf(init);
          var i :| 0 <= i < |init| && S.BoundInput(init[i]) && InputOf(init[i]) == InputsOf(init)[k];
          assert components[i] == init[i];
        }
        PutNew(InputsOf(init), InputOf(c));
      }
    }
  }

  lemma SameComponent(components: seq<S.Component>, a: S.Component, b: S.Component)
    requires OwnPaths(components) && a in components && b in components
    requires S.BoundInput(a) && S.BoundInput(b) && S.PathOf(a) == S.PathOf(b)
    ensures a == b
  {
    var i :| 0 <= i < |components| && components[i] == a;
    var j :| 0 <= j < |components| && components[j] == b;
  }

  /** The click's lookup of an input finds the component bound there. */
  lemma InputBehind(components: seq<S.Component>, path: string)
    requires OwnPaths(components)
    ensures OrderOf(InputsOf(components), path).Some? <==> BoundAt(components, path).Some?
    ensures BoundAt(components, path).Some? ==>
      InputsOf(components)[OrderOf(InputsOf(components), path).value] == InputOf(BoundAt(components, path).value)
  {
    InputsAreComponents(components);
    InputFound(components, path);
    var inputs, at := InputsOf(components), OrderOf(InputsOf(components), path);
    if at.Some? {
      assert inputs[at.value] in inputs;
      var i :| 0 <= i < |components| && S.BoundInput(components[i]) && InputOf(components[i]) == inputs[at.value];
      assert components[i] in components;
      SameComponent(components, components[i], BoundAt(components, path).value);
    }
  }

  // ----- the values of a click -----

  /** What a key sends: null is the input's empty value. */
  function SentValue(kind: S.InputKind, given: Json): Json {
    match given
    case Null => (match kind
                  case ChoicePicker(_, _) => Arr([])
                  case CheckBox => Bool(false)
                  case TextField(_) => Str("")
                  case DateTimeInput(_, _) => Str(""))
    case _ => given
  }

  /** A click with one value for each of its keys and no other. */
  predicate RightKeys(click: Click) {
    click.given.Keys == set i | 0 <= i < |PathsOfClick(click)| :: PathsOfClick(click)[i].key
  }

  function ValueAt(click: Click, b: S.Bound): Json
    requires BoundAt(click.surface.components, b.path).Some? && b.key in click.given
  {
    SentValue(BoundAt(click.surface.components, b.path).value.body.kind, click.given[b.key])
  }

  /** The text a key's value shows as; none when its input cannot hold it. */
  function TextAt(click: Click, b: S.Bound, iso: Calendar): Option<string>
    requires BoundAt(click.surface.components, b.path).Some? && b.key in click.given
  {
    Shown(BoundAt(click.surface.components, b.path).value.body.kind, ValueAt(click, b), iso)
  }

  /** All lookups of a click with the right keys succeed. */
  predicate Filled(click: Click) {
    && AllBound(click.surface.components, PathsOfClick(click)) && RightKeys(click)
    && forall i :: 0 <= i < |PathsOfClick(click)| ==> PathsOfClick(click)[i].key in click.given
  }

  predicate AllHeld(click: Click, iso: Calendar)
    requires Filled(click)
  {
    forall i :: 0 <= i < |PathsOfClick(click)| ==> TextAt(click, PathsOfClick(click)[i], iso).Some?
  }

  lemma ClickIsFilled(click: Click)
    requires ValidClick(click)
    ensures OwnPaths(click.surface.components) && AllBound(click.surface.components, PathsOfClick(click))
    ensures RightKeys(click) ==> Filled(click)
  {
    SentKeys(click);
    forall i | 0 <= i < |PathsOfClick(click)|
      ensures BoundAt(click.surface.components, PathsOfClick(click)[i].path).Some?
      ensures RightKeys(click) ==> PathsOfClick(click)[i].key in click.given
    {
      InputBehind(click.surface.components, PathsOfClick(click)[i].path);
    }
  }

  lemma ValueIs(click: Click, b: S.Bound)
    requires OwnPaths(click.surface.components)
    requires BoundAt(click.surface.components, b.path).Some? && b.key in click.given
    ensures OrderOf(InputsOfClick(click), b.path).Some?
    ensures InputsOfClick(click)[OrderOf(InputsOfClick(click), b.path).value] == InputOf(BoundAt(click.surface.components, b.path).value)
    ensures ValueOf(b, InputsOfClick(click), click.given) == ValueAt(click, b)
  {
    InputBehind(click.surface.components, b.path);
  }

  /** What was collected: a value for each key and no other. */
  ghost predicate Collects(click: Click, bound: map<string, Json>)
    requires Filled(click)
  {
    && bound.Keys == click.given.Keys
    && forall i :: 0 <= i < |PathsOfClick(click)| ==>
         var b := PathsOfClick(click)[i];
         b.key in bound && bound[b.key] == ValueAt(click, b)
  }

  lemma CollectedIsHeld(click: Click, iso: Calendar)
    requires ReadyClick(click) && OwnPaths(click.surface.components) && Filled(click) && Sent(click, iso).Done?
    ensures AllHeld(click, iso) && Collects(click, Sent(click, iso).value.bound)
  {
    Steps(click, iso);
    var paths := PathsOfClick(click);
    forall i | 0 <= i < |paths|
      ensures paths[i].key in Sent(click, iso).value.bound
      ensures Sent(click, iso).value.bound[paths[i].key] == ValueAt(click, paths[i]) && TextAt(click, paths[i], iso).Some?
    {
      CollectedHere(click, iso, i);
    }
  }

  lemma KeyShown(click: Click, iso: Calendar, b: S.Bound)
    requires OwnPaths(click.surface.components) && Filled(click) && b in PathsOfClick(click)
    ensures b.key in click.given && BoundAt(click.surface.components, b.path).Some?
    ensures OrderOf(InputsOfClick(click), b.path).Some?
    ensures TextAt(click, b, iso)
         == Shown(InputsOfClick(click)[OrderOf(InputsOfClick(click), b.path).value].kind, ValueOf(b, InputsOfClick(click), click.given), iso)
    ensures AllHeld(click, iso) ==> TextAt(click, b, iso).Some?
  {
    var i :| 0 <= i < |PathsOfClick(click)| && PathsOfClick(click)[i] == b;
    assert PathsOfClick(click)[i].key in click.given && BoundAt(click.surface.components, PathsOfClick(click)[i].path).Some?;
    ValueIs(click, b);
  }

  lemma HeldIsCollected(click: Click, iso: Calendar)
    requires ReadyClick(click) && OwnPaths(click.surface.components) && Filled(click) && AllHeld(click, iso)
    ensures Sent(click, iso).Done?
  {
    SortedKeys(click);
    var keys, inputs := KeysOfClick(click), InputsOfClick(click);
    forall k | 0 <= k < |keys|
      ensures Shown(inputs[OrderOf(inputs, keys[k].path).value].kind, ValueOf(keys[k], inputs, click.given), iso).Some?
    {
      KeyShown(click, iso, keys[k]);
    }
    CollectNoCrash(keys, inputs, click.given, iso);
  }

  /** The values are collected exactly when each is one its input holds, and then they are what each key sends. */
  lemma CollectedIff(click: Click, iso: Calendar)
    requires ValidClick(click) && Filled(click)
    ensures Sent(click, iso).Done? <==> AllHeld(click, iso)
    ensures Sent(click, iso).Done? ==> Collects(click, Sent(click, iso).value.bound)
  {
    ClickIsFilled(click);
    ValidIsReady(click);
    if Sent(click, iso).Done? {
      CollectedIsHeld(click, iso);
    }
    if AllHeld(click, iso) {
      HeldIsCollected(click, iso);
    }
  }

  lemma CollectedHere(click: Click, iso: Calendar, i: nat)
    requires ReadyClick(click) && OwnPaths(click.surface.components) && Filled(click) && Sent(click, iso).Done?
    requires i < |PathsOfClick(click)|
    ensures var b := PathsOfClick(click)[i];
      && b.key in Sent(click, iso).value.bound && Sent(click, iso).value.bound[b.key] == ValueAt(click, b)
      && TextAt(click, b, iso).Some?
  {
    var b, keys := PathsOfClick(click)[i], KeysOfClick(click);
    SortedKeys(click);
    assert b in keys;
    var k :| 0 <= k < |keys| && keys[k] == b;
    CollectedValue(keys, InputsOfClick(click), click.given, iso, k);
    ValueIs(click, b);
  }

  // ----- what a click says -----

  /** An input's literal label, unless it is empty, else the key. */
  function LabelOr(c: S.Component, key: string): string
    requires c.body.Input?
  {
    match c.body.caption
    case Some(Str(own)) => if own == "" then key else own
    case _ => key
  }

  /** Per sent input, in the components' order, its label and what it shows; the empty ones left out. */
  function ShownLines(components: seq<S.Component>, click: Click, iso: Calendar): seq<(string, string)>
    requires Filled(click) && AllHeld(click, iso)
  {
    if components == [] then []
    else ShownBy(components[0], click, iso) + ShownLines(components[1..], click, iso)
  }

  function ShownBy(c: S.Component, click: Click, iso: Calendar): seq<(string, string)>
    requires Filled(click) && AllHeld(click, iso)
  {
    if S.BoundInput(c) && KeyAt(PathsOfClick(click), S.PathOf(c)).Some? then
      KeyAtMember(PathsOfClick(click), S.PathOf(c));
      var b := KeyAt(PathsOfClick(click), S.PathOf(c)).value;
      var i :| 0 <= i < |PathsOfClick(click)| && PathsOfClick(click)[i] == b;
      assert TextAt(click, PathsOfClick(click)[i], iso).Some?;
      var text := TextAt(click, b, iso).value;
      if text == "" then [] else [(LabelOr(c, b.key), text)]
    else []
  }

  function Pairs(shown: seq<Line>): (r: seq<(string, string)>)
    ensures |r| == |shown| && forall i :: 0 <= i < |r| ==> r[i] == (shown[i].name, shown[i].value)
  {
    seq(|shown|, i requires 0 <= i < |shown| => (shown[i].name, shown[i].value))
  }

  /** A new line per pair. */
  function Listing(lines: seq<(string, string)>): string {
    if lines == [] then "" else "\n" + lines[0].0 + ": " + lines[0].1 + Listing(lines[1..])
  }

  /** What is said, and the one value shown or a line for each. */
  function Message(said: string, lines: seq<(string, string)>): string {
    if |lines| == 1 then said + ": " + lines[0].1 else said + Listing(lines)
  }

  /** The user message, else the Button's literal label, else the event's name. */
  function Speaks(click: Click): string
    requires click.button.Button?
  {
    match click.event.userMessage
    case Some(m) => if m == "" then Labelled(click) else m
    case None => Labelled(click)
  }

  function Labelled(click: Click): string
    requires click.button.Button?
  {
    match S.ById(click.surface.components, click.button.child)
    case Some(Component(_, Text(Str(own)))) => if own == "" then click.event.name else own
    case _ => click.event.name
  }

  lemma {:induction false} ListingIsJoin(said: string, shown: seq<Line>)
    ensures Join([said] + LineTexts(shown), "\n") == said + Listing(Pairs(shown))
    decreases |shown|
  {
    if shown == [] {
      assert [said] + LineTexts(shown) == [said];
    } else {
      var rest := shown[1..];
      assert LineTexts(shown) == [LineText(shown[0])] + LineTexts(rest);
      assert Pairs(shown)[1..] == Pairs(rest);
      assert ([said] + LineTexts(shown))[1..] == [LineText(shown[0])] + LineTexts(rest);
      ListingIsJoin(LineText(shown[0]), rest);
      assert said + "\n" + (LineText(shown[0]) + Listing(Pairs(rest)))
          == said + ("\n" + shown[0].name + ": " + shown[0].value + Listing(Pairs(rest)));
    }
  }

  lemma PostIsMessage(said: string, shown: seq<Line>)
    ensures PostText(said, shown) == Message(said, Pairs(shown))
  {
    if |shown| != 1 {
      ListingIsJoin(said, shown);
    }
  }

  // ----- the lines follow the components -----

  lemma CollectLine(click: Click, b: S.Bound, iso: Calendar)
    requires OwnPaths(click.surface.components)
    requires BoundAt(click.surface.components, b.path).Some? && b.key in click.given && TextAt(click, b, iso).Some?
    ensures var one := CollectOne(b, InputsOfClick(click), click.given, iso);
      var text := TextAt(click, b, iso).value;
      && one.Done?
      && Pairs(one.value.shown)
         == if text == "" then [] else [(LabelOr(BoundAt(click.surface.components, b.path).value, b.key), text)]
  {
    ValueIs(click, b);
  }

  lemma PairsAppend(a: seq<Line>, b: seq<Line>)
    ensures Pairs(a + b) == Pairs(a) + Pairs(b)
  {
  }

  lemma CollectHere(click: Click, c: S.Component, iso: Calendar)
    requires Filled(click) && AllHeld(click, iso) && OwnPaths(click.surface.components)
    requires c in click.surface.components && S.BoundInput(c) && KeyAt(PathsOfClick(click), S.PathOf(c)).Some?
    ensures var b := KeyAt(PathsOfClick(click), S.PathOf(c)).value;
      var one := CollectOne(b, InputsOfClick(click), click.given, iso);
      one.Done? && Pairs(one.value.shown) == ShownBy(c, click, iso)
  {
    var paths := PathsOfClick(click);
    KeyAtMember(paths, S.PathOf(c));
    var b := KeyAt(paths, S.PathOf(c)).value;
    var i :| 0 <= i < |paths| && paths[i] == b;
    assert TextAt(click, paths[i], iso).Some?;
    CollectLine(click, b, iso);
    SameComponent(click.surface.components, c, BoundAt(click.surface.components, b.path).value);
  }

  lemma {:induction false} LinesFollowComponents(click: Click, part: seq<S.Component>, iso: Calendar)
    requires Filled(click) && AllHeld(click, iso) && OwnPaths(click.surface.components)
    requires forall c :: c in part ==> c in click.surface.components
    ensures var r := Collect(InOrder(Filtered(part), PathsOfClick(click)), InputsOfClick(click), click.given, iso);
      r.Done? && Pairs(r.value.shown) == ShownLines(part, click, iso)
    decreases part
  {
    var paths, inputs := PathsOfClick(click), InputsOfClick(click);
    if part != [] {
      var c, rest := part[0], part[1..];
      LinesFollowComponents(click, rest, iso);
      var later := Collect(InOrder(Filtered(rest), paths), inputs, click.given, iso).value;
      if S.BoundInput(c) {
        assert ([InputOf(c)] + Filtered(rest))[1..] == Filtered(rest);
        if KeyAt(paths, S.PathOf(c)).Some? {
          CollectHere(click, c, iso);
          var b := KeyAt(paths, S.PathOf(c)).value;
          assert ([b] + InOrder(Filtered(rest), paths))[1..] == InOrder(Filtered(rest), paths);
          PairsAppend(CollectOne(b, inputs, click.given, iso).value.shown, later.shown);
        } else {
          assert [] + InOrder(Filtered(rest), paths) == InOrder(Filtered(rest), paths);
        }
      } else {
        assert [] + Filtered(rest) == Filtered(rest);
      }
    }
  }

  lemma LinesAre(click: Click, iso: Calendar)
    requires ValidClick(click) && Filled(click) && AllHeld(click, iso)
    ensures Sent(click, iso).Done? && Pairs(Sent(click, iso).value.shown) == ShownLines(click.surface.components, click, iso)
  {
    ClickIsFilled(click);
    SentKeys(click);
    InputsAreComponents(click.surface.components);
    SortIsSurfaceOrder(PathsOfClick(click), InputsOfClick(click));
    InputsAreFiltered(click.surface.components);
    LinesFollowComponents(click, click.surface.components, iso);
  }

  // ----- when a click is accepted -----

  lemma PartsAreTyped(click: Click)
    requires ReadyClick(click)
    ensures PartsTyped(CheckedBy(click.button, PathsOfClick(click), InputsOfClick(click)))
  {
    var checked := CheckedBy(click.button, PathsOfClick(click), InputsOfClick(click));
    forall i | 0 <= i < |checked| ensures AllTyped(checked[i].checks) {
      assert ReadyChecks(checked[i].checks, SentPaths(PathsOfClick(click)));
    }
  }

  /** The checks of the input behind a key. */
  function ChecksAt(click: Click, b: S.Bound): seq<S.Check>
    requires BoundAt(click.surface.components, b.path).Some?
  {
    S.ChecksOf(BoundAt(click.surface.components, b.path).value.body)
  }

  ghost predicate TypedClick(click: Click) {
    && AllBound(click.surface.components, PathsOfClick(click)) && AllTyped(S.ChecksOf(click.button))
    && forall i :: 0 <= i < |PathsOfClick(click)| ==> AllTyped(ChecksAt(click, PathsOfClick(click)[i]))
  }

  /** Every check of the Button and of each sent input is met. */
  ghost predicate ChecksMet(click: Click, model: Json)
    requires TypedClick(click)
  {
    && AllMet(S.ChecksOf(click.button), model)
    && forall i :: 0 <= i < |PathsOfClick(click)| ==> AllMet(ChecksAt(click, PathsOfClick(click)[i]), model)
  }

  /** Where the first check that is not met is reported, and what it says: the Button, then the keys in the context's
      order. */
  ghost predicate FirstUnmet(click: Click, model: Json, at: string, text: string)
    requires TypedClick(click)
  {
    || (at == "/sourceComponentId" && FirstSays(S.ChecksOf(click.button), model, text))
    || (AllMet(S.ChecksOf(click.button), model)
        && exists i :: 0 <= i < |PathsOfClick(click)|
             && at == "/bound/" + Escape(PathsOfClick(click)[i].key)
             && (forall j :: 0 <= j < i ==> AllMet(ChecksAt(click, PathsOfClick(click)[j]), model))
             && FirstSays(ChecksAt(click, PathsOfClick(click)[i]), model, text))
  }

  /** The Button and the inputs behind the keys, with where each is reported. */
  function Parts(click: Click): (r: seq<Checked>)
    requires AllBound(click.surface.components, PathsOfClick(click))
    ensures |r| == |PathsOfClick(click)| + 1 && r[0] == Checked("/sourceComponentId", S.ChecksOf(click.button))
    ensures forall i :: 0 <= i < |PathsOfClick(click)| ==>
      r[i + 1] == Checked("/bound/" + Escape(PathsOfClick(click)[i].key), ChecksAt(click, PathsOfClick(click)[i]))
  {
    [Checked("/sourceComponentId", S.ChecksOf(click.button))]
    + seq(|PathsOfClick(click)|, i requires 0 <= i < |PathsOfClick(click)| =>
        Checked("/bound/" + Escape(PathsOfClick(click)[i].key), ChecksAt(click, PathsOfClick(click)[i])))
  }

  lemma PartAt(click: Click, i: nat)
    requires OwnPaths(click.surface.components) && i < |PathsOfClick(click)|
    requires AllFound(PathsOfClick(click), InputsOfClick(click))
    ensures var b := PathsOfClick(click)[i];
      && BoundAt(click.surface.components, b.path).Some?
      && InputsOfClick(click)[OrderOf(InputsOfClick(click), b.path).value].checks == ChecksAt(click, b)
  {
    InputBehind(click.surface.components, PathsOfClick(click)[i].path);
  }

  lemma PartsAre(click: Click)
    requires OwnPaths(click.surface.components) && AllFound(PathsOfClick(click), InputsOfClick(click))
    ensures AllBound(click.surface.components, PathsOfClick(click))
    ensures CheckedBy(click.button, PathsOfClick(click), InputsOfClick(click)) == Parts(click)
  {
    var paths := PathsOfClick(click);
    forall i | 0 <= i < |paths|
      ensures BoundAt(click.surface.components, paths[i].path).Some?
      ensures InputsOfClick(click)[OrderOf(InputsOfClick(click), paths[i].path).value].checks == ChecksAt(click, paths[i])
    {
      PartAt(click, i);
    }
    var checked, parts := CheckedBy(click.button, paths, InputsOfClick(click)), Parts(click);
    forall k | 0 <= k < |parts|
      ensures checked[k] == parts[k]
    {
      assert k > 0 ==> parts[(k - 1) + 1] == checked[(k - 1) + 1];
    }
  }

  lemma ClickIsTyped(click: Click)
    requires ReadyClick(click) && OwnPaths(click.surface.components)
    ensures TypedClick(click) && PartsTyped(Parts(click))
  {
    PartsAre(click);
    PartsAreTyped(click);
    var parts := Parts(click);
    assert AllTyped(parts[0].checks);
    forall i | 0 <= i < |PathsOfClick(click)| ensures AllTyped(ChecksAt(click, PathsOfClick(click)[i])) {
      assert AllTyped(parts[i + 1].checks);
    }
  }

  lemma PartsAreChecks(click: Click, model: Json)
    requires TypedClick(click) && PartsTyped(Parts(click))
    ensures PartsMet(Parts(click), model) <==> ChecksMet(click, model)
  {
    var parts, paths := Parts(click), PathsOfClick(click);
    if PartsMet(parts, model) {
      assert AllMet(parts[0].checks, model);
      forall i | 0 <= i < |paths| ensures AllMet(ChecksAt(click, paths[i]), model) {
        assert AllMet(parts[i + 1].checks, model);
      }
    }
    if ChecksMet(click, model) {
      forall n | 0 <= n < |parts| ensures AllMet(parts[n].checks, model) {
        assert n > 0 ==> parts[n].checks == ChecksAt(click, paths[n - 1]);
      }
    }
  }

  lemma RefusedPart(click: Click, model: Json, at: string, text: string)
    requires TypedClick(click) && PartsTyped(Parts(click)) && RefusedAtFirst(Parts(click), model, at, text)
    ensures FirstUnmet(click, model, at, text)
  {
    var parts, paths := Parts(click), PathsOfClick(click);
    var n :| 0 <= n < |parts| && parts[n].at == at
      && (forall j :: 0 <= j < n ==> AllMet(parts[j].checks, model)) && FirstSays(parts[n].checks, model, text);
    if n > 0 {
      assert AllMet(parts[0].checks, model);
      forall j | 0 <= j < n - 1 ensures AllMet(ChecksAt(click, paths[j]), model) {
        assert AllMet(parts[j + 1].checks, model);
      }
      assert parts[n].at == "/bound/" + Escape(paths[n - 1].key) && parts[n].checks == ChecksAt(click, paths[n - 1]);
    }
  }

  /** The context with what was sent in place of each pointer. */
  ghost predicate SentIn(context: seq<Field>, sent: seq<Field>, bound: map<string, Json>) {
    && |sent| == |context|
    && forall i :: 0 <= i < |context| ==>
         && sent[i].key == context[i].key
         && (context[i].key in bound ==> sent[i].value == bound[context[i].key])
         && (context[i].key !in bound ==> sent[i].value == context[i].value)
  }

  lemma SaidIs(click: Click)
    requires click.button.Button? && ButtonLabel(click.surface.components, click.button.child).Done?
    requires LabelledByText(click.surface.components, click.button)
    ensures Said(click.event, ButtonLabel(click.surface.components, click.button.child).value) == Speaks(click)
  {
  }

  lemma Labelling(click: Click)
    requires ValidClick(click)
    ensures LabelledByText(click.surface.components, click.button)
  {
    var components := click.surface.components;
    var n :| 0 <= n < |components| && components[n].body == click.button;
    assert LabelledByText(components, components[n].body);
  }

  /** What a click comes to once its values are collected. */
  ghost predicate Comes(click: Click, r: Outcome<(S.UiAction, string)>, bound: map<string, Json>, text: string, model: Json)
    requires TypedClick(click)
  {
    if !ChecksMet(click, model) then r.Refused? && r.why.CheckFails? && FirstUnmet(click, model, r.at, r.why.text)
    else if |text| > 40000 then r == Refused("/bound", TooLong)
    else
      && r.Done? && r.value.1 == text
      && r.value.0.name == click.event.name && r.value.0.surfaceId == click.surface.surfaceId
      && r.value.0.source == click.source && r.value.0.userMessage == click.event.userMessage
      && SentIn(click.event.context, r.value.0.context, bound)
  }

  /** What the checks of a click come to. */
  lemma ChecksCome(click: Click, model: Json)
    requires ReadyClick(click) && OwnPaths(click.surface.components) && TypedClick(click)
    ensures var r := PassChecks(CheckedBy(click.button, PathsOfClick(click), InputsOfClick(click)), model);
      && (ChecksMet(click, model) ==> r.Done?)
      && (!ChecksMet(click, model) ==> r.Refused? && r.why.CheckFails? && FirstUnmet(click, model, r.at, r.why.text))
  {
    PartsAre(click);
    ClickIsTyped(click);
    PartsAreChecks(click, model);
    var r := PassChecks(Parts(click), model);
    PassIff(Parts(click), model);
    if !ChecksMet(click, model) {
      RefusedPart(click, model, r.at, r.why.text);
    }
  }

  lemma FinishComes(click: Click, shown: seq<Line>, bound: map<string, Json>, passed: Outcome<()>, text: string, model: Json)
    requires click.button.Button? && ButtonLabel(click.surface.components, click.button.child).Done? && TypedClick(click)
    requires LabelledByText(click.surface.components, click.button) && text == Message(Speaks(click), Pairs(shown))
    requires ChecksMet(click, model) ==> passed.Done?
    requires !ChecksMet(click, model) ==>
      passed.Refused? && passed.why.CheckFails? && FirstUnmet(click, model, passed.at, passed.why.text)
    ensures Comes(click, Finish(click, shown, bound, passed), bound, text, model)
  {
    SaidIs(click);
    PostIsMessage(Said(click.event, ButtonLabel(click.surface.components, click.button.child).value), shown);
  }

  /** A click with one value for each key, all held by their inputs, is accepted exactly when every check of the Button
      and of the sent inputs is met over the model with these values written and the text is not too long; it sends
      the values in their places and posts what the Button says and the values shown. Else the first check that is
      not met, or the cap, refuses it. */
  lemma AcceptedIff(click: Click, iso: Calendar, bound: map<string, Json>)
    requires ValidClick(click) && Filled(click) && AllHeld(click, iso) && Collects(click, bound)
    ensures TypedClick(click) && KeysOf(PathsOfClick(click)) <= bound.Keys
    ensures Comes(click, BuildEvent(click, iso), bound,
      Message(Speaks(click), ShownLines(click.surface.components, click, iso)),
      SentModel(click.surface.dataModel, PathsOfClick(click), bound))
  {
    ClickIsFilled(click);
    ValidIsReady(click);
    ClickIsTyped(click);
    LinesAre(click, iso);
    CollectedIff(click, iso);
    SameCollected(click, bound, Sent(click, iso).value.bound);
    Labelling(click);
    Steps(click, iso);
    var model := SentModel(click.surface.dataModel, PathsOfClick(click), bound);
    ChecksCome(click, model);
    FinishComes(click, Sent(click, iso).value.shown, bound,
      PassChecks(CheckedBy(click.button, PathsOfClick(click), InputsOfClick(click)), model),
      Message(Speaks(click), ShownLines(click.surface.components, click, iso)), model);
  }

  lemma SameCollected(click: Click, a: map<string, Json>, b: map<string, Json>)
    requires Filled(click) && Collects(click, a) && Collects(click, b)
    ensures a == b && KeysOf(PathsOfClick(click)) == a.Keys
  {
    forall k | k in a ensures k in b && a[k] == b[k] {
      var i :| 0 <= i < |PathsOfClick(click)| && PathsOfClick(click)[i].key == k;
    }
  }

  // ----- when it does not come so far -----

  /** The first keys all hold what they are given. */
  predicate HeldTo(keys: seq<S.Bound>, inputs: seq<InputAt>, given: map<string, Json>, iso: Calendar, n: nat)
    requires Found(keys, inputs, given) && n <= |keys|
  {
    forall m :: 0 <= m < n ==>
      Shown(inputs[OrderOf(inputs, keys[m].path).value].kind, ValueOf(keys[m], inputs, given), iso).Some?
  }

  lemma {:induction false} FirstNotHeld(keys: seq<S.Bound>, inputs: seq<InputAt>, given: map<string, Json>, iso: Calendar)
    returns (n: nat)
    requires Found(keys, inputs, given) && !Collect(keys, inputs, given, iso).Done?
    ensures n < |keys|
    ensures Collect(keys, inputs, given, iso) == Refused("/bound/" + Escape(keys[n].key), BadValue)
    ensures HeldTo(keys, inputs, given, iso, n)
    ensures Shown(inputs[OrderOf(inputs, keys[n].path).value].kind, ValueOf(keys[n], inputs, given), iso).None?
    decreases keys
  {
    var rest := keys[1..];
    assert forall i :: 0 <= i < |rest| ==> rest[i] == keys[i + 1];
    if CollectOne(keys[0], inputs, given, iso).Done? {
      n := FirstNotHeld(rest, inputs, given, iso);
      n := n + 1;
      assert forall m :: 1 <= m <= n ==> keys[m] == rest[m - 1];
      assert HeldTo(keys, inputs, given, iso, n);
    } else {
      n := 0;
    }
  }

  /** All keys whose inputs come before that of the i-th key hold what they are given. */
  predicate EarlierHeld(click: Click, i: nat, iso: Calendar)
    requires Filled(click) && i < |PathsOfClick(click)|
  {
    forall j :: 0 <= j < |PathsOfClick(click)|
      && Rank(PathsOfClick(click)[j], InputsOfClick(click)) < Rank(PathsOfClick(click)[i], InputsOfClick(click))
      ==> TextAt(click, PathsOfClick(click)[j], iso).Some?
  }

  predicate InRank(keys: seq<S.Bound>, inputs: seq<InputAt>) {
    forall a, b :: 0 <= a < b < |keys| ==> Rank(keys[a], inputs) <= Rank(keys[b], inputs)
  }

  lemma {:induction false} InsertInRank(x: S.Bound, sorted: seq<S.Bound>, inputs: seq<InputAt>)
    requires InRank(sorted, inputs)
    ensures InRank(InsertBound(x, sorted, inputs), inputs)
    ensures forall y :: y in InsertBound(x, sorted, inputs) ==> y == x || y in sorted
  {
    if sorted != [] && Rank(x, inputs) > Rank(sorted[0], inputs) {
      var rest := sorted[1..];
      assert forall k :: 0 <= k < |rest| ==> rest[k] == sorted[k + 1];
      InsertInRank(x, rest, inputs);
      var more := InsertBound(x, rest, inputs);
      forall b | 0 <= b < |more| ensures Rank(sorted[0], inputs) <= Rank(more[b], inputs) {
        assert more[b] in more;
        if more[b] != x {
          var k :| 0 <= k < |rest| && rest[k] == more[b];
          assert Rank(sorted[0], inputs) <= Rank(sorted[k + 1], inputs);
        }
      }
    }
  }

  lemma {:induction false} SortInRank(paths: seq<S.Bound>, inputs: seq<InputAt>)
    ensures InRank(SortBound(paths, inputs), inputs)
  {
    if paths != [] {
      SortInRank(paths[1..], inputs);
      InsertInRank(paths[0], SortBound(paths[1..], inputs), inputs);
    }
  }

  lemma EarlierInRank(keys: seq<S.Bound>, inputs: seq<InputAt>, m: nat, n: nat)
    requires InRank(keys, inputs) && m < |keys| && n < |keys| && Rank(keys[m], inputs) < Rank(keys[n], inputs)
    ensures m < n
  {
  }

  lemma NotHeldFirst(click: Click, iso: Calendar) returns (i: nat)
    requires ReadyClick(click) && OwnPaths(click.surface.components) && Filled(click) && !Sent(click, iso).Done?
    ensures i < |PathsOfClick(click)|
    ensures Sent(click, iso) == Refused("/bound/" + Escape(PathsOfClick(click)[i].key), BadValue)
    ensures TextAt(click, PathsOfClick(click)[i], iso).None? && EarlierHeld(click, i, iso)
  {
    SortedKeys(click);
    var keys, paths := KeysOfClick(click), PathsOfClick(click);
    var n := FirstNotHeld(keys, InputsOfClick(click), click.given, iso);
    assert keys[n] in paths;
    i :| 0 <= i < |paths| && paths[i] == keys[n];
    KeyShown(click, iso, keys[n]);
    SortInRank(paths, InputsOfClick(click));
    forall j | 0 <= j < |paths| && Rank(paths[j], InputsOfClick(click)) < Rank(paths[i], InputsOfClick(click))
      ensures TextAt(click, paths[j], iso).Some?
    {
      EarlierIsHeld(click, iso, n, paths[j]);
    }
  }

  lemma EarlierIsHeld(click: Click, iso: Calendar, n: nat, b: S.Bound)
    requires OwnPaths(click.surface.components) && Filled(click) && b in PathsOfClick(click) && b in KeysOfClick(click)
    requires n < |KeysOfClick(click)| && Rank(b, InputsOfClick(click)) < Rank(KeysOfClick(click)[n], InputsOfClick(click))
    requires Found(KeysOfClick(click), InputsOfClick(click), click.given) && InRank(KeysOfClick(click), InputsOfClick(click))
    requires HeldTo(KeysOfClick(click), InputsOfClick(click), click.given, iso, n)
    ensures BoundAt(click.surface.components, b.path).Some? && b.key in click.given && TextAt(click, b, iso).Some?
  {
    KeyShown(click, iso, b);
    var m :| 0 <= m < |KeysOfClick(click)| && KeysOfClick(click)[m] == b;
    EarlierInRank(KeysOfClick(click), InputsOfClick(click), m, n);
  }

  /** Wrong keys are refused as such; else the first value, in the order of the inputs, that its input cannot hold. */
  lemma RefusedBefore(click: Click, iso: Calendar)
    requires ValidClick(click)
    ensures !RightKeys(click) ==> BuildEvent(click, iso) == Refused("/bound", WrongKeys)
    ensures RightKeys(click) ==> Filled(click)
    ensures RightKeys(click) && !AllHeld(click, iso) ==>
      exists i :: 0 <= i < |PathsOfClick(click)|
        && BuildEvent(click, iso) == Refused("/bound/" + Escape(PathsOfClick(click)[i].key), BadValue)
        && TextAt(click, PathsOfClick(click)[i], iso).None?
        && EarlierHeld(click, i, iso)
  {
    ClickIsFilled(click);
    if RightKeys(click) && !AllHeld(click, iso) {
      ValidIsReady(click);
      CollectedIff(click, iso);
      Steps(click, iso);
      var i := NotHeldFirst(click, iso);
    }
  }

  /** Every check is met over the model with all that the click sends written. */
  ghost predicate PassesChecks(click: Click)
    requires Filled(click) && TypedClick(click)
  {
    exists bound :: Collects(click, bound) && KeysOf(PathsOfClick(click)) <= bound.Keys
      && ChecksMet(click, SentModel(click.surface.dataModel, PathsOfClick(click), bound))
  }

  lemma PassesIff(click: Click, bound: map<string, Json>)
    requires Filled(click) && TypedClick(click) && Collects(click, bound) && KeysOf(PathsOfClick(click)) <= bound.Keys
    ensures PassesChecks(click) <==> ChecksMet(click, SentModel(click.surface.dataModel, PathsOfClick(click), bound))
  {
    if PassesChecks(click) {
      var other :| Collects(click, other) && KeysOf(PathsOfClick(click)) <= other.Keys
        && ChecksMet(click, SentModel(click.surface.dataModel, PathsOfClick(click), other));
      SameCollected(click, bound, other);
    }
  }

  /** A click is accepted exactly when it sends one value for each bound key and no other, each is one its input holds,
      every check of the Button and of the sent inputs is met over the model with them written, and the text has at
      most 40000 characters. */
  lemma ClickAcceptedIff(click: Click, iso: Calendar)
    requires ValidClick(click)
    ensures TypedClick(click) && (RightKeys(click) ==> Filled(click))
    ensures BuildEvent(click, iso).Done? <==>
      && RightKeys(click) && AllHeld(click, iso) && PassesChecks(click)
      && |Message(Speaks(click), ShownLines(click.surface.components, click, iso))| <= 40000
  {
    ClickIsFilled(click);
    ValidIsReady(click);
    ClickIsTyped(click);
    RefusedBefore(click, iso);
    if RightKeys(click) && AllHeld(click, iso) {
      CollectedIff(click, iso);
      var bound := Sent(click, iso).value.bound;
      AcceptedIff(click, iso, bound);
      PassesIff(click, bound);
    }
  }

  /** Of equal ids a request's source is the only one, so a request makes a click exactly when its source is a Button
      that sends an event. */
  lemma ClickOfIff(ui: S.PostUi, request: S.Request)
    requires S.UniqueIds(ui.surface.components)
    ensures ClickOf(ui, request).None? ==> forall c :: c in ui.surface.components && c.id == request.source ==>
              !(c.body.Button? && c.body.action.Send?)
    ensures ClickOf(ui, request).Some? ==>
      var click := ClickOf(ui, request).value;
      && S.Component(request.source, click.button) in ui.surface.components && click.button.action == S.Send(click.event)
      && click.surface == ui.surface && click.source == request.source && click.given == request.bound
    ensures forall iso :: ClickOf(ui, request).None? ==>
      BuildAction(ui, request, iso) == Refused("/sourceComponentId", NotAnEventButton)
  {
    forall c | c in ui.surface.components && c.id == request.source
      ensures S.ById(ui.surface.components, request.source) == Some(c)
    {
      var d := S.ById(ui.surface.components, request.source).value;
      var i :| 0 <= i < |ui.surface.components| && ui.surface.components[i] == c;
      var j :| 0 <= j < |ui.surface.components| && ui.surface.components[j] == d;
    }
  }

  /** A required text that is sent empty refuses the click. */
  lemma EmptyRequiredIsRefused(click: Click, iso: Calendar, i: nat, k: nat)
    requires ValidClick(click) && Filled(click) && AllHeld(click, iso) && i < |PathsOfClick(click)|
    requires KeepsSent(click.surface.dataModel, PathsOfClick(click))
    requires click.given[PathsOfClick(click)[i].key] == Str("") && k < |ChecksAt(click, PathsOfClick(click)[i])|
    requires ChecksAt(click, PathsOfClick(click)[i])[k].condition
          == S.Call("required", [Field("value", Obj([Field("@path", Str(PathsOfClick(click)[i].path))]))])
    ensures BuildEvent(click, iso).Refused? && BuildEvent(click, iso).why.CheckFails?
  {
    CollectedIff(click, iso);
    var b, bound := PathsOfClick(click)[i], Sent(click, iso).value.bound;
    AcceptedIff(click, iso, bound);
    var model := SentModel(click.surface.dataModel, PathsOfClick(click), bound);
    SentIsRead(click.surface.dataModel, PathsOfClick(click), bound, i);
    EmptyIsUnmet([Field("value", Obj([Field("@path", Str(b.path))]))], b.path, model);
    assert AllTyped(ChecksAt(click, b)) && !Met(ChecksAt(click, b)[k].condition, model);
    assert !AllMet(ChecksAt(click, b), model);
  }
}
