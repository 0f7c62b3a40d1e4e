/**
 When closing a card is faithful.

 A closed card holds what was sent, as far as the sent pointers keep it: clicking it untouched rebuilds the same
 action and text exactly when every sent pointer reads back as its value.
 */
module ClosedCards {
  import opened Options
  import opened Json
  import opened Pointer
  import opened Overwrites
  import S = Surface
  import opened Inputs
  import opened Validate
  import opened Click
  import opened ClickProofs
  import opened ClickTheorems

  /** A click that sends back, for each bound key, what the card holds. */
  predicate SendsBack(click: Click) {
    && click.given.Keys == KeysOf(PathsOfClick(click))
    && forall i :: 0 <= i < |PathsOfClick(click)| && PathsOfClick(click)[i].key in click.given
         ==> click.given[PathsOfClick(click)[i].key] == Read(click.surface.dataModel, PathsOfClick(click)[i].path)
  }

  predicate AllFound(paths: seq<S.Bound>, inputs: seq<InputAt>) {
    forall i :: 0 <= i < |paths| ==> OrderOf(inputs, paths[i].path).Some?
  }

  /** What a key collects from a model that is sent back: null reads as the input's empty value. */
  function Reread(b: S.Bound, inputs: seq<InputAt>, model: Json): Json
    requires OrderOf(inputs, b.path).Some?
  {
    var read := Read(model, b.path);
    if read == Null then Empty(inputs[OrderOf(inputs, b.path).value].kind) else read
  }

  /** Every key collects its value again from the model with all values written. */
  predicate RestoresAll(model: Json, paths: seq<S.Bound>, inputs: seq<InputAt>, bound: map<string, Json>)
    requires AllFound(paths, inputs) && KeysOf(paths) <= bound.Keys
  {
    forall i :: 0 <= i < |paths| ==>
      paths[i].key in bound && Reread(paths[i], inputs, SentModel(model, paths, bound)) == bound[paths[i].key]
  }

  predicate Restores(click: Click, iso: Calendar)
    requires ReadyClick(click) && Sent(click, iso).Done? && Sent(click, iso).value.bound.Keys == KeysOf(PathsOfClick(click))
  {
    RestoresAll(click.surface.dataModel, PathsOfClick(click), InputsOfClick(click), Sent(click, iso).value.bound)
  }

  // ----- what was collected is what inputs hold -----

  lemma ShownIsInput(kind: S.InputKind, value: Json, iso: Calendar)
    requires Shown(kind, value, iso).Some?
    ensures InputValue(value)
  {
  }

  /** The values collected for a click's paths. */
  lemma CollectedAt(click: Click, iso: Calendar, i: nat)
    requires ReadyClick(click) && click.given.Keys == KeysOf(PathsOfClick(click)) && Sent(click, iso).Done?
    requires i < |PathsOfClick(click)|
    ensures var b, bound := PathsOfClick(click)[i], Sent(click, iso).value.bound;
      && b.key in click.given && b.key in bound && OrderOf(InputsOfClick(click), b.path).Some?
      && bound[b.key] == ValueOf(b, InputsOfClick(click), click.given)
      && bound[b.key] != Null && InputValue(bound[b.key])
  {
    var b, keys := PathsOfClick(click)[i], KeysOfClick(click);
    SortedKeys(click);
    assert b in keys;
    var k :| 0 <= k < |keys| && keys[k] == b;
    CollectedValue(keys, InputsOfClick(click), click.given, iso, k);
    ShownIsInput(InputsOfClick(click)[OrderOf(InputsOfClick(click), b.path).value].kind,
      ValueOf(b, InputsOfClick(click), click.given), iso);
  }

  // ----- sending back -----

  /** The click that sends a closed card back. */
  predicate Again(click: Click, again: Click, iso: Calendar)
    requires Sent(click, iso).Done? && Sent(click, iso).value.bound.Keys == KeysOf(PathsOfClick(click))
  {
    && again == click.(surface := click.surface.(dataModel := CheckedModel(click, iso)), given := again.given)
    && SendsBack(again)
  }

  lemma BackValue(click: Click, again: Click, iso: Calendar, b: S.Bound)
    requires ReadyClick(click) && Sent(click, iso).Done? && Sent(click, iso).value.bound.Keys == KeysOf(PathsOfClick(click))
    requires Again(click, again, iso) && b in PathsOfClick(click)
    ensures OrderOf(InputsOfClick(click), b.path).Some? && b.key in again.given
    ensures ValueOf(b, InputsOfClick(click), again.given) == Reread(b, InputsOfClick(click), CheckedModel(click, iso))
  {
    var i :| 0 <= i < |PathsOfClick(click)| && PathsOfClick(click)[i] == b;
    assert b.key in KeysOf(PathsOfClick(click));
  }

  /** A write of a click: an input value, read back from the model with all values written or blocked there. */
  predicate Settles(w: Write, model: Json) {
    w.value != Null && InputValue(w.value) && (Read(model, w.path) == w.value || !Writable(model, w.path))
  }

  lemma WritesAreInputs(click: Click, iso: Calendar)
    requires ReadyClick(click) && BuildEvent(click, iso).Done?
    ensures Sent(click, iso).Done? && Sent(click, iso).value.bound.Keys == KeysOf(PathsOfClick(click))
    ensures InputWrites(WritesOf(PathsOfClick(click), Sent(click, iso).value.bound))
  {
    Accepted(click, iso);
    var paths, bound := PathsOfClick(click), Sent(click, iso).value.bound;
    forall i | 0 <= i < |paths|
      ensures InputValue(WritesOf(paths, bound)[i].value)
    {
      CollectedAt(click, iso, i);
    }
  }

  lemma WriteSettled(model: Json, paths: seq<S.Bound>, inputs: seq<InputAt>, bound: map<string, Json>, i: nat)
    requires AllFound(paths, inputs) && KeysOf(paths) <= bound.Keys && i < |paths|
    requires RestoresAll(model, paths, inputs, bound) && InputWrites(WritesOf(paths, bound))
    ensures Settles(WritesOf(paths, bound)[i], SentModel(model, paths, bound))
  {
    var writes, after := WritesOf(paths, bound), SentModel(model, paths, bound);
    WrittenSettles(model, writes, i);
    assert paths[i].key in bound && Reread(paths[i], inputs, after) == bound[paths[i].key];
  }

  lemma SameModel(click: Click, iso: Calendar)
    requires ReadyClick(click) && BuildEvent(click, iso).Done?
    requires Sent(click, iso).Done? && Sent(click, iso).value.bound.Keys == KeysOf(PathsOfClick(click))
    requires Restores(click, iso)
    ensures SentModel(CheckedModel(click, iso), PathsOfClick(click), Sent(click, iso).value.bound) == CheckedModel(click, iso)
  {
    WritesAreInputs(click, iso);
    var paths, bound := PathsOfClick(click), Sent(click, iso).value.bound;
    var writes, after := WritesOf(paths, bound), CheckedModel(click, iso);
    forall i | 0 <= i < |writes|
      ensures Settles(writes[i], after)
    {
      WriteSettled(click.surface.dataModel, paths, InputsOfClick(click), bound, i);
    }
    WrittenStays(after, writes);
  }

  lemma SameValueAgain(click: Click, again: Click, iso: Calendar, b: S.Bound)
    requires ReadyClick(click) && BuildEvent(click, iso).Done?
    requires Sent(click, iso).Done? && Sent(click, iso).value.bound.Keys == KeysOf(PathsOfClick(click))
    requires Again(click, again, iso) && Restores(click, iso) && b in PathsOfClick(click)
    ensures OrderOf(InputsOfClick(click), b.path).Some? && b.key in click.given && b.key in again.given
    ensures ValueOf(b, InputsOfClick(click), click.given) == ValueOf(b, InputsOfClick(click), again.given)
  {
    Accepted(click, iso);
    var i :| 0 <= i < |PathsOfClick(click)| && PathsOfClick(click)[i] == b;
    CollectedAt(click, iso, i);
    BackValue(click, again, iso, b);
  }

  /** Sending back values that are all restored collects them again and leaves the model equal. */
  lemma SendingBack(click: Click, again: Click, iso: Calendar)
    requires ReadyClick(click) && BuildEvent(click, iso).Done?
    requires Sent(click, iso).Done? && Sent(click, iso).value.bound.Keys == KeysOf(PathsOfClick(click))
    requires Again(click, again, iso) && Restores(click, iso)
    ensures Sent(again, iso) == Sent(click, iso)
    ensures SentModel(again.surface.dataModel, PathsOfClick(again), Sent(click, iso).value.bound) == again.surface.dataModel
  {
    Accepted(click, iso);
    SortedKeys(click);
    SortedKeys(again);
    var keys, inputs := KeysOfClick(click), InputsOfClick(click);
    forall k | 0 <= k < |keys|
      ensures ValueOf(keys[k], inputs, click.given) == ValueOf(keys[k], inputs, again.given)
    {
      SameValueAgain(click, again, iso, keys[k]);
    }
    CollectAgain(keys, inputs, click.given, again.given, iso);
    SameModel(click, iso);
  }

  lemma RestoredBuilds(click: Click, again: Click, iso: Calendar)
    requires ReadyClick(click) && BuildEvent(click, iso).Done?
    requires Sent(click, iso).Done? && Sent(click, iso).value.bound.Keys == KeysOf(PathsOfClick(click))
    requires Again(click, again, iso) && Restores(click, iso)
    ensures BuildEvent(again, iso) == BuildEvent(click, iso)
  {
    Accepted(click, iso);
    SendingBack(click, again, iso);
    Steps(click, iso);
    Steps(again, iso);
  }

  /** Equal actions carry equal values. */
  lemma SameContext(context: seq<Field>, a: map<string, Json>, b: map<string, Json>, i: nat)
    requires SentContext(context, a) == SentContext(context, b) && i < |S.BoundPaths(context)|
    requires S.BoundPaths(context)[i].key in a && S.BoundPaths(context)[i].key in b
    ensures a[S.BoundPaths(context)[i].key] == b[S.BoundPaths(context)[i].key]
  {
    var key := S.BoundPaths(context)[i].key;
    var k := BoundEntry(context, i);
    assert Find(context, key).Some?;
    SentContextFinds(context, a, key);
    SentContextFinds(context, b, key);
  }

  lemma BuiltRestores(click: Click, again: Click, iso: Calendar)
    requires ReadyClick(click) && BuildEvent(click, iso).Done?
    requires Sent(click, iso).Done? && Sent(click, iso).value.bound.Keys == KeysOf(PathsOfClick(click))
    requires Again(click, again, iso) && BuildEvent(again, iso) == BuildEvent(click, iso)
    ensures Restores(click, iso)
  {
    Accepted(click, iso);
    Accepted(again, iso);
    var paths := PathsOfClick(click);
    forall i | 0 <= i < |paths|
      ensures paths[i].key in Sent(click, iso).value.bound
      ensures Reread(paths[i], InputsOfClick(click), CheckedModel(click, iso)) == Sent(click, iso).value.bound[paths[i].key]
    {
      CollectedAt(click, iso, i);
      CollectedAt(again, iso, i);
      BackValue(click, again, iso, paths[i]);
      SameContext(click.event.context, Sent(click, iso).value.bound, Sent(again, iso).value.bound, i);
    }
  }

  // ----- a closed card and its click -----

  /** What a model holds at each path. */
  function Held(model: Json, paths: seq<S.Bound>): (r: map<string, Json>)
    ensures r.Keys == KeysOf(paths)
  {
    if paths == [] then map[]
    else
      assert forall i :: 1 <= i < |paths| ==> paths[i] == paths[1..][i - 1];
      Held(model, paths[1..])[paths[0].key := Read(model, paths[0].path)]
  }

  lemma {:induction false} HeldAt(model: Json, paths: seq<S.Bound>, i: nat)
    requires DistinctKeys(paths) && i < |paths|
    ensures paths[i].key in Held(model, paths) && Held(model, paths)[paths[i].key] == Read(model, paths[i].path)
  {
    if i > 0 {
      TailDistinct(paths);
      HeldAt(model, paths[1..], i - 1);
      assert paths[0].key != paths[i].key;
    }
  }

  /** The request that clicks a card's Button untouched: each bound key is sent as what the card holds. */
  function BackRequest(ui: S.PostUi, source: string): S.Request {
    var click := ClickOf(ui, S.Request(source, map[]));
    S.Request(source, if click.None? then map[] else Held(ui.surface.dataModel, PathsOfClick(click.value)))
  }

  /** The closed card, clicked untouched, gives the same action and text. */
  predicate Faithful(ui: S.PostUi, request: S.Request, iso: Calendar)
    requires BuildAction(ui, request, iso).Done?
  {
    var (action, text) := BuildAction(ui, request, iso).value;
    var closed := ClosedBy(ui, action, text);
    closed.Done?
    && BuildAction(closed.value, BackRequest(closed.value, request.source), iso) == BuildAction(ui, request, iso)
  }

  lemma ReclickOf(ui: S.PostUi, request: S.Request, closed: S.PostUi, iso: Calendar)
    requires ComponentsValid(ui.surface.components) && BuildAction(ui, request, iso).Done?
    requires var (action, text) := BuildAction(ui, request, iso).value; ClosedBy(ui, action, text) == Done(closed)
    ensures ClickOf(ui, request).Some? && ReadyClick(ClickOf(ui, request).value)
    ensures var click, back := ClickOf(ui, request).value, BackRequest(closed, request.source);
      && Sent(click, iso).Done? && Sent(click, iso).value.bound.Keys == KeysOf(PathsOfClick(click))
      && ClickOf(closed, back).Some? && Again(click, ClickOf(closed, back).value, iso)
  {
    ClosesOverCheckedModel(ui, request, iso);
    var click := ClickOf(ui, request).value;
    var paths, model := PathsOfClick(click), CheckedModel(click, iso);
    assert closed.surface == click.surface.(dataModel := model);
    forall i | 0 <= i < |paths|
      ensures paths[i].key in Held(model, paths) && Held(model, paths)[paths[i].key] == Read(model, paths[i].path)
    {
      HeldAt(model, paths, i);
    }
  }

  /** An accepted click closes faithfully exactly when its closed card reads every sent value back, null standing for
      an input's empty value. */
  lemma FaithfulIffRestored(ui: S.PostUi, request: S.Request, iso: Calendar)
    requires ComponentsValid(ui.surface.components) && BuildAction(ui, request, iso).Done?
    ensures ClickOf(ui, request).Some? && ReadyClick(ClickOf(ui, request).value)
    ensures var click := ClickOf(ui, request).value;
      && Sent(click, iso).Done? && Sent(click, iso).value.bound.Keys == KeysOf(PathsOfClick(click))
      && (Faithful(ui, request, iso) <==> Restores(click, iso))
  {
    ClosesOverCheckedModel(ui, request, iso);
    var (action, text) := BuildAction(ui, request, iso).value;
    var closed := ClosedBy(ui, action, text).value;
    ReclickOf(ui, request, closed, iso);
    var click, again := ClickOf(ui, request).value, ClickOf(closed, BackRequest(closed, request.source)).value;
    if Restores(click, iso) {
      RestoredBuilds(click, again, iso);
    }
    if Faithful(ui, request, iso) {
      BuiltRestores(click, again, iso);
    }
  }

  lemma KeptIsRestored(click: Click, iso: Calendar)
    requires ReadyClick(click) && BuildEvent(click, iso).Done?
    requires Sent(click, iso).Done? && Sent(click, iso).value.bound.Keys == KeysOf(PathsOfClick(click))
    requires KeepsSent(click.surface.dataModel, PathsOfClick(click))
    ensures Restores(click, iso)
  {
    Accepted(click, iso);
    var paths, bound := PathsOfClick(click), Sent(click, iso).value.bound;
    forall i | 0 <= i < |paths|
      ensures paths[i].key in bound && Reread(paths[i], InputsOfClick(click), CheckedModel(click, iso)) == bound[paths[i].key]
    {
      CollectedAt(click, iso, i);
      SentIsRead(click.surface.dataModel, paths, bound, i);
    }
  }

  /** Where the sent pointers keep what is written, clicking the closed card untouched rebuilds the same action and
      text, and closing it again leaves its surface equal, key order included. */
  lemma ClosingIsFaithful(ui: S.PostUi, request: S.Request, iso: Calendar)
    requires ComponentsValid(ui.surface.components) && BuildAction(ui, request, iso).Done?
    requires ClickOf(ui, request).Some? ==> KeepsSent(ui.surface.dataModel, PathsOfClick(ClickOf(ui, request).value))
    ensures Faithful(ui, request, iso)
    ensures var (action, text) := BuildAction(ui, request, iso).value;
      var closed := ClosedBy(ui, action, text).value;
      ClosedBy(closed, action, text).Done? && ClosedBy(closed, action, text).value.surface == closed.surface
  {
    FaithfulIffRestored(ui, request, iso);
    var click := ClickOf(ui, request).value;
    KeptIsRestored(click, iso);
    ClosesOverCheckedModel(ui, request, iso);
    ClosedAgain(ui, request, iso);
  }

  /** Closing a restored card again leaves its surface equal. */
  lemma ClosedAgain(ui: S.PostUi, request: S.Request, iso: Calendar)
    requires ComponentsValid(ui.surface.components) && BuildAction(ui, request, iso).Done? && Faithful(ui, request, iso)
    ensures var (action, text) := BuildAction(ui, request, iso).value;
      var closed := ClosedBy(ui, action, text).value;
      ClosedBy(closed, action, text).Done? && ClosedBy(closed, action, text).value.surface == closed.surface
  {
    FaithfulIffRestored(ui, request, iso);
    ClosesOverCheckedModel(ui, request, iso);
    var (action, text) := BuildAction(ui, request, iso).value;
    var closed := ClosedBy(ui, action, text).value;
    ReclickOf(ui, request, closed, iso);
    var back := BackRequest(closed, request.source);
    SendingBack(ClickOf(ui, request).value, ClickOf(closed, back).value, iso);
    ClosesOverCheckedModel(closed, back, iso);
  }

  // ----- exactly which cards close faithfully -----

  predicate NonEmpty(v: Json) { v != Null && !EmptyValue(v) }

  /** The value collected for one key is not empty, and no other key's value is it or lists it. */
  predicate StandsOut(paths: seq<S.Bound>, bound: map<string, Json>, i: nat)
    requires i < |paths|
  {
    && (forall k :: 0 <= k < |paths| ==> paths[k].key in bound && InputValue(bound[paths[k].key]))
    && NonEmpty(bound[paths[i].key])
    && forall k :: 0 <= k < |paths| && k != i ==> !Within(bound[paths[k].key], bound[paths[i].key])
  }

  /** A pointer that is blocked, or that another sent pointer starts, loses a value that stands out. */
  lemma LostValue(model: Json, paths: seq<S.Bound>, inputs: seq<InputAt>, bound: map<string, Json>, i: nat, j: nat)
    requires model.Obj? && AllFound(paths, inputs) && KeysOf(paths) <= bound.Keys && i < |paths| && j < |paths|
    requires StandsOut(paths, bound, i)
    requires !Writable(model, paths[i].path) || (j != i && Starts(paths[j].path, paths[i].path))
    ensures !RestoresAll(model, paths, inputs, bound)
  {
    if exists k :: 0 <= k < |paths| && k != i && Starts(paths[k].path, paths[i].path) {
      var k :| 0 <= k < |paths| && k != i && Starts(paths[k].path, paths[i].path);
      StartedIsLost(model, paths, inputs, bound, i, k);
    } else {
      BlockedIsLost(model, paths, inputs, bound, i);
    }
  }

  lemma EmptyIsEmpty(kind: S.InputKind)
    ensures EmptyValue(Empty(kind))
  {
  }

  /** What a key reads when all values are restored: its value, or null for an empty one. */
  lemma RestoredReads(model: Json, paths: seq<S.Bound>, inputs: seq<InputAt>, bound: map<string, Json>, k: nat)
    requires AllFound(paths, inputs) && KeysOf(paths) <= bound.Keys && k < |paths|
    requires RestoresAll(model, paths, inputs, bound)
    ensures paths[k].key in bound
    ensures var value, read := bound[paths[k].key], Read(SentModel(model, paths, bound), paths[k].path);
      read == value || (read == Null && EmptyValue(value))
  {
    EmptyIsEmpty(inputs[OrderOf(inputs, paths[k].path).value].kind);
    assert paths[k].key in bound && Reread(paths[k], inputs, SentModel(model, paths, bound)) == bound[paths[k].key];
  }

  lemma StartedIsLost(model: Json, paths: seq<S.Bound>, inputs: seq<InputAt>, bound: map<string, Json>, i: nat, k: nat)
    requires AllFound(paths, inputs) && KeysOf(paths) <= bound.Keys && i < |paths| && k < |paths|
    requires StandsOut(paths, bound, i) && k != i && Starts(paths[k].path, paths[i].path)
    ensures !RestoresAll(model, paths, inputs, bound)
  {
    if RestoresAll(model, paths, inputs, bound) {
      RestoredReads(model, paths, inputs, bound, i);
      RestoredReads(model, paths, inputs, bound, k);
      OverlapReadsPart(SentModel(model, paths, bound), paths[k].path, paths[i].path);
      assert false;
    }
  }

  lemma BlockedIsLost(model: Json, paths: seq<S.Bound>, inputs: seq<InputAt>, bound: map<string, Json>, i: nat)
    requires model.Obj? && AllFound(paths, inputs) && KeysOf(paths) <= bound.Keys && i < |paths|
    requires StandsOut(paths, bound, i) && !Writable(model, paths[i].path)
    requires forall k :: 0 <= k < |paths| && k != i ==> !Starts(paths[k].path, paths[i].path)
    ensures !RestoresAll(model, paths, inputs, bound)
  {
    var writes := WritesOf(paths, bound);
    WrittenKeepsBlocked(model, writes, paths[i].path);
    WrittenKeepsObject(model, writes);
    BlockedReadsNull(Written(model, writes), paths[i].path);
    if RestoresAll(model, paths, inputs, bound) {
      RestoredReads(model, paths, inputs, bound, i);
      assert false;
    }
  }

  /** Pointers that do not all keep what is written: one is blocked, or one starts another. */
  lemma NotKept(model: Json, paths: seq<S.Bound>) returns (i: nat, j: nat)
    requires !KeepsSent(model, paths)
    ensures i < |paths| && j < |paths|
    ensures !Writable(model, paths[i].path) || (j != i && Starts(paths[j].path, paths[i].path))
  {
    var sent := SentPaths(paths);
    if !AllWritable(model, sent) {
      i :| 0 <= i < |sent| && !Writable(model, sent[i]);
      j := i;
    } else {
      var a, b :| 0 <= a < b < |sent| && !DivergentPaths(sent[a], sent[b]);
      assert Writable(model, sent[a]) && Writable(model, sent[b]);
      if Starts(sent[a], sent[b]) {
        i, j := b, a;
      } else {
        i, j := a, b;
      }
    }
  }

  /** Some accepted request collects for a key a value that stands out among all it collects. */
  ghost predicate CanStandOut(ui: S.PostUi, source: string, i: nat, iso: Calendar) {
    exists given :: StandsOutIn(ui, S.Request(source, given), i, iso)
  }

  predicate StandsOutIn(ui: S.PostUi, request: S.Request, i: nat, iso: Calendar) {
    && BuildAction(ui, request, iso).Done?
    && ClickOf(ui, request).Some?
    && var click := ClickOf(ui, request).value;
       i < |PathsOfClick(click)| && Sent(click, iso).Done? && StandsOut(PathsOfClick(click), Sent(click, iso).value.bound, i)
  }

  lemma LosesAValue(ui: S.PostUi, request: S.Request, iso: Calendar, i: nat, j: nat)
    requires ComponentsValid(ui.surface.components) && ui.surface.dataModel.Obj? && StandsOutIn(ui, request, i, iso)
    requires var paths := PathsOfClick(ClickOf(ui, request).value);
      j < |paths| && (!Writable(ui.surface.dataModel, paths[i].path) || (j != i && Starts(paths[j].path, paths[i].path)))
    ensures !Faithful(ui, request, iso)
  {
    FaithfulIffRestored(ui, request, iso);
    var click := ClickOf(ui, request).value;
    LostValue(ui.surface.dataModel, PathsOfClick(click), InputsOfClick(click), Sent(click, iso).value.bound, i, j);
  }

  ghost predicate AlwaysFaithful(ui: S.PostUi, source: string, iso: Calendar) {
    forall bound | BuildAction(ui, S.Request(source, bound), iso).Done? :: Faithful(ui, S.Request(source, bound), iso)
  }

  /** The pointers a Button sends, whatever a request gives for them. */
  function SentFrom(ui: S.PostUi, source: string): seq<S.Bound> {
    var click := ClickOf(ui, S.Request(source, map[]));
    if click.None? then [] else PathsOfClick(click.value)
  }

  /** A card on which each sent value can stand out closes faithfully for every accepted request exactly when the sent
      pointers are writable and pairwise divergent. */
  lemma ClosesFaithfullyIff(ui: S.PostUi, source: string, iso: Calendar)
    requires ComponentsValid(ui.surface.components) && ui.surface.dataModel.Obj?
    requires forall i :: 0 <= i < |SentFrom(ui, source)| ==> CanStandOut(ui, source, i, iso)
    ensures AlwaysFaithful(ui, source, iso) <==> KeepsSent(ui.surface.dataModel, SentFrom(ui, source))
  {
    var paths := SentFrom(ui, source);
    if KeepsSent(ui.surface.dataModel, paths) {
      forall bound | BuildAction(ui, S.Request(source, bound), iso).Done?
        ensures Faithful(ui, S.Request(source, bound), iso)
      {
        ClosingIsFaithful(ui, S.Request(source, bound), iso);
      }
    } else {
      var i, j := NotKept(ui.surface.dataModel, paths);
      assert CanStandOut(ui, source, i, iso);
      var given :| StandsOutIn(ui, S.Request(source, given), i, iso);
      LosesAValue(ui, S.Request(source, given), iso, i, j);
    }
  }

  /** One accepted request that fills the card, its values apart from each other, decides for all of them. */
  lemma FilledRequestDecides(ui: S.PostUi, request: S.Request, iso: Calendar)
    requires ComponentsValid(ui.surface.components) && ui.surface.dataModel.Obj?
    requires BuildAction(ui, request, iso).Done?
    requires forall i :: 0 <= i < |SentFrom(ui, request.source)| ==> StandsOutIn(ui, request, i, iso)
    ensures AlwaysFaithful(ui, request.source, iso) <==> Faithful(ui, request, iso)
    ensures Faithful(ui, request, iso) <==> KeepsSent(ui.surface.dataModel, SentFrom(ui, request.source))
  {
    assert request == S.Request(request.source, request.bound);
    forall i | 0 <= i < |SentFrom(ui, request.source)|
      ensures CanStandOut(ui, request.source, i, iso)
    {
      assert StandsOutIn(ui, S.Request(request.source, request.bound), i, iso);
    }
    ClosesFaithfullyIff(ui, request.source, iso);
    if !KeepsSent(ui.surface.dataModel, SentFrom(ui, request.source)) {
      var i, j := NotKept(ui.surface.dataModel, SentFrom(ui, request.source));
      LosesAValue(ui, request, iso, i, j);
    }
  }
}
