/** What a surface reads as: its components' lines, parents first and children in their order. */
module FallbackText {
  import opened Options
  import opened Json
  import S = Surface
  import opened PlainText
  import opened Validate
  import opened Tree

  // ----- the line of one component -----

  /** The component is what some Button shows. */
  predicate IsLabel(components: seq<S.Component>, id: string) {
    exists i :: 0 <= i < |components| && components[i].body.Button? && components[i].body.child == id
  }

  /** What one component adds as a line: a Button speaks for its label, with its link. */
  function LineOf(components: seq<S.Component>, id: string): string {
    var c := S.ById(components, id);
    if c.None? then ""
    else
      match c.value.body
      case Text(text) => if text.Str? && !IsLabel(components, id) then text.s else ""
      case Button(child, action, _) =>
        LabelText(components, child) + (match action case OpenUrl(url) => " (" + url + ")" case Send(_) => "")
      case Notice(None, text) => text
      case Notice(Some(title), text) => if title == "" then text else title + ": " + text
      case Input(_, caption, _, _) => if caption.Some? && caption.value.Str? then caption.value.s else ""
      case Leaf(own) => own
      case Layout(_) => ""
      case Card(_) => ""
  }

  /** The literal text of a Text. */
  function LabelText(components: seq<S.Component>, id: string): string {
    var c := S.ById(components, id);
    if c.Some? && c.value.body.Text? && c.value.body.text.Str? then c.value.body.text.s else ""
  }

  function LinesOf(components: seq<S.Component>, ids: seq<string>): (r: seq<string>)
    ensures |r| == |ids| && forall i :: 0 <= i < |r| ==> r[i] == LineOf(components, ids[i])
  {
    seq(|ids|, i requires 0 <= i < |ids| => LineOf(components, ids[i]))
  }

  lemma LinesOfAppend(components: seq<S.Component>, a: seq<string>, b: seq<string>)
    ensures LinesOf(components, a + b) == LinesOf(components, a) + LinesOf(components, b)
  {
  }

  // ----- joining lines of lines -----

  /** Leaving the empty lines out is done line by line. */
  lemma {:induction false} NonEmptyAppend(a: seq<string>, b: seq<string>)
    ensures NonEmpty(a + b) == NonEmpty(a) + NonEmpty(b)
    ensures NonEmpty([""]) == [] && forall x :: x != "" ==> NonEmpty([x]) == [x]
  {
    if a == [] {
      assert a + b == b;
    } else {
      assert (a + b)[1..] == a[1..] + b;
      NonEmptyAppend(a[1..], b);
    }
  }

  lemma {:induction false} JoinAppend(a: seq<string>, b: seq<string>, sep: string)
    requires a != [] && b != []
    ensures Join(a + b, sep) == Join(a, sep) + sep + Join(b, sep)
  {
    if |a| == 1 {
      assert (a + b)[1..] == b;
    } else {
      assert (a + b)[1..] == a[1..] + b;
      JoinAppend(a[1..], b, sep);
      assert a[0] + sep + (Join(a[1..], sep) + sep + Join(b, sep)) == (a[0] + sep + Join(a[1..], sep)) + sep + Join(b, sep);
    }
  }

  lemma {:induction false} NonEmptyHolds(a: seq<string>)
    ensures forall i :: 0 <= i < |NonEmpty(a)| ==> NonEmpty(a)[i] != ""
  {
    if a != [] {
      NonEmptyHolds(a[1..]);
    }
  }

  lemma EmptyLines(a: seq<string>)
    ensures Lines(a) == "" <==> NonEmpty(a) == []
  {
    NonEmptyHolds(a);
    var kept := NonEmpty(a);
    if kept != [] {
      assert kept[0] != "";
      assert |Join(kept, "\n")| >= |kept[0]|;
    }
  }

  /** Joined lines and more joined lines are the lines of both. */
  lemma LinesOfLines(a: seq<string>, b: seq<string>, rest: seq<string>)
    requires Lines(rest) == Lines(b)
    ensures Lines([Lines(a)] + rest) == Lines(a + b)
  {
    var x := Lines(a);
    NonEmptyAppend([x], rest);
    NonEmptyAppend(a, b);
    EmptyLines(a);
    EmptyLines(b);
    EmptyLines(rest);
    if x == "" {
      assert [] + NonEmpty(rest) == NonEmpty(rest) && [] + NonEmpty(b) == NonEmpty(b);
    } else if NonEmpty(b) == [] {
      assert NonEmpty(a) + [] == NonEmpty(a) && [x] + [] == [x];
    } else {
      JoinAppend([x], NonEmpty(rest), "\n");
      JoinAppend(NonEmpty(a), NonEmpty(b), "\n");
    }
  }

  lemma OneLine(x: string)
    ensures Lines([x]) == x
  {
    NonEmptyAppend([x], []);
  }

  // ----- the text is the lines of what is visited -----

  /** A child of what is no Button is no Button's label. */
  lemma ChildIsNoLabel(components: seq<S.Component>, id: string, child: string)
    requires NoRepeat(Refs(components)) && S.UniqueIds(components) && S.ById(components, id).Some?
    requires child in ChildIds(S.ById(components, id).value.body) && !S.ById(components, id).value.body.Button?
    ensures !IsLabel(components, child)
  {
    var c := S.ById(components, id).value;
    var n :| 0 <= n < |components| && components[n] == c;
    ParentIsUnique(components, n, child);
    if IsLabel(components, child) {
      var i :| 0 <= i < |components| && components[i].body.Button? && components[i].body.child == child;
      ParentIsUnique(components, i, child);
      ByOwnId(components, i);
      assert false;
    }
  }

  /** What validation leaves of references, for the text. */
  predicate Readable(components: seq<S.Component>) {
    && NoRepeat(Refs(components)) && S.UniqueIds(components)
    && forall i :: 0 <= i < |components| ==> LabelledByText(components, components[i].body)
  }

  lemma {:induction false} TextIsLines(components: seq<S.Component>, id: string, depth: nat)
    requires Readable(components) && Render(components, id, depth).Some? && !IsLabel(components, id)
    ensures Render(components, id, depth).value == Lines(LinesOf(components, Visits(components, id, depth)))
    decreases depth, 0
  {
    var c := S.ById(components, id).value;
    var ids := ChildIds(c.body);
    match c.body
    case Layout(Ids(_)) =>
      forall k | 0 <= k < |ids| ensures !IsLabel(components, ids[k]) {
        ChildIsNoLabel(components, id, ids[k]);
      }
      AllIsLines(components, ids, depth - 1);
      OwnFirst(components, id, VisitsAll(components, ids, depth - 1));
    case Card(child) =>
      ChildIsNoLabel(components, id, child);
      TextIsLines(components, child, depth - 1);
      OneVisit(components, child, depth - 1);
      OwnFirst(components, id, VisitsAll(components, ids, depth - 1));
    case Button(child, _, _) =>
      ButtonIsLine(components, id, depth);
    case Layout(Template) =>
    case Text(_) => LeafIsLine(components, id, depth);
    case Notice(_, _) => LeafIsLine(components, id, depth);
    case Input(_, _, _, _) => LeafIsLine(components, id, depth);
    case Leaf(_) => LeafIsLine(components, id, depth);
  }

  lemma LeafIsLine(components: seq<S.Component>, id: string, depth: nat)
    requires depth > 0 && S.ById(components, id).Some? && !IsLabel(components, id)
    requires var body := S.ById(components, id).value.body; body.Text? || body.Notice? || body.Input? || body.Leaf?
    ensures Render(components, id, depth) == Some(Lines(LinesOf(components, Visits(components, id, depth))))
  {
    assert Visits(components, id, depth) == [id] + [] == [id];
    assert LinesOf(components, [id]) == [LineOf(components, id)];
    OneLine(LineOf(components, id));
  }

  /** A component without a line of its own adds nothing to those below it. */
  lemma OwnFirst(components: seq<S.Component>, id: string, below: seq<string>)
    requires LineOf(components, id) == ""
    ensures Lines(LinesOf(components, [id] + below)) == Lines(LinesOf(components, below))
  {
    LinesOfAppend(components, [id], below);
    assert LinesOf(components, [id]) == [""];
    NonEmptyAppend([""], LinesOf(components, below));
    assert [] + NonEmpty(LinesOf(components, below)) == NonEmpty(LinesOf(components, below));
  }

  lemma OneVisit(components: seq<S.Component>, child: string, depth: nat)
    ensures VisitsAll(components, [child], depth) == Visits(components, child, depth)
  {
    assert [child][1..] == [];
    assert Visits(components, child, depth) + [] == Visits(components, child, depth);
  }

  /** A Button is labelled by a Text, which is no line of its own. */
  lemma LabelOfButton(components: seq<S.Component>, id: string)
    requires Readable(components) && S.ById(components, id).Some? && S.ById(components, id).value.body.Button?
    ensures var child := S.ById(components, id).value.body.child;
      && S.ById(components, child).Some? && S.ById(components, child).value.body.Text? && IsLabel(components, child)
  {
    var c := S.ById(components, id).value;
    var n :| 0 <= n < |components| && components[n] == c;
    assert LabelledByText(components, components[n].body);
    assert components[n].body.child == c.body.child;
  }

  /** A Button's line, and its label's, which is part of it. */
  lemma ButtonLine(components: seq<S.Component>, id: string, depth: nat)
    requires Render(components, id, depth).Some? && S.ById(components, id).value.body.Button?
    requires var child := S.ById(components, id).value.body.child;
      && S.ById(components, child).Some? && S.ById(components, child).value.body.Text? && IsLabel(components, child)
    ensures var child := S.ById(components, id).value.body.child;
      && Visits(components, id, depth) == [id] + [child] && LineOf(components, child) == ""
      && Render(components, id, depth).value == LineOf(components, id)
  {
    var child := S.ById(components, id).value.body.child;
    OneVisit(components, child, depth - 1);
    assert Visits(components, child, depth - 1) == [child] + [] == [child];
  }

  lemma ButtonIsLine(components: seq<S.Component>, id: string, depth: nat)
    requires Readable(components) && Render(components, id, depth).Some? && S.ById(components, id).value.body.Button?
    ensures Render(components, id, depth).value == Lines(LinesOf(components, Visits(components, id, depth)))
  {
    LabelOfButton(components, id);
    ButtonLine(components, id, depth);
    var line, child := LineOf(components, id), S.ById(components, id).value.body.child;
    assert LinesOf(components, [id] + [child]) == [line] + [""];
    NonEmptyAppend([line], [""]);
    assert NonEmpty([line]) + [] == NonEmpty([line]);
    OneLine(line);
  }

  lemma {:induction false} AllIsLines(components: seq<S.Component>, ids: seq<string>, depth: nat)
    requires Readable(components) && RenderAll(components, ids, depth).Some?
    requires forall k :: 0 <= k < |ids| ==> !IsLabel(components, ids[k])
    ensures Lines(RenderAll(components, ids, depth).value) == Lines(LinesOf(components, VisitsAll(components, ids, depth)))
    decreases depth, 1, ids
  {
    if ids != [] {
      TextIsLines(components, ids[0], depth);
      AllIsLines(components, ids[1..], depth);
      var a, b := Visits(components, ids[0], depth), VisitsAll(components, ids[1..], depth);
      LinesOfAppend(components, a, b);
      LinesOfLines(LinesOf(components, a), LinesOf(components, b), RenderAll(components, ids[1..], depth).value);
    }
  }

  /** A validated surface reads as the lines of its components that have one, in the order they are visited. */
  lemma FallbackIsLines(components: seq<S.Component>)
    requires Rooted(components)
    ensures Render(components, ROOT, |components|)
         == Some(Join(NonEmpty(LinesOf(components, Visits(components, ROOT, |components|))), "\n"))
  {
    FallbackIsLinear(components);
    if IsLabel(components, ROOT) {
      var i :| 0 <= i < |components| && components[i].body.Button? && components[i].body.child == ROOT;
      ParentIsUnique(components, i, ROOT);
      assert false;
    }
    TextIsLines(components, ROOT, |components|);
  }

  // ----- what is visited, and in which order -----

  lemma {:induction false} UpLess(components: seq<S.Component>, x: string, a: nat, b: nat)
    requires Up(components, x, a + b).Some?
    ensures Up(components, x, a).Some?
    decreases a
  {
    if a > 0 {
      UpLess(components, Parent(components, x).value, a - 1, b);
    }
  }

  /** The child of a component on the way down to one below it. */
  lemma WayDown(components: seq<S.Component>, p: string, x: string, k: nat) returns (child: string)
    requires S.UniqueIds(components) && k > 0 && Up(components, x, k) == Some(p)
    ensures S.ById(components, p).Some? && child in ChildIds(S.ById(components, p).value.body)
    ensures Up(components, x, k - 1) == Some(child)
  {
    UpLess(components, x, k - 1, 1);
    child := Up(components, x, k - 1).value;
    UpTwice(components, x, k - 1, 1);
    assert Parent(components, child).Some?;
    assert Up(components, p, 0) == Some(p) && Up(components, child, 1) == Up(components, Parent(components, child).value, 0);
    var i := ParentNames(components, child);
    ByOwnId(components, i);
  }

  lemma {:induction false} VisitsAllHolds(components: seq<S.Component>, ids: seq<string>, depth: nat, child: string) returns (pre: seq<string>, post: seq<string>)
    requires child in ids
    ensures VisitsAll(components, ids, depth) == pre + Visits(components, child, depth) + post
    decreases ids
  {
    if ids[0] == child {
      pre, post := [], VisitsAll(components, ids[1..], depth);
    } else {
      pre, post := VisitsAllHolds(components, ids[1..], depth, child);
      pre := Visits(components, ids[0], depth) + pre;
    }
  }

  lemma {:induction false} BelowIsVisited(components: seq<S.Component>, p: string, depth: nat, x: string, k: nat)
    requires S.UniqueIds(components) && k < depth && Up(components, x, k) == Some(p) && S.ById(components, x).Some?
    ensures x in Visits(components, p, depth)
    decreases k
  {
    if k > 0 {
      var child := WayDown(components, p, x, k);
      BelowIsVisited(components, child, depth - 1, x, k - 1);
      var pre, post := VisitsAllHolds(components, ChildIds(S.ById(components, p).value.body), depth - 1, child);
    }
  }

  /** Unique ids, and no reference shared or to the root. */
  predicate Forest(components: seq<S.Component>) {
    S.UniqueIds(components) && NoRepeat(Refs(components)) && Parent(components, ROOT).None?
  }

  lemma RootedIsForest(components: seq<S.Component>)
    requires Rooted(components)
    ensures Forest(components) && Level(components, ROOT, 0)
  {
    RootHasNoParent(components);
  }

  lemma HangsWithin(components: seq<S.Component>, x: string, k: nat)
    requires Forest(components) && Level(components, x, k) && S.ById(components, x).Some?
    ensures k < |components|
  {
    KnownId(components, x);
    LevelBound(components, x, k);
  }

  /** Exactly the components that hang from the root are visited. */
  lemma VisitedIff(components: seq<S.Component>, x: string)
    requires Rooted(components)
    ensures x in Visits(components, ROOT, |components|)
       <==> S.ById(components, x).Some? && exists k: nat :: Level(components, x, k)
  {
    RootedIsForest(components);
    ForestVisits(components, x);
  }

  lemma ForestVisits(components: seq<S.Component>, x: string)
    requires Forest(components)
    ensures x in Visits(components, ROOT, |components|)
       <==> S.ById(components, x).Some? && exists k: nat :: Level(components, x, k)
  {
    if x in Visits(components, ROOT, |components|) {
      var k := VisitedIsBelow(components, ROOT, |components|, x);
      VisitedExists(components, ROOT, |components|, x);
      var i :| 0 <= i < |components| && IdsOf(components)[i] == x;
      ByOwnId(components, i);
      assert Level(components, x, k);
    }
    if S.ById(components, x).Some? && exists k: nat :: Level(components, x, k) {
      var k: nat :| Level(components, x, k);
      HangsWithin(components, x, k);
      BelowIsVisited(components, ROOT, |components|, x, k);
    }
  }

  predicate Before(s: seq<string>, x: string, y: string) {
    exists i, j :: 0 <= i < j < |s| && s[i] == x && s[j] == y
  }

  lemma BeforeAcross(a: seq<string>, b: seq<string>, x: string, y: string)
    requires x in a && y in b
    ensures Before(a + b, x, y)
  {
    var i :| 0 <= i < |a| && a[i] == x;
    var j :| 0 <= j < |b| && b[j] == y;
    var s := a + b;
    assert s[i] == x && s[|a| + j] == y;
  }

  lemma BeforeWithin(pre: seq<string>, s: seq<string>, post: seq<string>, x: string, y: string)
    requires Before(s, x, y)
    ensures Before(pre + s + post, x, y)
  {
    var i, j :| 0 <= i < j < |s| && s[i] == x && s[j] == y;
    var t := pre + s + post;
    assert t[|pre| + i] == x && t[|pre| + j] == y;
  }

  /** What comes in an order below one component comes so below its parent. */
  lemma BeforeOneUp(components: seq<S.Component>, p: string, depth: nat, x: string, y: string)
    requires S.UniqueIds(components) && Parent(components, p).Some? && Before(Visits(components, p, depth), x, y)
    ensures Before(Visits(components, Parent(components, p).value, depth + 1), x, y)
  {
    var q := Parent(components, p).value;
    var i := ParentNames(components, p);
    ByOwnId(components, i);
    var below := VisitsAll(components, ChildIds(components[i].body), depth);
    var pre, post := VisitsAllHolds(components, ChildIds(components[i].body), depth, p);
    BeforeWithin(pre, Visits(components, p, depth), post, x, y);
    BelowOwn(components, q, depth, x, y);
  }

  lemma {:induction false} BeforeFromRoot(components: seq<S.Component>, p: string, d: nat, depth: nat, x: string, y: string)
    requires S.UniqueIds(components) && Level(components, p, d) && Before(Visits(components, p, depth), x, y)
    ensures Before(Visits(components, ROOT, depth + d), x, y)
    decreases d
  {
    if d > 0 {
      BeforeOneUp(components, p, depth, x, y);
      BeforeFromRoot(components, Parent(components, p).value, d - 1, depth + 1, x, y);
    }
  }

  lemma {:induction false} EarlierChildFirst(components: seq<S.Component>, ids: seq<string>, depth: nat, i: nat, j: nat, x: string, y: string)
    requires i < j < |ids| && x in Visits(components, ids[i], depth) && y in Visits(components, ids[j], depth)
    ensures Before(VisitsAll(components, ids, depth), x, y)
    decreases ids
  {
    var a, b := Visits(components, ids[0], depth), VisitsAll(components, ids[1..], depth);
    if i == 0 {
      var pre, post := VisitsAllHolds(components, ids[1..], depth, ids[1..][j - 1]);
      BeforeAcross(a, b, x, y);
    } else {
      EarlierChildFirst(components, ids[1..], depth, i - 1, j - 1, x, y);
      BeforeWithin(a, b, [], x, y);
      assert a + b + [] == a + b;
    }
  }

  lemma BelowOwn(components: seq<S.Component>, p: string, depth: nat, x: string, y: string)
    requires S.ById(components, p).Some?
    requires Before(VisitsAll(components, ChildIds(S.ById(components, p).value.body), depth), x, y)
    ensures Before(Visits(components, p, depth + 1), x, y)
  {
    var below := VisitsAll(components, ChildIds(S.ById(components, p).value.body), depth);
    BeforeWithin([p], below, [], x, y);
    assert [p] + below + [] == [p] + below;
  }

  /** One component is read before another. */
  predicate ReadBefore(components: seq<S.Component>, x: string, y: string) {
    Before(Visits(components, ROOT, |components|), x, y)
  }

  function Kids(components: seq<S.Component>, p: string): seq<string> {
    var c := S.ById(components, p);
    if c.Some? then ChildIds(c.value.body) else []
  }

  /** A component that a number of steps up leads to another one. */
  ghost predicate Hangs(components: seq<S.Component>, x: string, from: string) {
    S.ById(components, x).Some? && exists k: nat :: Up(components, x, k) == Some(from)
  }

  /** All that hangs from a component's child is visited below it. */
  lemma HangsBelow(components: seq<S.Component>, p: string, d: nat, child: string, x: string)
    requires Forest(components) && Level(components, p, d) && child in Kids(components, p) && Hangs(components, x, child)
    ensures d < |components| && x in Visits(components, child, |components| - d - 1)
  {
    var k: nat :| Up(components, x, k) == Some(child);
    ChildLevel(components, p, child, d);
    UpTwice(components, x, k, d + 1);
    HangsWithin(components, x, k + d + 1);
    BelowIsVisited(components, child, |components| - d - 1, x, k);
  }

  lemma FirstAt(components: seq<S.Component>, p: string, d: nat, depth: nat, child: string, x: string)
    requires S.UniqueIds(components) && Level(components, p, d)
    requires child in Kids(components, p) && x in Visits(components, child, depth)
    ensures Before(Visits(components, ROOT, depth + 1 + d), p, x)
  {
    var pre, post := VisitsAllHolds(components, Kids(components, p), depth, child);
    BeforeAcross([p], VisitsAll(components, Kids(components, p), depth), p, x);
    BeforeFromRoot(components, p, d, depth + 1, p, x);
  }

  lemma EarlierAt(components: seq<S.Component>, p: string, d: nat, depth: nat, i: nat, j: nat, x: string, y: string)
    requires S.UniqueIds(components) && Level(components, p, d) && i < j < |Kids(components, p)|
    requires x in Visits(components, Kids(components, p)[i], depth) && y in Visits(components, Kids(components, p)[j], depth)
    ensures Before(Visits(components, ROOT, depth + 1 + d), x, y)
  {
    EarlierChildFirst(components, Kids(components, p), depth, i, j, x, y);
    BelowOwn(components, p, depth, x, y);
    BeforeFromRoot(components, p, d, depth + 1, x, y);
  }

  /** A component comes before all that hangs from its children. */
  lemma ParentFirst(components: seq<S.Component>, p: string, d: nat, child: string, x: string)
    requires Forest(components) && Level(components, p, d) && child in Kids(components, p) && Hangs(components, x, child)
    ensures ReadBefore(components, p, x)
  {
    HangsBelow(components, p, d, child, x);
    FirstAt(components, p, d, |components| - d - 1, child, x);
  }

  lemma BothBelow(components: seq<S.Component>, p: string, d: nat, a: string, x: string, b: string, y: string)
    requires Forest(components) && Level(components, p, d) && a in Kids(components, p) && b in Kids(components, p)
    requires Hangs(components, x, a) && Hangs(components, y, b)
    ensures d < |components|
    ensures x in Visits(components, a, |components| - d - 1) && y in Visits(components, b, |components| - d - 1)
  {
    HangsBelow(components, p, d, a, x);
    HangsBelow(components, p, d, b, y);
  }

  /** Of two children of one component, all that hangs from the earlier comes before all that hangs from the later. */
  lemma ChildrenInOrder(components: seq<S.Component>, p: string, d: nat, i: nat, j: nat, x: string, y: string)
    requires Forest(components) && Level(components, p, d) && i < j < |Kids(components, p)|
    requires Hangs(components, x, Kids(components, p)[i]) && Hangs(components, y, Kids(components, p)[j])
    ensures ReadBefore(components, x, y)
  {
    var kids := Kids(components, p);
    assert kids[i] in kids && kids[j] in kids;
    BothBelow(components, p, d, kids[i], x, kids[j], y);
    var depth := |components| - d - 1;
    EarlierAt(components, p, d, depth, i, j, x, y);
    assert depth + 1 + d == |components|;
  }

  /** A Column of two Texts reads as the first one's line and then the second one's. */
  lemma TwoTexts(components: seq<S.Component>, x: string, y: string)
    requires S.ById(components, ROOT) == Some(S.Component(ROOT, S.Layout(S.Ids(["a", "b"]))))
    requires S.ById(components, "a") == Some(S.Component("a", S.Text(Str(x)))) && x != ""
    requires S.ById(components, "b") == Some(S.Component("b", S.Text(Str(y)))) && y != ""
    ensures Render(components, ROOT, 2) == Some(x + "\n" + y)
  {
    assert ["a", "b"][1..] == ["b"] && ["b"][1..] == [];
    assert RenderAll(components, ["b"], 1) == Some([y] + []);
    assert RenderAll(components, ["a", "b"], 1) == Some([x] + ([y] + []));
    assert [x] + ([y] + []) == [x] + [y] && NonEmpty([y]) == [y] by {
      NonEmptyAppend([y], []);
    }
    NonEmptyAppend([x], [y]);
    assert Join([y], "\n") == y && ([x] + [y])[1..] == [y];
  }
}
