/** A surface as plain text, read from `root` down: why it ends, and why it stays short. */
module Tree {
  import opened Options
  import opened Text
  import opened Json
  import S = Surface
  import opened PlainText
  import opened Validate

  const ROOT := "root"

  function Literal(value: Json): string { if value.Str? then value.s else "" }

  function NonEmpty(parts: seq<string>): seq<string> {
    if parts == [] then []
    else (if parts[0] == "" then [] else [parts[0]]) + NonEmpty(parts[1..])
  }

  /** Lines, the empty ones left out. */
  function Lines(parts: seq<string>): string { Join(NonEmpty(parts), "\n") }

  /** The text read from one component down; None where the program would raise: an unknown id, a
      list template, or recursion deeper than `depth`. */
  function Render(components: seq<S.Component>, id: string, depth: nat): Option<string>
    decreases depth, 0
  {
    var c := S.ById(components, id);
    if depth == 0 || c.None? then None
    else
      match c.value.body
      case Text(text) => Some(Literal(text))
      case Layout(Ids(ids)) =>
        var texts := RenderAll(components, ids, depth - 1);
        if texts.None? then None else Some(Lines(texts.value))
      case Layout(Template) => None
      case Card(child) => Render(components, child, depth - 1)
      case Button(child, action, _) =>
        var text := Render(components, child, depth - 1);
        if text.None? then None
        else Some(if action.OpenUrl? then text.value + " (" + action.url + ")" else text.value)
      case Notice(title, text) =>
        Some(if title.Some? && title.value != "" then title.value + ": " + text else text)
      case Input(_, caption, _, _) => Some(if caption.Some? then Literal(caption.value) else "")
      case Leaf(own) => Some(own)
  }

  function RenderAll(components: seq<S.Component>, ids: seq<string>, depth: nat): Option<seq<string>>
    decreases depth, 1, ids
  {
    if ids == [] then Some([])
    else
      var first := Render(components, ids[0], depth);
      var rest := RenderAll(components, ids[1..], depth);
      if first.None? || rest.None? then None else Some([first.value] + rest.value)
  }

  /** The components the recursion visits, in order. */
  function Visits(components: seq<S.Component>, id: string, depth: nat): seq<string>
    decreases depth, 0
  {
    var c := S.ById(components, id);
    if depth == 0 || c.None? then [] else [id] + VisitsAll(components, ChildIds(c.value.body), depth - 1)
  }

  function VisitsAll(components: seq<S.Component>, ids: seq<string>, depth: nat): seq<string>
    decreases depth, 1, ids
  {
    if ids == [] then [] else Visits(components, ids[0], depth) + VisitsAll(components, ids[1..], depth)
  }

  // ----- parents and levels -----

  /** The component that names `id` as a child. */
  function Parent(components: seq<S.Component>, id: string): Option<string> {
    if components == [] then None
    else
      var last := components[|components| - 1];
      if id in ChildIds(last.body) then Some(last.id) else Parent(components[..|components| - 1], id)
  }

  /** What validation and a2ui-core leave: a tree's references, every one resolved, the root unparented. */
  predicate Rooted(components: seq<S.Component>) {
    && S.UniqueIds(components)
    && StructureClean(components)
    && (forall i :: 0 <= i < |components| ==>
          var ids := ChildIds(components[i].body);
          forall k :: 0 <= k < |ids| ==> S.ById(components, ids[k]).Some?)
    && S.ById(components, ROOT).Some?
    && ROOT !in Refs(components)
  }

  lemma {:induction false} ParentIsUnique(components: seq<S.Component>, i: nat, id: string)
    requires NoRepeat(Refs(components)) && i < |components| && id in ChildIds(components[i].body)
    ensures Parent(components, id) == Some(components[i].id)
    ensures id in Refs(components)
    decreases |components|
  {
    var n := |components| - 1;
    var init := components[..n];
    RepeatAppend(Refs(init), ChildIds(components[n].body));
    if i < n {
      assert init[i] == components[i];
      ParentIsUnique(init, i, id);
    }
  }

  lemma {:induction false} ParentNames(components: seq<S.Component>, id: string) returns (i: nat)
    requires Parent(components, id).Some?
    ensures i < |components| && components[i].id == Parent(components, id).value
    ensures id in ChildIds(components[i].body) && id in Refs(components)
    decreases |components|
  {
    var n := |components| - 1;
    if id in ChildIds(components[n].body) {
      i := n;
    } else {
      i := ParentNames(components[..n], id);
    }
  }

  /** The k-th component above `id`. */
  function Up(components: seq<S.Component>, id: string, k: nat): Option<string>
    decreases k
  {
    if k == 0 then Some(id)
    else
      var parent := Parent(components, id);
      if parent.None? then None else Up(components, parent.value, k - 1)
  }

  predicate Level(components: seq<S.Component>, id: string, d: nat) {
    Up(components, id, d) == Some(ROOT)
  }

  lemma {:induction false} UpTwice(components: seq<S.Component>, id: string, a: nat, b: nat)
    requires Up(components, id, a).Some?
    ensures Up(components, id, a + b) == Up(components, Up(components, id, a).value, b)
    decreases a
  {
    if a > 0 {
      UpTwice(components, Parent(components, id).value, a - 1, b);
    }
  }

  /** A component has one level: the root has no parent. */
  lemma {:induction false} LevelIsUnique(components: seq<S.Component>, id: string, d: nat, e: nat)
    requires Parent(components, ROOT).None?
    requires Level(components, id, d) && Level(components, id, e)
    ensures d == e
    decreases d
  {
    if d > 0 && e > 0 {
      LevelIsUnique(components, Parent(components, id).value, d - 1, e - 1);
    }
  }

  lemma RootHasNoParent(components: seq<S.Component>)
    requires ROOT !in Refs(components)
    ensures Parent(components, ROOT).None?
  {
    if Parent(components, ROOT).Some? {
      var i := ParentNames(components, ROOT);
    }
  }

  /** A child is one level below its parent. */
  lemma ChildLevel(components: seq<S.Component>, id: string, child: string, d: nat)
    requires NoRepeat(Refs(components)) && S.ById(components, id).Some?
    requires child in ChildIds(S.ById(components, id).value.body) && Level(components, id, d)
    ensures Parent(components, child) == Some(id) && Level(components, child, d + 1)
  {
    var c := S.ById(components, id).value;
    var i :| 0 <= i < |components| && components[i] == c;
    ParentIsUnique(components, i, child);
  }

  lemma ChildrenLevel(components: seq<S.Component>, id: string, d: nat)
    requires NoRepeat(Refs(components)) && S.ById(components, id).Some? && Level(components, id, d)
    ensures var ids := ChildIds(S.ById(components, id).value.body);
            forall k :: 0 <= k < |ids| ==> Level(components, ids[k], d + 1)
  {
    var ids := ChildIds(S.ById(components, id).value.body);
    forall k | 0 <= k < |ids| ensures Level(components, ids[k], d + 1) {
      ChildLevel(components, id, ids[k], d);
    }
  }

  // ----- each component is visited at most once -----

  lemma {:induction false} VisitedIsBelow(components: seq<S.Component>, id: string, depth: nat, y: string)
    returns (k: nat)
    requires NoRepeat(Refs(components)) && y in Visits(components, id, depth)
    ensures Up(components, y, k) == Some(id)
    decreases depth, 0
  {
    if y == id {
      k := 0;
    } else {
      var c := S.ById(components, id).value;
      var child;
      k, child := VisitedBelowOne(components, ChildIds(c.body), depth - 1, y);
      var i :| 0 <= i < |components| && components[i] == c;
      ParentIsUnique(components, i, child);
      UpTwice(components, y, k, 1);
      assert Up(components, child, 1) == Up(components, id, 0);
      k := k + 1;
    }
  }

  lemma {:induction false} VisitedBelowOne(components: seq<S.Component>, ids: seq<string>, depth: nat, y: string)
    returns (k: nat, child: string)
    requires NoRepeat(Refs(components)) && y in VisitsAll(components, ids, depth)
    ensures child in ids && Up(components, y, k) == Some(child)
    decreases depth, 1, ids
  {
    if y in Visits(components, ids[0], depth) {
      child := ids[0];
      k := VisitedIsBelow(components, child, depth, y);
    } else {
      k, child := VisitedBelowOne(components, ids[1..], depth, y);
    }
  }

  lemma NotBelowItself(components: seq<S.Component>, id: string, ids: seq<string>, d: nat, depth: nat)
    requires Parent(components, ROOT).None? && Level(components, id, d)
    requires forall k :: 0 <= k < |ids| ==> Level(components, ids[k], d + 1)
    requires NoRepeat(Refs(components))
    ensures id !in VisitsAll(components, ids, depth)
  {
    if id in VisitsAll(components, ids, depth) {
      var k, child := VisitedBelowOne(components, ids, depth, id);
      UpTwice(components, id, k, d + 1);
      LevelIsUnique(components, id, d, k + d + 1);
      assert false;
    }
  }

  lemma OneMore(id: string, ids: seq<string>)
    requires NoRepeat(ids) && id !in ids
    ensures NoRepeat([id] + ids)
  {
    RepeatAppend([id], ids);
  }

  lemma {:induction false} VisitsOnce(components: seq<S.Component>, id: string, d: nat, depth: nat)
    requires NoRepeat(Refs(components)) && Parent(components, ROOT).None? && Level(components, id, d)
    ensures NoRepeat(Visits(components, id, depth))
    decreases depth, 0
  {
    if depth > 0 && S.ById(components, id).Some? {
      var c := S.ById(components, id).value;
      var ids := ChildIds(c.body);
      ChildrenOnce(components, c);
      ChildrenLevel(components, id, d);
      VisitsAllOnce(components, ids, d + 1, depth - 1);
      NotBelowItself(components, id, ids, d, depth - 1);
      OneMore(id, VisitsAll(components, ids, depth - 1));
    }
  }

  lemma {:induction false} VisitsAllOnce(components: seq<S.Component>, ids: seq<string>, d: nat, depth: nat)
    requires NoRepeat(Refs(components)) && Parent(components, ROOT).None? && NoRepeat(ids)
    requires forall k :: 0 <= k < |ids| ==> Level(components, ids[k], d)
    ensures NoRepeat(VisitsAll(components, ids, depth))
    decreases depth, 1, ids
  {
    if ids != [] {
      var a, b := Visits(components, ids[0], depth), VisitsAll(components, ids[1..], depth);
      assert ids == [ids[0]] + ids[1..];
      RepeatAppend([ids[0]], ids[1..]);
      VisitsOnce(components, ids[0], d, depth);
      VisitsAllOnce(components, ids[1..], d, depth);
      forall y | y in b ensures y !in a {
        if y in a {
          var k := VisitedIsBelow(components, ids[0], depth, y);
          var l, sibling := VisitedBelowOne(components, ids[1..], depth, y);
          UpTwice(components, y, k, d);
          UpTwice(components, y, l, d);
          LevelIsUnique(components, y, k + d, l + d);
          assert false;
        }
      }
      RepeatAppend(a, b);
    }
  }

  lemma {:induction false} ChildrenOnce(components: seq<S.Component>, c: S.Component)
    requires NoRepeat(Refs(components)) && c in components
    ensures NoRepeat(ChildIds(c.body))
    decreases |components|
  {
    var n := |components| - 1;
    RepeatAppend(Refs(components[..n]), ChildIds(components[n].body));
    if c != components[n] {
      ChildrenOnce(components[..n], c);
    }
  }

  // ----- the recursion ends -----

  function OwnIds(components: seq<S.Component>): set<string> {
    set i | 0 <= i < |components| :: components[i].id
  }

  lemma {:induction false} OwnIdsSize(components: seq<S.Component>)
    ensures |OwnIds(components)| <= |components|
    decreases |components|
  {
    if components != [] {
      var n := |components| - 1;
      OwnIdsSize(components[..n]);
      assert OwnIds(components) == OwnIds(components[..n]) + {components[n].id};
    }
  }

  /** The components from one up to the root: as many as its level and one. */
  lemma {:induction false} ChainToRoot(components: seq<S.Component>, id: string, d: nat) returns (chain: set<string>)
    requires Parent(components, ROOT).None? && Level(components, id, d) && id in OwnIds(components)
    ensures |chain| == d + 1 && chain <= OwnIds(components)
    ensures forall x :: x in chain ==> exists e: nat :: e <= d && Level(components, x, e)
    decreases d
  {
    if d == 0 {
      chain := {id};
    } else {
      var parent := Parent(components, id).value;
      var i := ParentNames(components, id);
      assert parent in OwnIds(components);
      var above := ChainToRoot(components, parent, d - 1);
      if id in above {
        var e: nat :| e <= d - 1 && Level(components, id, e);
        LevelIsUnique(components, id, d, e);
      }
      chain := above + {id};
    }
  }

  lemma LevelBound(components: seq<S.Component>, id: string, d: nat)
    requires Parent(components, ROOT).None? && Level(components, id, d) && id in OwnIds(components)
    ensures d < |components|
  {
    var chain := ChainToRoot(components, id, d);
    OwnIdsSize(components);
    SubsetSize(chain, OwnIds(components));
  }

  lemma {:induction false} SubsetSize<T>(a: set<T>, b: set<T>)
    requires a <= b
    ensures |a| <= |b|
  {
    if a != {} {
      var x :| x in a;
      SubsetSize(a - {x}, b - {x});
    }
  }

  predicate Resolved(components: seq<S.Component>) {
    forall i :: 0 <= i < |components| ==>
      && components[i].body != S.Layout(S.Template)
      && forall k :: 0 <= k < |ChildIds(components[i].body)| ==>
           S.ById(components, ChildIds(components[i].body)[k]).Some?
  }

  /** A component renders once its children do. */
  lemma RenderStep(components: seq<S.Component>, id: string, depth: nat)
    requires depth > 0 && S.ById(components, id).Some?
    requires S.ById(components, id).value.body != S.Layout(S.Template)
    requires RenderAll(components, ChildIds(S.ById(components, id).value.body), depth - 1).Some?
    ensures Render(components, id, depth).Some?
  {
    match S.ById(components, id).value.body
    case Layout(Ids(_)) =>
    case Card(child) => OneRendered(components, child, depth - 1);
    case Button(child, _, _) => OneRendered(components, child, depth - 1);
    case _ =>
  }

  lemma OneRendered(components: seq<S.Component>, id: string, depth: nat)
    requires RenderAll(components, [id], depth).Some?
    ensures Render(components, id, depth).Some?
  {
  }

  lemma ChildrenResolved(components: seq<S.Component>, id: string)
    requires Resolved(components) && S.ById(components, id).Some?
    ensures var body := S.ById(components, id).value.body;
            && body != S.Layout(S.Template)
            && forall k :: 0 <= k < |ChildIds(body)| ==> S.ById(components, ChildIds(body)[k]).Some?
  {
    var i :| 0 <= i < |components| && components[i] == S.ById(components, id).value;
  }

  lemma KnownId(components: seq<S.Component>, id: string)
    requires S.ById(components, id).Some?
    ensures id in OwnIds(components)
  {
    var i :| 0 <= i < |components| && components[i] == S.ById(components, id).value;
  }

  /** No shared reference, none dangling, none to the root. */
  predicate Treelike(components: seq<S.Component>) {
    NoRepeat(Refs(components)) && Parent(components, ROOT).None? && Resolved(components)
  }

  /** A component below the root is within reach, and so are its children. */
  lemma ChildrenReady(components: seq<S.Component>, id: string, d: nat)
    requires Treelike(components) && Level(components, id, d) && S.ById(components, id).Some?
    ensures d < |components| && S.ById(components, id).value.body != S.Layout(S.Template)
    ensures var ids := ChildIds(S.ById(components, id).value.body);
            forall k :: 0 <= k < |ids| ==> Level(components, ids[k], d + 1) && S.ById(components, ids[k]).Some?
  {
    KnownId(components, id);
    LevelBound(components, id, d);
    ChildrenLevel(components, id, d);
    ChildrenResolved(components, id);
  }

  lemma {:induction false} RenderEnds(components: seq<S.Component>, id: string, d: nat, depth: nat)
    requires Treelike(components)
    requires Level(components, id, d) && S.ById(components, id).Some? && depth + d >= |components|
    ensures Render(components, id, depth).Some?
    decreases depth, 0
  {
    ChildrenReady(components, id, d);
    var ids := ChildIds(S.ById(components, id).value.body);
    RenderAllEnds(components, ids, d + 1, depth - 1);
    RenderStep(components, id, depth);
  }

  lemma {:induction false} RenderAllEnds(components: seq<S.Component>, ids: seq<string>, d: nat, depth: nat)
    requires Treelike(components) && depth + d >= |components|
    requires forall k :: 0 <= k < |ids| ==> Level(components, ids[k], d) && S.ById(components, ids[k]).Some?
    ensures RenderAll(components, ids, depth).Some?
    decreases depth, 1, ids
  {
    if ids != [] {
      RenderEnds(components, ids[0], d, depth);
      RenderAllEnds(components, ids[1..], d, depth);
    }
  }

  /** More depth changes no text that was reached. */
  lemma {:induction false} RenderDeeper(components: seq<S.Component>, id: string, depth: nat)
    requires Render(components, id, depth).Some?
    ensures Render(components, id, depth + 1) == Render(components, id, depth)
    decreases depth, 0
  {
    match S.ById(components, id).value.body
    case Layout(Ids(ids)) => RenderAllDeeper(components, ids, depth - 1);
    case Card(child) => RenderDeeper(components, child, depth - 1);
    case Button(child, _, _) => RenderDeeper(components, child, depth - 1);
    case _ =>
  }

  lemma {:induction false} RenderAllDeeper(components: seq<S.Component>, ids: seq<string>, depth: nat)
    requires RenderAll(components, ids, depth).Some?
    ensures RenderAll(components, ids, depth + 1) == RenderAll(components, ids, depth)
    decreases depth, 1, ids
  {
    if ids != [] {
      RenderDeeper(components, ids[0], depth);
      RenderAllDeeper(components, ids[1..], depth);
    }
  }

  // ----- the text is linear in the components' own text -----

  /** The characters a component adds to its children's text. */
  function OwnLength(body: S.Body): nat {
    match body
    case Text(text) => |Literal(text)|
    case Button(_, OpenUrl(url), _) => |url| + 3
    case Notice(title, text) => if title.Some? && title.value != "" then |title.value| + 2 + |text| else |text|
    case Input(_, caption, _, _) => if caption.Some? then |Literal(caption.value)| else 0
    case Leaf(own) => |own|
    case _ => 0
  }

  function Own(components: seq<S.Component>, id: string): nat {
    var c := S.ById(components, id);
    if c.Some? then OwnLength(c.value.body) else 0
  }

  function Weight(components: seq<S.Component>, ids: seq<string>): nat {
    if ids == [] then 0 else Own(components, ids[0]) + 1 + Weight(components, ids[1..])
  }

  lemma {:induction false} WeightAppend(components: seq<S.Component>, a: seq<string>, b: seq<string>)
    ensures Weight(components, a + b) == Weight(components, a) + Weight(components, b)
    decreases a
  {
    if a == [] {
      assert a + b == b;
    } else {
      assert (a + b)[1..] == a[1..] + b;
      WeightAppend(components, a[1..], b);
    }
  }

  function Sum(parts: seq<string>): nat {
    if parts == [] then 0 else |parts[0]| + 1 + Sum(parts[1..])
  }

  lemma {:induction false} LinesLength(parts: seq<string>)
    ensures |Lines(parts)| <= Sum(parts)
    ensures NonEmpty(parts) != [] ==> |Lines(parts)| < Sum(parts)
  {
    if parts != [] {
      LinesLength(parts[1..]);
      var rest := NonEmpty(parts[1..]);
      if parts[0] == "" {
        assert NonEmpty(parts) == rest;
      } else {
        assert NonEmpty(parts) == [parts[0]] + rest;
        assert NonEmpty(parts)[1..] == rest;
        if rest == [] {
          assert Join(NonEmpty(parts), "\n") == parts[0];
        } else {
          assert Join(NonEmpty(parts), "\n") == parts[0] + "\n" + Join(rest, "\n");
        }
      }
    }
  }

  lemma {:induction false} RenderLength(components: seq<S.Component>, id: string, depth: nat)
    requires Render(components, id, depth).Some?
    ensures |Render(components, id, depth).value| + 1 <= Weight(components, Visits(components, id, depth))
    decreases depth, 0
  {
    var c := S.ById(components, id).value;
    var ids := ChildIds(c.body);
    var below := VisitsAll(components, ids, depth - 1);
    assert ([id] + below)[1..] == below;
    match c.body
    case Layout(Ids(_)) =>
      RenderAllLength(components, ids, depth - 1);
      LinesLength(RenderAll(components, ids, depth - 1).value);
    case Card(child) => OneChild(components, child, depth - 1);
    case Button(child, _, _) => OneChild(components, child, depth - 1);
    case _ =>
  }

  lemma {:induction false} OneChild(components: seq<S.Component>, child: string, depth: nat)
    requires Render(components, child, depth).Some?
    ensures |Render(components, child, depth).value| + 1 <= Weight(components, VisitsAll(components, [child], depth))
    decreases depth, 1
  {
    RenderLength(components, child, depth);
    assert [child][1..] == [];
    assert VisitsAll(components, [child], depth) == Visits(components, child, depth) + [];
    assert Visits(components, child, depth) + [] == Visits(components, child, depth);
  }

  lemma {:induction false} RenderAllLength(components: seq<S.Component>, ids: seq<string>, depth: nat)
    requires RenderAll(components, ids, depth).Some?
    ensures Sum(RenderAll(components, ids, depth).value) <= Weight(components, VisitsAll(components, ids, depth))
    decreases depth, 1, ids
  {
    if ids != [] {
      RenderLength(components, ids[0], depth);
      RenderAllLength(components, ids[1..], depth);
      WeightAppend(components, Visits(components, ids[0], depth), VisitsAll(components, ids[1..], depth));
      var rest := RenderAll(components, ids[1..], depth).value;
      assert ([Render(components, ids[0], depth).value] + rest)[1..] == rest;
    }
  }

  /** The ids of the first `n` components. */
  function IdsOf(components: seq<S.Component>): (r: seq<string>)
    ensures |r| == |components| && forall i :: 0 <= i < |r| ==> r[i] == components[i].id
  {
    seq(|components|, i requires 0 <= i < |components| => components[i].id)
  }

  /** Distinct ids weigh no more than any list that holds them all. */
  lemma {:induction false} WeightOfPart(components: seq<S.Component>, part: seq<string>, whole: seq<string>)
    requires NoRepeat(part) && forall x :: x in part ==> x in whole
    ensures Weight(components, part) <= Weight(components, whole)
    decreases part
  {
    if part != [] {
      var x, rest := part[0], part[1..];
      assert part == [x] + rest;
      RepeatAppend([x], rest);
      assert x in part;
      var i :| 0 <= i < |whole| && whole[i] == x;
      var before, after := whole[..i], whole[i + 1..];
      assert whole == before + ([x] + after);
      WeightAppend(components, before, [x] + after);
      WeightAppend(components, [x], after);
      WeightAppend(components, before, after);
      forall y | y in rest ensures y in before + after {
        assert y in whole && y != x;
      }
      assert [x][1..] == [];
      WeightOfPart(components, rest, before + after);
    }
  }

  lemma {:induction false} VisitedExists(components: seq<S.Component>, id: string, depth: nat, y: string)
    requires y in Visits(components, id, depth)
    ensures y in IdsOf(components)
    decreases depth, 0
  {
    var c := S.ById(components, id).value;
    if y == id {
      var i :| 0 <= i < |components| && components[i] == c;
      assert IdsOf(components)[i] == y;
    } else {
      VisitedAllExist(components, ChildIds(c.body), depth - 1, y);
    }
  }

  lemma {:induction false} VisitedAllExist(components: seq<S.Component>, ids: seq<string>, depth: nat, y: string)
    requires y in VisitsAll(components, ids, depth)
    ensures y in IdsOf(components)
    decreases depth, 1, ids
  {
    if y in Visits(components, ids[0], depth) {
      VisitedExists(components, ids[0], depth, y);
    } else {
      VisitedAllExist(components, ids[1..], depth, y);
    }
  }

  /** The own text of all components, and a separator each. */
  function TotalOwn(components: seq<S.Component>): nat {
    if components == [] then 0
    else TotalOwn(components[..|components| - 1]) + OwnLength(components[|components| - 1].body) + 1
  }

  lemma {:induction false} WeightOfAll(components: seq<S.Component>, n: nat)
    requires S.UniqueIds(components) && n <= |components|
    ensures Weight(components, IdsOf(components[..n])) == TotalOwn(components[..n])
  {
    if n > 0 {
      WeightOfAll(components, n - 1);
      var c := components[n - 1];
      assert components[..n][..n - 1] == components[..n - 1];
      assert IdsOf(components[..n]) == IdsOf(components[..n - 1]) + [c.id];
      WeightAppend(components, IdsOf(components[..n - 1]), [c.id]);
      assert [c.id][1..] == [];
      ByOwnId(components, n - 1);
    }
  }

  lemma ByOwnId(components: seq<S.Component>, i: nat)
    requires S.UniqueIds(components) && i < |components|
    ensures S.ById(components, components[i].id) == Some(components[i])
  {
    var c := S.ById(components, components[i].id).value;
    var j :| 0 <= j < |components| && components[j] == c;
    assert j < i ==> components[j].id != components[i].id;
    assert i < j ==> components[i].id != components[j].id;
  }

  /** Over a validated surface whose root has no parent the text exists, no deeper than the number of
      components, visits each component at most once, and is shorter than all the components' own text
      with a separator each. */
  lemma FallbackIsLinear(components: seq<S.Component>)
    requires Rooted(components)
    ensures Render(components, ROOT, |components|).Some?
    ensures NoRepeat(Visits(components, ROOT, |components|))
    ensures |Render(components, ROOT, |components|).value| < TotalOwn(components)
  {
    RootHasNoParent(components);
    var depth := |components|;
    assert Level(components, ROOT, 0);
    RenderEnds(components, ROOT, 0, depth);
    VisitsOnce(components, ROOT, 0, depth);
    RenderLength(components, ROOT, depth);
    forall y | y in Visits(components, ROOT, depth) ensures y in IdsOf(components) {
      VisitedExists(components, ROOT, depth, y);
    }
    WeightOfPart(components, Visits(components, ROOT, depth), IdsOf(components));
    assert components[..|components|] == components;
    WeightOfAll(components, |components|);
  }

  lemma {:induction false} FallbackAtAnyDepth(components: seq<S.Component>, depth: nat)
    requires Rooted(components) && depth >= |components|
    ensures Render(components, ROOT, depth) == Render(components, ROOT, |components|)
    ensures Render(components, ROOT, depth).Some?
    decreases depth
  {
    FallbackIsLinear(components);
    if depth > |components| {
      FallbackAtAnyDepth(components, depth - 1);
      RenderDeeper(components, ROOT, depth - 1);
    }
  }

  // ----- what a shared child would cost -----

  function Rung(i: nat): string { if i == 0 then ROOT else NatText(i) }

  /** Each rung names the next one twice; the last is a one-letter text. */
  function Ladder(n: nat): seq<S.Component> {
    seq(n + 1, i requires 0 <= i <= n =>
      S.Component(Rung(i), if i == n then S.Text(Str("x")) else S.Layout(S.Ids([Rung(i + 1), Rung(i + 1)]))))
  }

  function Pow2(n: nat): nat { if n == 0 then 1 else 2 * Pow2(n - 1) }

  lemma RungsDiffer(i: nat, j: nat)
    requires i != j
    ensures Rung(i) != Rung(j)
  {
    if i == 0 || j == 0 {
      var k := i + j;
      assert !IsDigit(ROOT[0]);
      assert IsDigit(NatText(k)[0]);
    } else {
      NatTextReadsBack(i);
      NatTextReadsBack(j);
    }
  }

  lemma LadderLookup(n: nat, i: nat)
    requires i <= n
    ensures S.ById(Ladder(n), Rung(i)) == Some(Ladder(n)[i])
  {
    var components := Ladder(n);
    forall a, b | 0 <= a < b < |components| ensures components[a].id != components[b].id {
      RungsDiffer(a, b);
    }
    ByOwnId(components, i);
  }

  lemma SharedTwice(components: seq<S.Component>, id: string, child: string, depth: nat)
    requires S.ById(components, id) == Some(S.Component(id, S.Layout(S.Ids([child, child]))))
    requires Render(components, child, depth).Some?
    ensures var text := Render(components, child, depth).value;
            Render(components, id, depth + 1) == Some(Lines([text, text]))
  {
    TwoChildren(components, child, depth);
  }

  lemma LadderRung(n: nat, i: nat)
    requires i < n
    ensures S.ById(Ladder(n), Rung(i)) == Some(S.Component(Rung(i), S.Layout(S.Ids([Rung(i + 1), Rung(i + 1)]))))
  {
    LadderLookup(n, i);
  }

  lemma LadderEnd(n: nat)
    ensures Render(Ladder(n), Rung(n), 1) == Some("x")
  {
    LadderLookup(n, n);
  }

  /** Each rung names the next one twice, and the last one is a text. */
  predicate IsLadder(components: seq<S.Component>, n: nat) {
    && Render(components, Rung(n), 1) == Some("x")
    && forall i :: 0 <= i < n ==>
         S.ById(components, Rung(i)) == Some(S.Component(Rung(i), S.Layout(S.Ids([Rung(i + 1), Rung(i + 1)]))))
  }

  lemma LadderIsLadder(n: nat)
    ensures IsLadder(Ladder(n), n)
  {
    LadderEnd(n);
    forall i | 0 <= i < n
      ensures S.ById(Ladder(n), Rung(i)) == Some(S.Component(Rung(i), S.Layout(S.Ids([Rung(i + 1), Rung(i + 1)]))))
    {
      LadderRung(n, i);
    }
  }

  lemma RungText(components: seq<S.Component>, n: nat, i: nat, depth: nat)
    requires IsLadder(components, n) && i < n && Render(components, Rung(i + 1), depth).Some?
    requires Render(components, Rung(i + 1), depth).value != ""
    ensures Render(components, Rung(i), depth + 1).Some?
    ensures |Render(components, Rung(i), depth + 1).value| == 2 * |Render(components, Rung(i + 1), depth).value| + 1
  {
    SharedTwice(components, Rung(i), Rung(i + 1), depth);
    TwoLines(Render(components, Rung(i + 1), depth).value);
  }

  /** A component at height h above the last rung. */
  lemma {:induction false} LadderText(n: nat, components: seq<S.Component>, h: nat)
    requires h <= n && IsLadder(components, n)
    ensures Render(components, Rung(n - h), h + 1).Some?
    ensures |Render(components, Rung(n - h), h + 1).value| >= Pow2(h) > 0
    decreases h
  {
    if h > 0 {
      LadderText(n, components, h - 1);
      RungText(components, n, n - h, h);
    }
  }

  lemma TwoChildren(components: seq<S.Component>, id: string, depth: nat)
    requires Render(components, id, depth).Some?
    ensures var text := Render(components, id, depth).value;
            RenderAll(components, [id, id], depth) == Some([text, text])
  {
    var text := Render(components, id, depth).value;
    assert [id, id][1..] == [id];
    assert RenderAll(components, [id], depth) == Some([text]) by {
      assert [id][1..] == [];
      assert RenderAll(components, [id][1..], depth) == Some([]);
      assert [text] + [] == [text];
    }
    assert [text] + [text] == [text, text];
  }

  lemma TwoLines(text: string)
    requires text != ""
    ensures |Lines([text, text])| == 2 * |text| + 1
  {
    assert [text, text][1..] == [text] && [text][1..] == [];
    assert NonEmpty([text]) == [text];
    assert NonEmpty([text, text]) == [text, text];
    assert Join([text, text], "\n") == text + "\n" + text;
  }

  /** With shared children n + 1 small components expand to 2^n characters: the rule that a component
      has one parent is what keeps the text short. */
  lemma SharingIsExponential(n: nat)
    ensures |Ladder(n)| == n + 1 && TotalOwn(Ladder(n)) == n + 2
    ensures Render(Ladder(n), ROOT, n + 1).Some? && |Render(Ladder(n), ROOT, n + 1).value| >= Pow2(n)
  {
    LadderIsLadder(n);
    LadderText(n, Ladder(n), n);
    LadderOwn(n, n);
    assert Ladder(n)[..n + 1] == Ladder(n);
    assert Ladder(n)[..n + 1][..n] == Ladder(n)[..n];
  }

  lemma {:induction false} LadderOwn(n: nat, k: nat)
    requires k <= n
    ensures TotalOwn(Ladder(n)[..k]) == k
  {
    if k > 0 {
      LadderOwn(n, k - 1);
      assert Ladder(n)[..k][..k - 1] == Ladder(n)[..k - 1];
    }
  }
}
