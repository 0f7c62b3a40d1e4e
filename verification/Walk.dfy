/** The enumeration of a JSON value's nodes with their pointers. */
module Walk {
  import opened Options
  import opened Text
  import opened Json
  import opened Pointer

  type Node = (string, Json)

  /** Every node of `value` with its path, in preorder. */
  function Nodes(value: Json, path: string): seq<Node> {
    [(path, value)] +
    match value
    case Obj(fs) => FieldNodes(fs, path)
    case Arr(items) => ItemNodes(items, path, 0)
    case _ => []
  }

  function FieldNodes(fs: seq<Field>, path: string): seq<Node> {
    if fs == [] then []
    else Nodes(fs[0].value, path + "/" + Escape(fs[0].key)) + FieldNodes(fs[1..], path)
  }

  function ItemNodes(items: seq<Json>, path: string, index: nat): seq<Node> {
    if items == [] then []
    else Nodes(items[0], path + "/" + NatText(index)) + ItemNodes(items[1..], path, index + 1)
  }

  /** The node at a position; None where there is none. A stored null is a node. */
  function At(value: Json, tokens: Tokens): Option<Json>
    decreases tokens
  {
    if tokens == [] then Some(value)
    else
      match value
      case Obj(fs) =>
        var found := Find(fs, tokens[0]);
        if found.Some? then At(found.value, tokens[1..]) else None
      case Arr(items) =>
        var i := Index(tokens[0], |items|);
        if i.Some? then At(items[i.value], tokens[1..]) else None
      case _ => None
  }

  lemma {:induction false} AtIsRead(value: Json, tokens: Tokens)
    requires At(value, tokens).Some?
    ensures Follow(value, tokens) == At(value, tokens).value
    decreases tokens
  {
    if tokens != [] {
      AtIsRead(Step(value, tokens[0]), tokens[1..]);
    }
  }

  /** `node` is what `value` holds at `tokens`, under the path that names them from `base`. */
  predicate Names(value: Json, base: string, node: Node, tokens: Tokens) {
    node.0 == base + PointerOf(tokens) && At(value, tokens) == Some(node.1)
  }

  ghost predicate Named(value: Json, base: string, node: Node) {
    exists tokens :: Names(value, base, node, tokens)
  }

  lemma {:induction false} IndexNeedsNoEscape(s: string)
    requires AllDigits(s)
    ensures Escape(s) == s
  {
    if s != "" {
      EscapeSplits(s);
      IndexNeedsNoEscape(s[1..]);
      assert s == [s[0]] + s[1..];
    }
  }

  lemma ChildPath(base: string, key: string, tokens: Tokens)
    ensures base + "/" + Escape(key) + PointerOf(tokens) == base + PointerOf([key] + tokens)
  {
    assert ([key] + tokens)[1..] == tokens;
    assert PointerOf([key] + tokens) == "/" + Escape(key) + PointerOf(tokens);
  }

  /** A node of a child is a node of its parent, one token further. */
  lemma LiftName(parent: Json, child: Json, key: string, base: string, node: Node, tokens: Tokens)
    requires Names(child, base + "/" + Escape(key), node, tokens)
    requires At(parent, [key] + tokens) == At(child, tokens)
    ensures Names(parent, base, node, [key] + tokens)
  {
    ChildPath(base, key, tokens);
  }

  lemma {:induction false} FindAt(fs: seq<Field>, i: nat)
    requires i < |fs| && Distinct(fs)
    ensures Find(fs, fs[i].key) == Some(fs[i].value)
  {
    if i > 0 {
      FindAt(fs[1..], i - 1);
    }
  }

  /** The i-th item under the token that writes i. */
  lemma ItemAt(items: seq<Json>, i: nat, tokens: Tokens)
    requires i < |items|
    ensures At(Arr(items), [NatText(i)] + tokens) == At(items[i], tokens)
  {
    NatTextReadsBack(i);
    assert ([NatText(i)] + tokens)[1..] == tokens;
  }

  // ----- every enumerated node is a position of the value -----

  lemma {:induction false} NodesAreNamed(value: Json, base: string, node: Node)
    requires WellFormed(value) && node in Nodes(value, base)
    ensures Named(value, base, node)
    decreases value, 0
  {
    if node == (base, value) {
      assert base == base + PointerOf([]);
      assert Names(value, base, node, []);
    } else {
      match value
      case Obj(fs) =>
        var i, tokens := FieldNodesAreNamed(value, fs, 0, base, node);
        FindAt(fs, i);
        assert ([fs[i].key] + tokens)[1..] == tokens;
        LiftName(value, fs[i].value, fs[i].key, base, node, tokens);
      case Arr(items) =>
        var i, tokens := ItemNodesAreNamed(value, items, 0, base, node);
        ItemAt(items, i, tokens);
        NatTextReadsBack(i);
        IndexNeedsNoEscape(NatText(i));
        LiftName(value, items[i], NatText(i), base, node, tokens);
    }
  }

  lemma {:induction false} FieldNodesAreNamed(value: Json, fs: seq<Field>, from: nat, base: string, node: Node)
    returns (i: nat, tokens: Tokens)
    requires value == Obj(fs) && WellFormed(value) && from <= |fs|
    requires node in FieldNodes(fs[from..], base)
    ensures from <= i < |fs| && Names(fs[i].value, base + "/" + Escape(fs[i].key), node, tokens)
    decreases value, 0, |fs| - from
  {
    assert fs[from..][1..] == fs[from + 1..];
    if node in Nodes(fs[from].value, base + "/" + Escape(fs[from].key)) {
      NodesAreNamed(fs[from].value, base + "/" + Escape(fs[from].key), node);
      i := from;
      tokens :| Names(fs[i].value, base + "/" + Escape(fs[i].key), node, tokens);
    } else {
      i, tokens := FieldNodesAreNamed(value, fs, from + 1, base, node);
    }
  }

  lemma {:induction false} ItemNodesAreNamed(value: Json, items: seq<Json>, from: nat, base: string, node: Node)
    returns (i: nat, tokens: Tokens)
    requires value == Arr(items) && WellFormed(value) && from <= |items|
    requires node in ItemNodes(items[from..], base, from)
    ensures from <= i < |items| && Names(items[i], base + "/" + NatText(i), node, tokens)
    decreases value, 0, |items| - from
  {
    assert items[from..][1..] == items[from + 1..];
    if node in Nodes(items[from], base + "/" + NatText(from)) {
      NodesAreNamed(items[from], base + "/" + NatText(from), node);
      i := from;
      tokens :| Names(items[i], base + "/" + NatText(i), node, tokens);
    } else {
      i, tokens := ItemNodesAreNamed(value, items, from + 1, base, node);
    }
  }

  // ----- every position of the value is enumerated -----

  lemma {:induction false} PositionsAreWalked(value: Json, base: string, tokens: Tokens)
    requires At(value, tokens).Some?
    ensures (base + PointerOf(tokens), At(value, tokens).value) in Nodes(value, base)
    decreases tokens
  {
    if tokens == [] {
      assert base + PointerOf([]) == base;
    } else {
      var key, rest := tokens[0], tokens[1..];
      assert tokens == [key] + rest;
      var node := (base + PointerOf(tokens), At(value, tokens).value);
      ChildPath(base, key, rest);
      match value
      case Obj(fs) =>
        var child := Find(fs, key).value;
        PositionsAreWalked(child, base + "/" + Escape(key), rest);
        FieldNodesInclude(fs, key, base, node);
      case Arr(items) =>
        var i := Index(key, |items|).value;
        NatTextReadsBack(i);
        IndexInjective(key, NatText(i));
        IndexNeedsNoEscape(key);
        PositionsAreWalked(items[i], base + "/" + key, rest);
        ItemNodesInclude(items, 0, i, base, node);
    }
  }

  lemma {:induction false} FieldNodesInclude(fs: seq<Field>, key: string, base: string, node: Node)
    requires Find(fs, key).Some? && node in Nodes(Find(fs, key).value, base + "/" + Escape(key))
    ensures node in FieldNodes(fs, base)
  {
    if fs[0].key != key {
      FieldNodesInclude(fs[1..], key, base, node);
    }
  }

  lemma {:induction false} ItemNodesInclude(items: seq<Json>, from: nat, i: nat, base: string, node: Node)
    requires i < |items| && node in Nodes(items[i], base + "/" + NatText(from + i))
    ensures node in ItemNodes(items, base, from)
    decreases i
  {
    if i > 0 {
      ItemNodesInclude(items[1..], from + 1, i - 1, base, node);
    }
  }

  // ----- no position is enumerated twice -----

  predicate OncePerPath(nodes: seq<Node>) {
    forall i, j :: 0 <= i < j < |nodes| ==> nodes[i].0 != nodes[j].0
  }

  lemma OnceAppend(a: seq<Node>, b: seq<Node>)
    requires OncePerPath(a) && OncePerPath(b)
    requires forall x, y :: x in a && y in b ==> x.0 != y.0
    ensures OncePerPath(a + b)
  {
    var c := a + b;
    forall i, j | 0 <= i < j < |c| ensures c[i].0 != c[j].0 {
      if i < |a| <= j {
        assert a[i] in a && b[j - |a|] in b;
      }
    }
  }

  /** Nodes of children under different keys have different paths. */
  lemma SiblingsApart(base: string, key: string, tokens: Tokens, key': string, tokens': Tokens)
    requires base + "/" + Escape(key) + PointerOf(tokens) == base + "/" + Escape(key') + PointerOf(tokens')
    ensures key == key'
  {
    ChildPath(base, key, tokens);
    ChildPath(base, key', tokens');
    var p, q := PointerOf([key] + tokens), PointerOf([key'] + tokens');
    assert (base + p)[|base|..] == p && (base + q)[|base|..] == q;
    PointerInjective([key] + tokens, [key'] + tokens');
    assert ([key] + tokens)[0] == ([key'] + tokens')[0];
  }

  lemma {:induction false} NodesOnce(value: Json, base: string)
    requires WellFormed(value)
    ensures OncePerPath(Nodes(value, base))
    decreases value, 0
  {
    match value
    case Obj(fs) =>
      FieldNodesOnce(value, fs, 0, base);
      forall y | y in FieldNodes(fs, base) ensures base != y.0 {
        assert fs[0..] == fs;
        var i, tokens := FieldNodesAreNamed(value, fs, 0, base, y);
        assert |y.0| > |base|;
      }
      OnceAppend([(base, value)], FieldNodes(fs, base));
    case Arr(items) =>
      ItemNodesOnce(value, items, 0, base);
      forall y | y in ItemNodes(items, base, 0) ensures base != y.0 {
        assert items[0..] == items;
        var i, tokens := ItemNodesAreNamed(value, items, 0, base, y);
        assert |y.0| > |base|;
      }
      OnceAppend([(base, value)], ItemNodes(items, base, 0));
    case _ =>
  }

  lemma {:induction false} FieldNodesOnce(value: Json, fs: seq<Field>, from: nat, base: string)
    requires value == Obj(fs) && WellFormed(value) && from <= |fs|
    ensures OncePerPath(FieldNodes(fs[from..], base))
    decreases value, 0, |fs| - from
  {
    if from < |fs| {
      var key, child := fs[from].key, fs[from].value;
      var path := base + "/" + Escape(key);
      assert fs[from..][1..] == fs[from + 1..];
      NodesOnce(child, path);
      FieldNodesOnce(value, fs, from + 1, base);
      forall x, y | x in Nodes(child, path) && y in FieldNodes(fs[from + 1..], base) ensures x.0 != y.0 {
        NodesAreNamed(child, path, x);
        var t :| Names(child, path, x, t);
        var i, u := FieldNodesAreNamed(value, fs, from + 1, base, y);
        if x.0 == y.0 {
          SiblingsApart(base, key, t, fs[i].key, u);
        }
      }
      OnceAppend(Nodes(child, path), FieldNodes(fs[from + 1..], base));
    }
  }

  lemma {:induction false} ItemNodesOnce(value: Json, items: seq<Json>, from: nat, base: string)
    requires value == Arr(items) && WellFormed(value) && from <= |items|
    ensures OncePerPath(ItemNodes(items[from..], base, from))
    decreases value, 0, |items| - from
  {
    if from < |items| {
      var path := base + "/" + NatText(from);
      assert items[from..][1..] == items[from + 1..];
      NodesOnce(items[from], path);
      ItemNodesOnce(value, items, from + 1, base);
      forall x, y | x in Nodes(items[from], path) && y in ItemNodes(items[from + 1..], base, from + 1)
        ensures x.0 != y.0
      {
        NodesAreNamed(items[from], path, x);
        var t :| Names(items[from], path, x, t);
        var i, u := ItemNodesAreNamed(value, items, from + 1, base, y);
        NatTextReadsBack(from);
        NatTextReadsBack(i);
        IndexNeedsNoEscape(NatText(from));
        IndexNeedsNoEscape(NatText(i));
        if x.0 == y.0 {
          SiblingsApart(base, NatText(from), t, NatText(i), u);
          assert false;
        }
      }
      OnceAppend(Nodes(items[from], path), ItemNodes(items[from + 1..], base, from + 1));
    }
  }

  // ----- the walk is exact -----

  /** Reading the path of a walked node finds that node. */
  lemma WalkedIsRead(value: Json, node: Node)
    requires WellFormed(value) && node in Nodes(value, "")
    ensures Read(value, node.0) == node.1
  {
    NodesAreNamed(value, "", node);
    var tokens :| Names(value, "", node, tokens);
    assert "" + PointerOf(tokens) == PointerOf(tokens);
    TokensOfPointer(tokens);
    AtIsRead(value, tokens);
  }

  /** Each position of the value is enumerated exactly once, under its own pointer. */
  lemma WalkIsExact(value: Json, tokens: Tokens)
    requires WellFormed(value) && At(value, tokens).Some?
    ensures exists i :: 0 <= i < |Nodes(value, "")| && Nodes(value, "")[i] == (PointerOf(tokens), At(value, tokens).value)
    ensures forall i, j |
              && 0 <= i < |Nodes(value, "")| && 0 <= j < |Nodes(value, "")|
              && Nodes(value, "")[i].0 == PointerOf(tokens) == Nodes(value, "")[j].0
              :: i == j
  {
    PositionsAreWalked(value, "", tokens);
    assert "" + PointerOf(tokens) == PointerOf(tokens);
    var nodes := Nodes(value, "");
    NodesOnce(value, "");
  }

  /** What holds of every walked node holds wherever a pointer reads, null for nothing included. */
  lemma ReadIsWalked(value: Json, base: string, path: string)
    ensures Read(value, path) == Null || exists p :: (p, Read(value, path)) in Nodes(value, base)
  {
    var tokens := TokensOf(path);
    if tokens.Some? && Follow(value, tokens.value) != Null {
      ReadIsAt(value, tokens.value);
      PositionsAreWalked(value, base, tokens.value);
      assert (base + PointerOf(tokens.value), Read(value, path)) in Nodes(value, base);
    }
  }

  lemma {:induction false} ReadIsAt(value: Json, tokens: Tokens)
    requires Follow(value, tokens) != Null
    ensures At(value, tokens) == Some(Follow(value, tokens))
    decreases tokens
  {
    if tokens != [] {
      FollowNull(tokens[1..]);
      ReadIsAt(Step(value, tokens[0]), tokens[1..]);
    }
  }
}
