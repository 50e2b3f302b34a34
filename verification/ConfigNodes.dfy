/**
 * The configuration tree in the heap: nodes that hold references to their
 * children, the walk that reads a path, and the walk that edits it in place.
 */
module ConfigNodes {
  import opened Wrappers
  import opened ConfigTree

  class Node {
    var kind: Kind
    var tag: string
    var value: string
    var content: seq<Node>

    constructor (kind: Kind, tag: string, value: string, content: seq<Node>)
      ensures this.kind == kind && this.tag == tag && this.value == value && this.content == content
    {
      this.kind, this.tag, this.value, this.content := kind, tag, value, content;
    }
  }

  /** The references that make up a tree: a node and the shapes of its children. */
  datatype Shape = Shape(node: Node, kids: seq<Shape>)

  ghost function Nodes(s: Shape): set<Node>
    decreases s
  {
    {s.node} + set k, n | 0 <= k < |s.kids| && n in Nodes(s.kids[k]) :: n
  }

  /** No node occurs twice: the tree is unshared. */
  ghost predicate Unshared(s: Shape)
    decreases s
  {
    && (forall k | 0 <= k < |s.kids| :: s.node !in Nodes(s.kids[k]) && Unshared(s.kids[k]))
    && (forall j, k | 0 <= j < k < |s.kids| :: Nodes(s.kids[j]) !! Nodes(s.kids[k]))
  }

  /** The heap, through the references of `s`, holds the tree `t`. */
  ghost predicate Holds(s: Shape, t: Tree)
    reads Nodes(s)
    decreases s
  {
    && s.node.kind == t.kind && s.node.tag == t.tag && s.node.value == t.value
    && |s.node.content| == |s.kids| == |t.content|
    && forall k | 0 <= k < |s.kids| :: s.node.content[k] == s.kids[k].node && Holds(s.kids[k], t.content[k])
  }

  // ---------------------------------------------------------------- positions in a tree

  /** The shape reached from `s` by going down through the children numbered `at`. */
  ghost predicate ValidAt(s: Shape, at: seq<nat>)
    decreases at
  {
    at == [] || (at[0] < |s.kids| && ValidAt(s.kids[at[0]], at[1..]))
  }

  ghost function ShapeAt(s: Shape, at: seq<nat>): (r: Shape)
    requires ValidAt(s, at)
    ensures Nodes(r) <= Nodes(s)
    decreases at
  {
    if at == [] then s else ShapeAt(s.kids[at[0]], at[1..])
  }

  ghost function ShapeWith(s: Shape, at: seq<nat>, sub: Shape): Shape
    requires ValidAt(s, at)
    decreases at
  {
    if at == [] then sub else s.(kids := s.kids[at[0] := ShapeWith(s.kids[at[0]], at[1..], sub)])
  }

  ghost predicate TreeValidAt(t: Tree, at: seq<nat>)
    decreases at
  {
    at == [] || (at[0] < |t.content| && TreeValidAt(t.content[at[0]], at[1..]))
  }

  ghost function TreeAt(t: Tree, at: seq<nat>): Tree
    requires TreeValidAt(t, at)
    decreases at
  {
    if at == [] then t else TreeAt(t.content[at[0]], at[1..])
  }

  ghost function TreeWith(t: Tree, at: seq<nat>, sub: Tree): Tree
    requires TreeValidAt(t, at)
    decreases at
  {
    if at == [] then sub else t.(content := t.content[at[0] := TreeWith(t.content[at[0]], at[1..], sub)])
  }

  /** One step further down. */
  lemma {:induction false} StepDown(s: Shape, at: seq<nat>, k: nat)
    requires ValidAt(s, at) && k < |ShapeAt(s, at).kids|
    ensures ValidAt(s, at + [k]) && ShapeAt(s, at + [k]) == ShapeAt(s, at).kids[k]
    decreases at
  {
    if at == [] {
      assert [k][1..] == [];
    } else {
      assert (at + [k])[1..] == at[1..] + [k];
      StepDown(s.kids[at[0]], at[1..], k);
    }
  }

  lemma {:induction false} TreeStepDown(t: Tree, at: seq<nat>, k: nat, sub: Tree)
    requires TreeValidAt(t, at) && k < |TreeAt(t, at).content|
    ensures TreeValidAt(t, at + [k]) && TreeAt(t, at + [k]) == TreeAt(t, at).content[k]
    ensures var c := TreeAt(t, at);
            TreeWith(t, at + [k], sub) == TreeWith(t, at, c.(content := c.content[k := sub]))
    decreases at
  {
    if at == [] {
      assert [k][1..] == [];
    } else {
      assert (at + [k])[1..] == at[1..] + [k];
      TreeStepDown(t.content[at[0]], at[1..], k, sub);
    }
  }

  /** A later replacement at the same position wins. */
  lemma {:induction false} ReplacedAt(t: Tree, at: seq<nat>, a: Tree, b: Tree)
    requires TreeValidAt(t, at)
    ensures TreeValidAt(TreeWith(t, at, a), at) && TreeAt(TreeWith(t, at, a), at) == a
    ensures TreeWith(TreeWith(t, at, a), at, b) == TreeWith(t, at, b)
    decreases at
  {
    if at != [] { ReplacedAt(t.content[at[0]], at[1..], a, b); }
  }

  lemma {:induction false} ShapeReplacedAt(s: Shape, at: seq<nat>, sub: Shape)
    requires ValidAt(s, at)
    ensures ValidAt(ShapeWith(s, at, sub), at) && ShapeAt(ShapeWith(s, at, sub), at) == sub
    decreases at
  {
    if at != [] { ShapeReplacedAt(s.kids[at[0]], at[1..], sub); }
  }

  // ---------------------------------------------------------------- a tree around a hole

  /** The nodes of `s` outside the subtree at `at`. */
  ghost function Around(s: Shape, at: seq<nat>): set<Node>
    requires ValidAt(s, at)
  {
    Nodes(s) - Nodes(ShapeAt(s, at))
  }

  lemma {:induction false} AroundSplits(s: Shape, at: seq<nat>)
    requires Unshared(s) && ValidAt(s, at) && at != []
    ensures s.node in Around(s, at)
    ensures Around(s.kids[at[0]], at[1..]) <= Around(s, at)
    ensures forall k | 0 <= k < |s.kids| && k != at[0] :: Nodes(s.kids[k]) <= Around(s, at)
  {
    var i := at[0];
    assert Nodes(ShapeAt(s, at)) <= Nodes(s.kids[i]);
    forall k | 0 <= k < |s.kids| && k != i ensures Nodes(s.kids[k]) !! Nodes(s.kids[i]) {
      if k < i { assert Nodes(s.kids[k]) !! Nodes(s.kids[i]); } else { assert Nodes(s.kids[i]) !! Nodes(s.kids[k]); }
    }
  }

  /** The heap holds `t` everywhere but, perhaps, in the subtree at `at`. */
  ghost predicate HoldsAround(s: Shape, t: Tree, at: seq<nat>)
    requires Unshared(s) && ValidAt(s, at)
    reads Around(s, at)
    decreases at
  {
    at == [] ||
    (AroundSplits(s, at);
     && s.node.kind == t.kind && s.node.tag == t.tag && s.node.value == t.value
     && |s.node.content| == |s.kids| == |t.content|
     && (forall k | 0 <= k < |s.kids| :: s.node.content[k] == s.kids[k].node)
     && (forall k | 0 <= k < |s.kids| && k != at[0] :: Holds(s.kids[k], t.content[k]))
     && HoldsAround(s.kids[at[0]], t.content[at[0]], at[1..]))
  }

  lemma {:induction false} TakeApart(s: Shape, t: Tree, at: seq<nat>)
    requires Unshared(s) && ValidAt(s, at) && Holds(s, t)
    ensures HoldsAround(s, t, at)
    decreases at
  {
    if at != [] { TakeApart(s.kids[at[0]], t.content[at[0]], at[1..]); }
  }

  /** A new subtree under the same node, sharing nothing with what is around it. */
  ghost predicate Fits(s: Shape, at: seq<nat>, sub: Shape)
    requires ValidAt(s, at)
  {
    sub.node == ShapeAt(s, at).node && Unshared(sub) && Nodes(sub) !! Around(s, at)
  }

  lemma {:induction false} KidNodes(s: Shape, i: nat, kid: Shape)
    requires Unshared(s) && i < |s.kids| && ValidAt(s, [i])
    ensures Nodes(s.(kids := s.kids[i := kid])) == Around(s, [i]) + Nodes(kid)
    ensures forall k | 0 <= k < |s.kids| && k != i :: Nodes(s.kids[k]) <= Around(s, [i])
    ensures s.node in Around(s, [i])
  {
    assert [i][1..] == [];
    AroundSplits(s, [i]);
    var s' := s.(kids := s.kids[i := kid]);
    forall n | n in Nodes(s') ensures n in Around(s, [i]) + Nodes(kid) {
      if n != s.node {
        var k :| 0 <= k < |s'.kids| && n in Nodes(s'.kids[k]);
        if k != i { assert n in Nodes(s.kids[k]); }
      }
    }
    assert s'.kids[i] == kid;
    forall n | n in Around(s, [i]) && n != s.node ensures n in Nodes(s') {
      var k :| 0 <= k < |s.kids| && n in Nodes(s.kids[k]);
      assert s'.kids[k] == s.kids[k];
    }
  }

  lemma {:induction false} KidReplaced(s: Shape, t: Tree, i: nat, kid: Shape, kidTree: Tree)
    requires Unshared(s) && i < |s.kids| && HoldsAround(s, t, [i])
    requires Holds(kid, kidTree) && Fits(s, [i], kid)
    ensures TreeValidAt(t, [i])
    ensures var s' := s.(kids := s.kids[i := kid]);
            && Holds(s', t.(content := t.content[i := kidTree])) && Unshared(s')
            && Nodes(s') == Around(s, [i]) + Nodes(kid)
  {
    hide Nodes;
    assert [i][1..] == [];
    assert ShapeAt(s, [i]) == s.kids[i];
    KidNodes(s, i, kid);
    var s' := s.(kids := s.kids[i := kid]);
    forall j, k | 0 <= j < k < |s'.kids| ensures Nodes(s'.kids[j]) !! Nodes(s'.kids[k]) {
      if j != i && k != i { assert Nodes(s.kids[j]) !! Nodes(s.kids[k]); }
    }
  }

  /** Filling the hole with a new subtree. */
  lemma {:induction false} PutTogether(s: Shape, t: Tree, at: seq<nat>, sub: Shape, subTree: Tree)
    requires Unshared(s) && ValidAt(s, at) && TreeValidAt(t, at) && HoldsAround(s, t, at)
    requires Fits(s, at, sub) && Holds(sub, subTree)
    ensures Holds(ShapeWith(s, at, sub), TreeWith(t, at, subTree))
    ensures Unshared(ShapeWith(s, at, sub))
    ensures Nodes(ShapeWith(s, at, sub)) == Around(s, at) + Nodes(sub)
    ensures ShapeWith(s, at, sub).node == s.node
    decreases at
  {
    hide Nodes, Holds;
    if at != [] {
      var i := at[0];
      var kid := s.kids[i];
      AroundSplits(s, at);
      AroundDecomposes(s, at);
      PutTogether(kid, t.content[i], at[1..], sub, subTree);
      KidReplaced(s, t, i, ShapeWith(kid, at[1..], sub), TreeWith(t.content[i], at[1..], subTree));
    }
  }

  lemma {:induction false} AroundDecomposes(s: Shape, at: seq<nat>)
    requires Unshared(s) && ValidAt(s, at) && at != []
    ensures ValidAt(s, [at[0]]) && ShapeAt(s, [at[0]]) == s.kids[at[0]]
    ensures Around(s, at) == Around(s, [at[0]]) + Around(s.kids[at[0]], at[1..])
    ensures Around(s, [at[0]]) !! Nodes(s.kids[at[0]])
  {
    assert [at[0]][1..] == [];
    assert Nodes(ShapeAt(s, at)) <= Nodes(s.kids[at[0]]);
  }

  // ---------------------------------------------------------------- building, reading, writing

  /** The nodes of a list of shapes. */
  ghost function NodesOf(ss: seq<Shape>): set<Node> {
    set k, n | 0 <= k < |ss| && n in Nodes(ss[k]) :: n
  }

  ghost predicate Forest(ss: seq<Shape>) {
    && (forall k | 0 <= k < |ss| :: Unshared(ss[k]))
    && (forall j, k | 0 <= j < k < |ss| :: Nodes(ss[j]) !! Nodes(ss[k]))
  }

  ghost predicate HoldsAll(ss: seq<Shape>, content: seq<Node>, ts: seq<Tree>)
    requires |content| == |ss| <= |ts|
    reads NodesOf(ss)
  {
    forall k | 0 <= k < |ss| :: content[k] == ss[k].node && Holds(ss[k], ts[k])
  }

  lemma {:induction false} NodesOfGrows(ss: seq<Shape>, s: Shape)
    ensures NodesOf(ss + [s]) == NodesOf(ss) + Nodes(s)
  {
    var ss' := ss + [s];
    forall n | n in NodesOf(ss') ensures n in NodesOf(ss) + Nodes(s) {
      var k :| 0 <= k < |ss'| && n in Nodes(ss'[k]);
      if k < |ss| { assert n in Nodes(ss[k]); }
    }
    forall n | n in NodesOf(ss) ensures n in NodesOf(ss') {
      var k :| 0 <= k < |ss| && n in Nodes(ss[k]);
      assert n in Nodes(ss'[k]);
    }
    forall n | n in Nodes(s) ensures n in NodesOf(ss') { assert n in Nodes(ss'[|ss|]); }
  }

  lemma {:induction false} ForestGrows(ss: seq<Shape>, s: Shape)
    requires Forest(ss) && Unshared(s) && Nodes(s) !! NodesOf(ss)
    ensures Forest(ss + [s])
  {
    var ss' := ss + [s];
    forall j, k | 0 <= j < k < |ss'| ensures Nodes(ss'[j]) !! Nodes(ss'[k]) {
      if k < |ss| {
        assert Nodes(ss[j]) !! Nodes(ss[k]);
      } else {
        assert Nodes(ss[j]) <= NodesOf(ss);
      }
    }
  }

  lemma {:induction false} Allocated(s: Shape)
    ensures forall n | n in Nodes(s) :: allocated(n)
    decreases s
  {
    forall k | 0 <= k < |s.kids| ensures forall n | n in Nodes(s.kids[k]) :: allocated(n) { Allocated(s.kids[k]); }
  }

  lemma {:induction false} AllAllocated(ss: seq<Shape>)
    ensures forall n | n in NodesOf(ss) :: allocated(n)
  {
    forall k | 0 <= k < |ss| ensures forall n | n in Nodes(ss[k]) :: allocated(n) { Allocated(ss[k]); }
  }

  /** A node over shapes it does not belong to. */
  lemma {:induction false} Assembled(n: Node, kids: seq<Shape>, t: Tree)
    requires n.kind == t.kind && n.tag == t.tag && n.value == t.value
    requires |n.content| == |kids| == |t.content| && HoldsAll(kids, n.content, t.content)
    requires Forest(kids) && n !in NodesOf(kids)
    ensures Unshared(Shape(n, kids)) && Holds(Shape(n, kids), t) && Nodes(Shape(n, kids)) == {n} + NodesOf(kids)
  {
    assert forall k | 0 <= k < |kids| :: Nodes(kids[k]) <= NodesOf(kids);
  }

  /** A fresh copy of `t` in the heap: what `Node.Encode` produces. */
  method Build(t: Tree) returns (n: Node, ghost s: Shape)
    ensures s.node == n && Unshared(s) && Holds(s, t) && fresh(Nodes(s))
    decreases t, 1
  {
    hide Nodes, NodesOf, Holds, Unshared;
    var content, kids := BuildKids(t, |t.content|);
    AllAllocated(kids);
    n := new Node(t.kind, t.tag, t.value, content);
    s := Shape(n, kids);
    assert HoldsAll(kids, content, t.content);
    Assembled(n, kids, t);
  }

  method BuildKids(t: Tree, n: nat) returns (content: seq<Node>, ghost kids: seq<Shape>)
    requires n <= |t.content|
    ensures |content| == |kids| == n
    ensures fresh(NodesOf(kids)) && Forest(kids) && HoldsAll(kids, content, t.content)
    decreases t, 0, n
  {
    if n == 0 { return [], []; }
    content, kids := BuildKids(t, n - 1);
    AllAllocated(kids);
    var c, cs := Build(t.content[n - 1]);
    assert HoldsAll(kids, content, t.content);
    ForestGrows(kids, cs);
    NodesOfGrows(kids, cs);
    content, kids := content + [c], kids + [cs];
  }

  /** What holding a tree says of its root. */
  lemma {:induction false} RootOf(s: Shape, t: Tree)
    requires Holds(s, t)
    ensures s.node.kind == t.kind && |s.node.content| == |s.kids| == |t.content| && s.node in Nodes(s)
  {
  }

  lemma {:induction false} KidOf(s: Shape, t: Tree, k: nat)
    requires Holds(s, t) && k < |s.kids|
    ensures k < |s.node.content| && k < |t.content| && s.node.content[k] == s.kids[k].node
    ensures Holds(s.kids[k], t.content[k]) && s.kids[k].node.value == t.content[k].value
  {
  }

  /** The key search shared by both walks. */
  method FindKeyIndex(node: Node, part: string, ghost s: Shape, ghost t: Tree) returns (foundIdx: int)
    requires s.node == node && Holds(s, t)
    ensures foundIdx == FindKey(t.content, part, 0)
  {
    var j: nat := 0;
    while j + 1 < |node.content|
      invariant FindKey(t.content, part, j) == FindKey(t.content, part, 0)
      decreases |node.content| - j
    {
      assert Holds(s.kids[j], t.content[j]);
      if node.content[j].value == part { return j; }
      j := j + 2;
    }
    return -1;
  }

  /** A place in the tree as the walks see it: position, node, shape and tree. */
  ghost predicate StandsAt(s: Shape, t: Tree, at: seq<nat>, cur: Shape, curTree: Tree)
    reads Nodes(cur)
  {
    && ValidAt(s, at) && ShapeAt(s, at) == cur
    && TreeValidAt(t, at) && TreeAt(t, at) == curTree
    && Holds(cur, curTree)
  }

  lemma {:induction false} GoDown(s: Shape, t: Tree, at: seq<nat>, cur: Shape, curTree: Tree, k: nat)
    requires StandsAt(s, t, at, cur, curTree) && k < |cur.kids|
    ensures cur.node.content[k] == cur.kids[k].node
    ensures StandsAt(s, t, at + [k], cur.kids[k], curTree.content[k])
  {
    StepDown(s, at, k);
    TreeStepDown(t, at, k, curTree);
  }

  /** One step of the reading walk. */
  lemma {:induction false} LookupStep(t: Tree, parts: seq<string>, i: nat)
    requires i < |parts| && t.kind == MappingNode
    ensures Lookup(t, parts[i..], parts[..i])
            == match Child(t, parts[i])
               case None => Failure(KeyNotFound(parts[..i + 1]))
               case Some(c) => Lookup(c, parts[i + 1..], parts[..i + 1])
  {
    assert parts[i..][1..] == parts[i + 1..];
    assert parts[..i] + [parts[i]] == parts[..i + 1];
  }

  /** `navigateToNode`. */
  method NavigateToNode(root: Node, parts: seq<string>, ghost s: Shape, ghost t: Tree)
    returns (r: Result<Node, Error>, ghost at: seq<nat>)
    requires s.node == root && Holds(s, t)
    ensures r.Success? ==> ValidAt(s, at) && r.value == ShapeAt(s, at).node
                           && TreeValidAt(t, at) && Navigated(t, parts) == Success(TreeAt(t, at))
    ensures r.Failure? ==> Navigated(t, parts) == Failure(r.error)
  {
    hide Nodes, Holds;
    RootOf(s, t);
    var current := root;
    at := [];
    ghost var cur, curTree := s, t;
    if current.kind == DocumentNode && |current.content| > 0 {
      GoDown(s, t, at, cur, curTree, 0);
      current := current.content[0];
      at, cur, curTree := at + [0], cur.kids[0], curTree.content[0];
    }
    assert parts[0..] == parts && parts[..0] == [];
    RootOf(cur, curTree);
    for i := 0 to |parts|
      invariant StandsAt(s, t, at, cur, curTree) && cur.node == current
      invariant Lookup(curTree, parts[i..], parts[..i]) == Navigated(t, parts)
    {
      var part := parts[i];
      RootOf(cur, curTree);
      if current.kind != MappingNode {
        return Failure(NotAMapping(part, current.kind)), at;
      }
      LookupStep(curTree, parts, i);
      Allocated(cur);
      var j := FindKeyIndex(current, part, cur, curTree);
      if j < 0 {
        return Failure(KeyNotFound(parts[..i + 1])), at;
      }
      GoDown(s, t, at, cur, curTree, j + 1);
      current := current.content[j + 1];
      at, cur, curTree := at + [j + 1], cur.kids[j + 1], curTree.content[j + 1];
    }
    return Success(current), at;
  }

  // ---------------------------------------------------------------- editing one node

  /** The tree being edited and the place the walk stands at. */
  datatype Cursor = Cursor(s: Shape, tree: Tree, at: seq<nat>, cur: Shape, curTree: Tree)

  ghost predicate Editing(c: Cursor)
    reads Nodes(c.s), Nodes(c.cur)
  {
    Unshared(c.s) && Unshared(c.cur) && Holds(c.s, c.tree) && StandsAt(c.s, c.tree, c.at, c.cur, c.curTree)
  }

  /** The shape and the content of a node with the value at `k` replaced. */
  lemma {:induction false} KidSet(cur: Shape, curTree: Tree, k: nat, vs: Shape, vt: Tree)
    requires Unshared(cur) && Holds(cur, curTree) && k < |cur.kids|
    requires Unshared(vs) && Holds(vs, vt) && Nodes(vs) !! Nodes(cur)
    ensures var sub := cur.(kids := cur.kids[k := vs]);
            && Unshared(sub) && Nodes(sub) <= Nodes(cur) + Nodes(vs)
            && HoldsAll(sub.kids, cur.node.content[k := vs.node], curTree.content[k := vt])
  {
    var sub := cur.(kids := cur.kids[k := vs]);
    forall j | 0 <= j < |sub.kids| && j != k ensures sub.kids[j] == cur.kids[j] && Nodes(sub.kids[j]) <= Nodes(cur) {}
    forall i, j | 0 <= i < j < |sub.kids| ensures Nodes(sub.kids[i]) !! Nodes(sub.kids[j]) {
      if i != k && j != k { assert Nodes(cur.kids[i]) !! Nodes(cur.kids[j]); }
    }
  }

  /** The shape and the content of a node with one more child. */
  lemma {:induction false} KidAppended(cur: Shape, content: seq<Node>, ts: seq<Tree>, vs: Shape, vt: Tree)
    requires Unshared(cur) && |content| == |cur.kids| == |ts| && HoldsAll(cur.kids, content, ts)
    requires Unshared(vs) && Holds(vs, vt) && Nodes(vs) !! Nodes(cur)
    ensures var sub := cur.(kids := cur.kids + [vs]);
            && Unshared(sub) && Nodes(sub) <= Nodes(cur) + Nodes(vs)
            && HoldsAll(sub.kids, content + [vs.node], ts + [vt])
  {
    var n, sub := |cur.kids|, cur.(kids := cur.kids + [vs]);
    forall j | 0 <= j < n ensures sub.kids[j] == cur.kids[j] && Nodes(sub.kids[j]) <= Nodes(cur) {}
    forall i, j | 0 <= i < j < |sub.kids| ensures Nodes(sub.kids[i]) !! Nodes(sub.kids[j]) {
      if j < n { assert Nodes(cur.kids[i]) !! Nodes(cur.kids[j]); }
    }
  }

  /** The tree is whole again once the node at `at` holds what its new shape says. */
  lemma {:induction false} Mended(s: Shape, t: Tree, at: seq<nat>, sub: Shape, subTree: Tree)
    requires Unshared(s) && ValidAt(s, at) && TreeValidAt(t, at) && HoldsAround(s, t, at)
    requires Fits(s, at, sub) && Holds(sub, subTree)
    ensures Editing(Cursor(ShapeWith(s, at, sub), TreeWith(t, at, subTree), at, sub, subTree))
    ensures ShapeWith(s, at, sub).node == s.node
    ensures Nodes(ShapeWith(s, at, sub)) <= Nodes(s) + Nodes(sub)
  {
    PutTogether(s, t, at, sub, subTree);
    ReplacedAt(t, at, subTree, subTree);
    ShapeReplacedAt(s, at, sub);
  }

  /** Assigning the content of the node the walk stands at. */
  method EditContent(current: Node, content: seq<Node>, ghost c: Cursor, ghost sub: Shape, ghost subTree: Tree)
    returns (ghost c': Cursor)
    requires Editing(c) && c.cur.node == current == sub.node
    requires Unshared(sub) && Nodes(sub) !! Around(c.s, c.at)
    requires subTree == c.curTree.(content := subTree.content)
    requires |content| == |sub.kids| == |subTree.content| && HoldsAll(sub.kids, content, subTree.content)
    modifies current`content
    ensures current.content == content
    ensures Editing(c') && c' == Cursor(c'.s, TreeWith(c.tree, c.at, subTree), c.at, sub, subTree)
    ensures c'.s.node == c.s.node && Nodes(c'.s) <= Nodes(c.s) + Nodes(sub)
  {
    TakeApart(c.s, c.tree, c.at);
    ghost var outside := Around(c.s, c.at);
    assert current !in NodesOf(sub.kids) by {
      assert forall k | 0 <= k < |sub.kids| :: current !in Nodes(sub.kids[k]);
    }
    assert current !in outside;
    current.content := content;
    assert HoldsAll(sub.kids, content, subTree.content);
    assert HoldsAround(c.s, c.tree, c.at);
    Mended(c.s, c.tree, c.at, sub, subTree);
    c' := Cursor(ShapeWith(c.s, c.at, sub), TreeWith(c.tree, c.at, subTree), c.at, sub, subTree);
  }

  /** Where `WithChild` puts the value of `part`. */
  function ValueIndex(content: seq<Tree>, part: string): nat {
    var j := FindKey(content, part, 0);
    if j >= 0 then j + 1 else |content| + 1
  }

  /** Nodes taken from outside the tree are not around any place in it. */
  lemma {:induction false} NotAround(c: Cursor, sub: Shape, extra: set<Node>)
    requires ValidAt(c.s, c.at) && ShapeAt(c.s, c.at) == c.cur
    requires Nodes(sub) <= Nodes(c.cur) + extra && extra !! Nodes(c.s)
    ensures Nodes(sub) !! Around(c.s, c.at)
  {
  }

  /** One child replaced, or two appended; every other child is the very node it was. */
  ghost predicate OneEdit(was: seq<Node>, now: seq<Node>) {
    || (|now| == |was| + 2 && now[..|was|] == was)
    || (|now| == |was| && exists k :: 0 <= k < |was| && now == was[k := now[k]])
  }

  lemma {:induction false} EditsOne(was: seq<Node>, k: nat, a: Node, b: Node)
    ensures OneEdit(was, was + [a] + [b])
    ensures k < |was| ==> OneEdit(was, was[k := a])
  {
    assert (was + [a] + [b])[..|was|] == was;
    if k < |was| { assert was[k := a][k] == a; }
  }

  /** Overwriting the value of a key that is there. */
  method ReplaceValue(current: Node, part: string, foundIdx: nat, valueNode: Node, ghost c: Cursor,
          ghost vs: Shape, ghost vt: Tree)
    returns (ghost c': Cursor)
    requires Editing(c) && c.cur.node == current
    requires foundIdx == FindKey(c.curTree.content, part, 0)
    requires vs.node == valueNode && Unshared(vs) && Holds(vs, vt) && Nodes(vs) !! Nodes(c.s)
    modifies current`content
    ensures Attached(c, part, vs, vt, c') && Nodes(c'.s) <= Nodes(c.s) + Nodes(vs)
    ensures OneEdit(old(current.content), current.content)
  {
    hide Nodes, Holds, Unshared, OneEdit;
    RootOf(c.cur, c.curTree);
    EditsOne(current.content, foundIdx + 1, valueNode, valueNode);
    KidSet(c.cur, c.curTree, foundIdx + 1, vs, vt);
    ghost var sub := c.cur.(kids := c.cur.kids[foundIdx + 1 := vs]);
    NotAround(c, sub, Nodes(vs));
    var content := current.content[foundIdx + 1 := valueNode];
    c' := EditContent(current, content, c, sub, WithChild(c.curTree, part, vt));
  }

  lemma {:induction false} PairAppended(cur: Shape, curTree: Tree, part: string, ks: Shape, vs: Shape, vt: Tree)
    requires Unshared(cur) && Holds(cur, curTree) && FindKey(curTree.content, part, 0) < 0
    requires ks.kids == [] && Holds(ks, KeyNode(part)) && ks.node !in Nodes(cur) + Nodes(vs)
    requires Unshared(vs) && Holds(vs, vt) && Nodes(vs) !! Nodes(cur)
    ensures var sub := cur.(kids := cur.kids + [ks] + [vs]);
            && Unshared(sub) && Nodes(sub) <= Nodes(cur) + {ks.node} + Nodes(vs)
            && HoldsAll(sub.kids, cur.node.content + [ks.node] + [vs.node], WithChild(curTree, part, vt).content)
  {
    var keyed, ts := cur.(kids := cur.kids + [ks]), curTree.content + [KeyNode(part)];
    assert Nodes(ks) == {ks.node};
    KidAppended(cur, cur.node.content, curTree.content, ks, KeyNode(part));
    KidAppended(keyed, cur.node.content + [ks.node], ts, vs, vt);
    assert ts + [vt] == WithChild(curTree, part, vt).content;
  }

  /** Appending a key and its value. */
  method AppendPair(current: Node, part: string, valueNode: Node, ghost c: Cursor, ghost vs: Shape, ghost vt: Tree)
    returns (ghost c': Cursor)
    requires Editing(c) && c.cur.node == current
    requires FindKey(c.curTree.content, part, 0) < 0
    requires vs.node == valueNode && Unshared(vs) && Holds(vs, vt) && Nodes(vs) !! Nodes(c.s)
    modifies current`content
    ensures Attached(c, part, vs, vt, c')
    ensures forall n | n in Nodes(c'.s) && n !in Nodes(c.s) + Nodes(vs) :: fresh(n)
    ensures OneEdit(old(current.content), current.content)
  {
    hide OneEdit;
    Allocated(c.s);
    Allocated(vs);
    var keyNode := new Node(ScalarNode, "!!str", part, []);
    ghost var ks := Shape(keyNode, []);
    assert Nodes(ks) == {keyNode};
    assert Editing(c) && Holds(vs, vt);
    EditsOne(current.content, 0, keyNode, valueNode);
    PairAppended(c.cur, c.curTree, part, ks, vs, vt);
    ghost var sub := c.cur.(kids := c.cur.kids + [ks] + [vs]);
    NotAround(c, sub, {keyNode} + Nodes(vs));
    c' := EditContent(current, current.content + [keyNode] + [valueNode], c, sub, WithChild(c.curTree, part, vt));
  }

  /** The value is attached under the key, at the same place in the tree. */
  ghost predicate Attached(c: Cursor, part: string, vs: Shape, vt: Tree, c': Cursor)
    requires TreeValidAt(c.tree, c.at)
    reads Nodes(c'.s), Nodes(c'.cur)
  {
    var subTree := WithChild(c.curTree, part, vt);
    && Editing(c') && c'.s.node == c.s.node
    && c'.tree == TreeWith(c.tree, c.at, subTree) && c'.at == c.at && c'.curTree == subTree
    && ValueIndex(c.curTree.content, part) < |c'.cur.kids| && c'.cur.kids[ValueIndex(c.curTree.content, part)] == vs
  }

  /** Both ways `setNodeAtPath` attaches a node: in place of the value found, or behind a new key. */
  method Attach(current: Node, part: string, foundIdx: int, valueNode: Node, ghost c: Cursor, ghost vs: Shape,
          ghost vt: Tree)
    returns (ghost c': Cursor)
    requires Editing(c) && c.cur.node == current
    requires foundIdx == FindKey(c.curTree.content, part, 0)
    requires vs.node == valueNode && Unshared(vs) && Holds(vs, vt) && Nodes(vs) !! Nodes(c.s)
    modifies current`content
    ensures Attached(c, part, vs, vt, c')
    ensures forall n | n in Nodes(c'.s) && n !in Nodes(c.s) + Nodes(vs) :: fresh(n)
    ensures OneEdit(old(current.content), current.content)
  {
    if foundIdx >= 0 {
      c' := ReplaceValue(current, part, foundIdx, valueNode, c, vs, vt);
    } else {
      c' := AppendPair(current, part, valueNode, c, vs, vt);
    }
  }

  lemma {:induction false} SameTreeWith(t: Tree, at: seq<nat>)
    requires TreeValidAt(t, at)
    ensures TreeWith(t, at, TreeAt(t, at)) == t
    decreases at
  {
    if at != [] { SameTreeWith(t.content[at[0]], at[1..]); }
  }

  /** The whole tree once the rest of the path is written from where the walk stands. */
  ghost function Final(c: Cursor, rest: seq<string>, leaf: Option<Tree>): Tree
    requires TreeValidAt(c.tree, c.at)
  {
    TreeWith(c.tree, c.at, Set(c.curTree, rest, leaf))
  }

  ghost function Below(c: Cursor, k: nat): Cursor
    requires k < |c.cur.kids| && k < |c.curTree.content|
  {
    c.(at := c.at + [k], cur := c.cur.kids[k], curTree := c.curTree.content[k])
  }

  lemma {:induction false} EditBelow(c: Cursor, k: nat)
    requires Editing(c) && k < |c.cur.kids|
    ensures Editing(Below(c, k)) && Below(c, k).cur.node == c.cur.node.content[k]
  {
    GoDown(c.s, c.tree, c.at, c.cur, c.curTree, k);
  }

  /** Going down into a mapping that is there leaves the rest of the write as it was. */
  lemma {:induction false} FinalBelow(t: Tree, at: seq<nat>, k: nat, rest: seq<string>, leaf: Option<Tree>)
    requires TreeValidAt(t, at) && |rest| > 1
    requires var c := TreeAt(t, at);
             FindKey(c.content, rest[0], 0) >= 0 && k == ValueIndex(c.content, rest[0])
                 && c.content[k].kind == MappingNode
    ensures TreeValidAt(t, at + [k])
    ensures TreeWith(t, at + [k], Set(TreeAt(t, at).content[k], rest[1..], leaf))
            == TreeWith(t, at, Set(TreeAt(t, at), rest, leaf))
  {
    TreeStepDown(t, at, k, Set(TreeAt(t, at).content[k], rest[1..], leaf));
  }

  /** Putting an empty mapping in the way, and going down into it, leaves the rest of the write as it was. */
  lemma {:induction false} FinalThroughNew(t: Tree, at: seq<nat>, rest: seq<string>, leaf: Option<Tree>)
    requires TreeValidAt(t, at) && |rest| > 1
    requires AsMapping(Child(TreeAt(t, at), rest[0])) == EMPTY_MAP
    ensures var c := TreeAt(t, at);
            var k, t' := ValueIndex(c.content, rest[0]), TreeWith(t, at, WithChild(c, rest[0], EMPTY_MAP));
            && TreeValidAt(t', at + [k])
            && TreeWith(t', at + [k], Set(EMPTY_MAP, rest[1..], leaf)) == TreeWith(t, at, Set(c, rest, leaf))
  {
    var c := TreeAt(t, at);
    var k, c' := ValueIndex(c.content, rest[0]), WithChild(c, rest[0], EMPTY_MAP);
    var t', final := TreeWith(t, at, c'), Set(EMPTY_MAP, rest[1..], leaf);
    ReplacedAt(t, at, c', c'.(content := c'.content[k := final]));
    TreeStepDown(t', at, k, final);
    assert c'.content[k := final] == WithChild(c, rest[0], final).content;
  }

  /** A node without children. */
  lemma {:induction false} Bare(s: Shape, t: Tree)
    requires s.kids == [] && t.content == [] && s.node.content == []
    requires s.node.kind == t.kind && s.node.tag == t.tag && s.node.value == t.value
    ensures Unshared(s) && Holds(s, t) && Nodes(s) == {s.node}
  {
  }

  lemma {:induction false} StandsInTree(c: Cursor)
    requires Editing(c)
    ensures c.cur.node in Nodes(c.s) && c.cur.node.kind == c.curTree.kind
    ensures forall n | n in Nodes(c.s) :: allocated(n)
    ensures Nodes(c.cur) <= Nodes(c.s)
  {
    Allocated(c.s);
  }

  lemma {:induction false} WithChildAt(t: Tree, part: string, v: Tree)
    ensures var k, t' := ValueIndex(t.content, part), WithChild(t, part, v); k < |t'.content| && t'.content[k] == v
  {
  }

  /** One step of the writing walk: into the mapping under `rest[0]`, which is put there if need be. */
  method EnterMapping(current: Node, foundIdx: int, ghost c: Cursor, ghost rest: seq<string>, part: string,
          ghost leaf: Option<Tree>)
    returns (next: Node, ghost c': Cursor)
    requires Editing(c) && c.cur.node == current && |rest| > 1 && rest[0] == part
    requires foundIdx == FindKey(c.curTree.content, part, 0)
    modifies current`content
    ensures Editing(c') && c'.s.node == c.s.node && c'.cur.node == next && c'.curTree.kind == MappingNode
    ensures Final(c', rest[1..], leaf) == Final(c, rest, leaf)
    ensures (next in Nodes(c.s) && current.content == old(current.content))
            || (fresh(next) && OneEdit(old(current.content), current.content) && c'.curTree == EMPTY_MAP)
    ensures foundIdx < 0 ==> fresh(next) && c'.curTree == EMPTY_MAP
    ensures forall n | n in Nodes(c'.s) && n !in Nodes(c.s) :: fresh(n)
  {
    hide OneEdit, Nodes, Holds, Unshared, Set, WithChild;
    RootOf(c.cur, c.curTree);
    if foundIdx >= 0 && current.content[foundIdx + 1].kind == MappingNode {
      EditBelow(c, foundIdx + 1);
      RootOf(c.cur.kids[foundIdx + 1], c.curTree.content[foundIdx + 1]);
      FinalBelow(c.tree, c.at, foundIdx + 1, rest, leaf);
      return current.content[foundIdx + 1], Below(c, foundIdx + 1);
    }
    assert AsMapping(Child(c.curTree, part)) == EMPTY_MAP by {
      if foundIdx >= 0 {
        EditBelow(c, foundIdx + 1);
        RootOf(c.cur.kids[foundIdx + 1], c.curTree.content[foundIdx + 1]);
      }
    }
    FinalThroughNew(c.tree, c.at, rest, leaf);
    Allocated(c.s);
    next := new Node(MappingNode, "!!map", "", []);
    ghost var vs := Shape(next, []);
    Bare(vs, EMPTY_MAP);
    assert Editing(c);
    c' := Attach(current, part, foundIdx, next, c, vs, EMPTY_MAP);
    ghost var k := ValueIndex(c.curTree.content, part);
    WithChildAt(c.curTree, part, EMPTY_MAP);
    EditBelow(c', k);
    c' := Below(c', k);
  }

  /** The last step: the encoded value goes under the last key. */
  method AttachLeaf(current: Node, part: string, foundIdx: int, leaf: Option<Tree>, ghost c: Cursor)
    returns (err: Option<Error>, ghost c': Cursor)
    requires Editing(c) && c.cur.node == current
    requires foundIdx == FindKey(c.curTree.content, part, 0)
    modifies current`content
    ensures Editing(c') && c'.s.node == c.s.node && c'.tree == Final(c, [part], leaf)
    ensures err == (if leaf.Some? then None else Some(EncodingFailed))
    ensures current.content == old(current.content) || OneEdit(old(current.content), current.content)
    ensures forall n | n in Nodes(c'.s) && n !in Nodes(c.s) :: fresh(n)
  {
    hide OneEdit, Nodes, Holds, Unshared;
    if leaf.None? {
      SameTreeWith(c.tree, c.at);
      return Some(EncodingFailed), c;
    }
    Allocated(c.s);
    var valueNode, vs := Build(leaf.value);
    assert Editing(c);
    c' := Attach(current, part, foundIdx, valueNode, c, vs, leaf.value);
    err := None;
  }

  /** Where the walks start: at the node a document wraps, or at the root. */
  ghost function Start(s: Shape, t: Tree): Cursor {
    if t.kind == DocumentNode && t.content != [] && s.kids != [] then
      Cursor(s, t, [0], s.kids[0], t.content[0])
    else
      Cursor(s, t, [], s, t)
  }

  lemma {:induction false} Started(s: Shape, t: Tree, parts: seq<string>, leaf: Option<Tree>)
    requires Unshared(s) && Holds(s, t) && parts != []
    ensures var c := Start(s, t);
            && Editing(c) && c.s == s && c.tree == t && c.curTree == Body(t)
            && (t.kind == DocumentNode && t.content != [] ==> c.cur.node == s.node.content[0])
            && (!(t.kind == DocumentNode && t.content != []) ==> c.cur.node == s.node)
            && (Body(t).kind == MappingNode ==> Final(c, parts, leaf) == SetInRoot(t, parts, leaf).0)
  {
    if t.kind == DocumentNode && t.content != [] {
      var c := Cursor(s, t, [], s, t);
      assert c.at + [0] == [0];
      EditBelow(c, 0);
      TreeStepDown(t, [], 0, Set(t.content[0], parts, leaf));
    }
  }

  ghost function ContentsOf(nodes: set<Node>): map<Node, seq<Node>>
    reads nodes
  {
    map n | n in nodes :: n.content
  }

  /** Of the nodes there were, at most one has changed, by one edit. */
  ghost predicate EditedOnly(before: map<Node, seq<Node>>, now: map<Node, seq<Node>>, edited: set<Node>) {
    && |edited| <= 1 && edited <= before.Keys == now.Keys
    && forall n | n in before :: if n in edited then OneEdit(before[n], now[n]) else now[n] == before[n]
  }

  /** The edit of node `cur`, if it is one of those there were and the first of them to change. */
  ghost function WithEdit(before: map<Node, seq<Node>>, now: map<Node, seq<Node>>, edited: set<Node>,
          cur: Node): set<Node>
  {
    if cur in before && cur in now && now[cur] != before[cur] then {cur} else edited
  }

  lemma {:induction false} NothingEdited(before: map<Node, seq<Node>>)
    ensures EditedOnly(before, before, {})
  {
  }

  lemma {:induction false} EditedStep(before: map<Node, seq<Node>>, was: map<Node, seq<Node>>,
          now: map<Node, seq<Node>>, edited: set<Node>, cur: Node)
    requires EditedOnly(before, was, edited) && now.Keys == was.Keys && (cur in before ==> edited == {})
    requires forall n | n in was && n != cur :: now[n] == was[n]
    requires cur in was ==> now[cur] == was[cur] || OneEdit(was[cur], now[cur])
    ensures EditedOnly(before, now, WithEdit(before, now, edited, cur))
    ensures WithEdit(before, now, edited, cur) == if cur in was && now[cur] != was[cur] then {cur} else edited
  {
    hide OneEdit;
  }

  /** The loop of `setNodeAtPath`: down to the mapping the last key belongs in, creating what is missing. */
  method WalkToLast(start: Node, parts: seq<string>, ghost leaf: Option<Tree>, ghost c0: Cursor)
    returns (current: Node, ghost c: Cursor, ghost edited: set<Node>)
    requires parts != [] && Editing(c0) && c0.cur.node == start && c0.curTree.kind == MappingNode
    modifies Nodes(c0.s)`content
    ensures Editing(c) && c.s.node == c0.s.node && c.cur.node == current
    ensures Final(c, [parts[|parts| - 1]], leaf) == Final(c0, parts, leaf)
    ensures forall n | n in Nodes(c.s) && n !in Nodes(c0.s) :: fresh(n)
    ensures EditedOnly(old(ContentsOf(Nodes(c0.s))), ContentsOf(Nodes(c0.s)), edited)
    ensures edited != {} ==> fresh(current)
  {
    hide OneEdit, Nodes, Holds, Unshared, Set, Final, FindKey, EditedOnly, WithEdit;
    ghost var all := Nodes(c0.s);
    ghost var before := ContentsOf(all);
    current, c, edited := start, c0, {};
    NothingEdited(before);
    StandsInTree(c);
    assert parts[0..] == parts;
    var i := 0;
    while i < |parts| - 1
      invariant i < |parts|
      invariant Editing(c) && c.s.node == c0.s.node && c.cur.node == current && c.curTree.kind == MappingNode
      invariant Final(c, parts[i..], leaf) == Final(c0, parts, leaf)
      invariant forall n | n in Nodes(c.s) && n !in all :: fresh(n)
      invariant EditedOnly(before, ContentsOf(all), edited)
      invariant edited != {} ==> fresh(current) && c.curTree == EMPTY_MAP
    {
      StandsInTree(c);
      var foundIdx := FindKeyIndex(current, parts[i], c.cur, c.curTree);
      assert parts[i..][1..] == parts[i + 1..];
      ghost var was, contents := current, ContentsOf(all);
      current, c := EnterMapping(current, foundIdx, c, parts[i..], parts[i], leaf);
      EditedStep(before, contents, ContentsOf(all), edited, was);
      edited := WithEdit(before, ContentsOf(all), edited, was);
      i := i + 1;
    }
    assert parts[i..] == [parts[i]];
  }

  /** `setNodeAtPath`: the walk that creates what is missing and attaches the encoded value, in place. */
  method SetNodeAtPath(root: Node, parts: seq<string>, leaf: Option<Tree>, ghost s: Shape, ghost t: Tree)
    returns (err: Option<Error>, ghost s': Shape, ghost edited: set<Node>)
    requires s.node == root && Unshared(s) && Holds(s, t)
    modifies Nodes(s)`content
    ensures |edited| <= 1 && edited <= Nodes(s)
    ensures forall n | n in Nodes(s) && old(allocated(n)) ::
              if n in edited then OneEdit(old(n.content), n.content) else n.content == old(n.content)
    ensures Unshared(s') && s'.node == root
    ensures forall n | n in Nodes(s') && n !in Nodes(s) :: fresh(n)
    ensures Holds(s', SetInRoot(t, parts, leaf).0) && err == SetInRoot(t, parts, leaf).1
  {
    hide OneEdit, Nodes, Holds, Unshared, Set, Final, FindKey, EditedOnly, WithEdit;
    RootOf(s, t);
    edited := {};
    if |parts| == 0 { return Some(EmptyPath), s, edited; }
    var current := root;
    if current.kind == DocumentNode && |current.content| > 0 {
      current := current.content[0];
    }
    Started(s, t, parts, leaf);
    ghost var c := Start(s, t);
    StandsInTree(c);
    if current.kind != MappingNode { return Some(RootNotAMapping(current.kind)), s, edited; }
    ghost var all := Nodes(s);
    ghost var before := ContentsOf(all);
    current, c, edited := WalkToLast(current, parts, leaf, c);
    StandsInTree(c);
    var last := parts[|parts| - 1];
    var foundIdx := FindKeyIndex(current, last, c.cur, c.curTree);
    ghost var contents := ContentsOf(all);
    err, c := AttachLeaf(current, last, foundIdx, leaf, c);
    EditedStep(before, contents, ContentsOf(all), edited, current);
    edited := WithEdit(before, ContentsOf(all), edited, current);
    s' := c.s;
    EditedMeans(before, ContentsOf(all), edited);
  }

  lemma {:induction false} EditedMeans(before: map<Node, seq<Node>>, now: map<Node, seq<Node>>, edited: set<Node>)
    requires EditedOnly(before, now, edited)
    ensures |edited| <= 1 && edited <= before.Keys == now.Keys
    ensures forall n | n in before :: if n in edited then OneEdit(before[n], now[n]) else now[n] == before[n]
  {
  }
}
