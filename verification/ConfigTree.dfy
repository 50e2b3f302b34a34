/**
 * The configuration tree as a value: what reading and writing a dotted path
 * means, and the laws that tie the two together.
 */
module ConfigTree {
  import opened Wrappers

  datatype Kind = DocumentNode | SequenceNode | MappingNode | ScalarNode | AliasNode | UnknownNode

  /** A YAML node. A mapping's content alternates keys and values. */
  datatype Tree = Tree(kind: Kind, tag: string, value: string, content: seq<Tree>)

  datatype Error =
    | NotAMapping(part: string, kind: Kind)
    | KeyNotFound(path: seq<string>)
    | EmptyPath
    | RootNotAMapping(kind: Kind)
    | EncodingFailed

  /** The position of the first key equal to `key`, from position `j` on; -1 when there is none. */
  function FindKey(content: seq<Tree>, key: string, j: nat): (r: int)
    ensures -1 <= r && (r >= 0 ==> j <= r && r + 1 < |content| && content[r].value == key && (r - j) % 2 == 0)
    ensures forall i | j <= i && i + 1 < |content| && (i - j) % 2 == 0 && (r < 0 || i < r) :: content[i].value != key
    decreases |content| - j
  {
    if j + 1 >= |content| then -1
    else if content[j].value == key then j
    else FindKey(content, key, j + 2)
  }

  /** The child of a mapping under `key`. */
  function Child(t: Tree, key: string): Option<Tree> {
    var j := FindKey(t.content, key, 0);
    if j < 0 then None else Some(t.content[j + 1])
  }

  // ---------------------------------------------------------------- reading

  /** `navigateToNode` below the document node; `done` is the path walked so far. */
  function Lookup(t: Tree, parts: seq<string>, done: seq<string> := []): Result<Tree, Error>
    decreases parts
  {
    if parts == [] then Success(t)
    else if t.kind != MappingNode then Failure(NotAMapping(parts[0], t.kind))
    else
      match Child(t, parts[0])
      case None => Failure(KeyNotFound(done + [parts[0]]))
      case Some(child) => Lookup(child, parts[1..], done + [parts[0]])
  }

  /**
   * Reading fails at the first key that is missing, which is named with the path to
   * it, or below a node that is no mapping.
   */
  lemma {:induction false} LookupStopsAt(t: Tree, parts: seq<string>, n: nat, done: seq<string>)
    requires n < |parts| && Lookup(t, parts[..n], done).Success?
    ensures var there := Lookup(t, parts[..n], done).value;
            && (there.kind != MappingNode ==> Lookup(t, parts, done) == Failure(NotAMapping(parts[n], there.kind)))
            && (there.kind == MappingNode && Child(there, parts[n]).None? ==>
                  Lookup(t, parts, done) == Failure(KeyNotFound(done + parts[..n + 1])))
    decreases n
  {
    if n > 0 {
      assert parts[..n][0] == parts[0] && parts[..n][1..] == parts[1..][..n - 1];
      LookupStopsAt(Child(t, parts[0]).value, parts[1..], n - 1, done + [parts[0]]);
      assert done + [parts[0]] + parts[1..][..n] == done + parts[..n + 1];
    } else {
      assert parts[..1] == [parts[0]];
    }
  }

  /** The node a document wraps, or the node itself. */
  function Body(root: Tree): Tree {
    if root.kind == DocumentNode && root.content != [] then root.content[0] else root
  }

  // ---------------------------------------------------------------- writing

  const EMPTY_MAP := Tree(MappingNode, "!!map", "", [])

  function KeyNode(part: string): Tree { Tree(ScalarNode, "!!str", part, []) }

  /** The mapping the walk continues in below a child: the child itself, or an empty mapping in its place. */
  function AsMapping(child: Option<Tree>): Tree {
    if child.Some? && child.value.kind == MappingNode then child.value else EMPTY_MAP
  }

  /** A mapping with the value of `key` replaced, or the pair appended. */
  function WithChild(t: Tree, key: string, child: Tree): Tree {
    var j := FindKey(t.content, key, 0);
    if j >= 0 then t.(content := t.content[j + 1 := child])
    else t.(content := t.content + [KeyNode(key), child])
  }

  /**
   * A new key is a plain string with no content of its own, right before its value at
   * the end; new mappings are empty.
   */
  lemma {:induction false} NewPairAtEnd(t: Tree, key: string, child: Tree)
    requires FindKey(t.content, key, 0) < 0
    ensures var content, n := WithChild(t, key, child).content, |t.content|;
            && |content| == n + 2 && content[..n] == t.content && content[n + 1] == child
            && content[n].kind == ScalarNode && content[n].tag == "!!str" && content[n].value == key
                && content[n].content == []
    ensures AsMapping(None).kind == MappingNode && AsMapping(None).tag == "!!map" && AsMapping(None).value == ""
            && AsMapping(None).content == []
  {
  }

  /**
   * `setNodeAtPath` from a mapping: missing or unsuitable nodes on the way become
   * mappings, and the last key gets `leaf`. When there is no leaf, because the
   * value does not encode, only the way is made.
   */
  function Set(t: Tree, parts: seq<string>, leaf: Option<Tree>): Tree
    decreases |parts|
  {
    if parts == [] then t
    else if |parts| == 1 then
      match leaf case Some(v) => WithChild(t, parts[0], v) case None => t
    else
      WithChild(t, parts[0], Set(AsMapping(Child(t, parts[0])), parts[1..], leaf))
  }

  /** `navigateToNode`. */
  function Navigated(root: Tree, parts: seq<string>): Result<Tree, Error> {
    Lookup(Body(root), parts, [])
  }

  function WithBody(root: Tree, body: Tree): Tree {
    if root.kind == DocumentNode && root.content != [] then root.(content := root.content[0 := body]) else body
  }

  /** `setNodeAtPath`: the tree afterwards, and the error if there is one. */
  function SetInRoot(root: Tree, parts: seq<string>, leaf: Option<Tree>): (Tree, Option<Error>) {
    if parts == [] then (root, Some(EmptyPath))
    else if Body(root).kind != MappingNode then (root, Some(RootNotAMapping(Body(root).kind)))
    else (WithBody(root, Set(Body(root), parts, leaf)), if leaf.Some? then None else Some(EncodingFailed))
  }

  /** Every mapping the path passes through pairs each key with a value, as parsed YAML does. */
  predicate PairedAlong(t: Tree, parts: seq<string>)
    decreases parts
  {
    parts == [] || t.kind != MappingNode ||
    (|t.content| % 2 == 0 && var c := Child(t, parts[0]); c.Some? ==> PairedAlong(c.value, parts[1..]))
  }

  // ---------------------------------------------------------------- one mapping

  lemma {:induction false} FindKeyIs(content: seq<Tree>, key: string, j: nat, r: nat)
    requires j <= r && r + 1 < |content| && (r - j) % 2 == 0 && content[r].value == key
    requires forall i | j <= i < r && (i - j) % 2 == 0 :: content[i].value != key
    ensures FindKey(content, key, j) == r
  {
  }

  lemma {:induction false} FindKeyNone(content: seq<Tree>, key: string, j: nat)
    requires forall i | j <= i && i + 1 < |content| && (i - j) % 2 == 0 :: content[i].value != key
    ensures FindKey(content, key, j) == -1
  {
  }

  /** Reading back a replaced or appended child, and any other child. */
  lemma {:induction false} ChildOfWithChild(t: Tree, key: string, child: Tree, other: string)
    requires |t.content| % 2 == 0
    ensures Child(WithChild(t, key, child), other) == if other == key then Some(child) else Child(t, other)
    ensures |WithChild(t, key, child).content| % 2 == 0 && WithChild(t, key, child).kind == t.kind
  {
    var t' := WithChild(t, key, child);
    var j, k := FindKey(t.content, key, 0), FindKey(t.content, other, 0);
    if j >= 0 {
      if k >= 0 { FindKeyIs(t'.content, other, 0, k); } else { FindKeyNone(t'.content, other, 0); }
    } else if other == key {
      FindKeyIs(t'.content, other, 0, |t.content|);
    } else if k >= 0 {
      FindKeyIs(t'.content, other, 0, k);
    } else {
      FindKeyNone(t'.content, other, 0);
    }
  }

  lemma {:induction false} WithChildTwice(t: Tree, key: string, a: Tree, b: Tree)
    requires |t.content| % 2 == 0
    ensures WithChild(WithChild(t, key, a), key, b) == WithChild(t, key, b)
  {
    var t' := WithChild(t, key, a);
    var j := FindKey(t.content, key, 0);
    if j >= 0 {
      FindKeyIs(t'.content, key, 0, j);
    } else {
      FindKeyIs(t'.content, key, 0, |t.content|);
      assert t'.content[|t.content| + 1 := b] == t.content + [KeyNode(key), b];
    }
  }

  // ---------------------------------------------------------------- the laws

  lemma {:induction false} LookupIgnoresTrail(t: Tree, parts: seq<string>, done: seq<string>, done': seq<string>)
    ensures Lookup(t, parts, done).Success? <==> Lookup(t, parts, done').Success?
    ensures Lookup(t, parts, done).Success? ==> Lookup(t, parts, done) == Lookup(t, parts, done')
    decreases parts
  {
    if parts != [] && t.kind == MappingNode && Child(t, parts[0]).Some? {
      LookupIgnoresTrail(Child(t, parts[0]).value, parts[1..], done + [parts[0]], done' + [parts[0]]);
    }
  }

  lemma {:induction false} PairedAsMapping(t: Tree, parts: seq<string>)
    requires t.kind == MappingNode && parts != [] && PairedAlong(t, parts)
    ensures PairedAlong(AsMapping(Child(t, parts[0])), parts[1..])
    ensures AsMapping(Child(t, parts[0])).kind == MappingNode
  {
  }

  /** Reading at or below a path just written gives the written value, or what lies in it. */
  lemma {:induction false} GetAfterSet(t: Tree, parts: seq<string>, v: Tree, below: seq<string>, done: seq<string>)
    requires t.kind == MappingNode && parts != [] && PairedAlong(t, parts)
    ensures Lookup(Set(t, parts, Some(v)), parts + below, done) == Lookup(v, below, done + parts)
    decreases |parts|
  {
    assert (parts + below)[1..] == parts[1..] + below && (parts + below)[0] == parts[0];
    assert done + parts == done + [parts[0]] + parts[1..];
    if |parts| == 1 {
      ChildOfWithChild(t, parts[0], v, parts[0]);
      assert parts[1..] + below == below && done + [parts[0]] == done + parts;
    } else {
      var next := AsMapping(Child(t, parts[0]));
      PairedAsMapping(t, parts);
      ChildOfWithChild(t, parts[0], Set(next, parts[1..], Some(v)), parts[0]);
      GetAfterSet(next, parts[1..], v, below, done + [parts[0]]);
    }
  }

  lemma {:induction false} SetKeepsPaired(t: Tree, parts: seq<string>, v: Tree)
    requires t.kind == MappingNode && parts != [] && PairedAlong(t, parts)
    ensures var t' := Set(t, parts, Some(v)); t'.kind == MappingNode && |t'.content| % 2 == 0
  {
    if |parts| == 1 {
      ChildOfWithChild(t, parts[0], v, parts[0]);
    } else {
      ChildOfWithChild(t, parts[0], Set(AsMapping(Child(t, parts[0])), parts[1..], Some(v)), parts[0]);
    }
  }

  /** Writing a path twice is writing it once, with the last value. */
  lemma {:induction false} SetTwice(t: Tree, parts: seq<string>, a: Tree, b: Tree)
    requires t.kind == MappingNode && parts != [] && PairedAlong(t, parts)
    ensures Set(Set(t, parts, Some(a)), parts, Some(b)) == Set(t, parts, Some(b))
    decreases |parts|
  {
    var key := parts[0];
    if |parts| == 1 {
      WithChildTwice(t, key, a, b);
    } else {
      var next := AsMapping(Child(t, key));
      PairedAsMapping(t, parts);
      var first := Set(next, parts[1..], Some(a));
      SetKeepsPaired(next, parts[1..], a);
      ChildOfWithChild(t, key, first, key);
      SetTwice(next, parts[1..], a, b);
      WithChildTwice(t, key, first, Set(next, parts[1..], Some(b)));
    }
  }

  /** Neither path is a prefix of the other. */
  predicate Diverge(p: seq<string>, q: seq<string>) { !(p <= q) && !(q <= p) }

  /** A path that neither extends nor is extended by the written one keeps its node, or still has none. */
  lemma {:induction false} SetKeepsOtherPaths(t: Tree, parts: seq<string>, v: Tree, q: seq<string>, done: seq<string>)
    requires t.kind == MappingNode && PairedAlong(t, parts) && Diverge(parts, q)
    ensures Lookup(t, q, done).Success? ==> Lookup(Set(t, parts, Some(v)), q, done) == Lookup(t, q, done)
    ensures Lookup(t, q, done).Failure? ==> Lookup(Set(t, parts, Some(v)), q, done).Failure?
    decreases |parts|
  {
    var key, next := parts[0], AsMapping(Child(t, parts[0]));
    var child := if |parts| == 1 then v else Set(next, parts[1..], Some(v));
    ChildOfWithChild(t, key, child, q[0]);
    assert Set(t, parts, Some(v)) == WithChild(t, key, child);
    if q[0] == key {
      assert parts == [key] + parts[1..] && q == [key] + q[1..];
      assert Diverge(parts[1..], q[1..]);
      PairedAsMapping(t, parts);
      SetKeepsOtherPaths(next, parts[1..], v, q[1..], done + [key]);
      if !(Child(t, key).Some? && Child(t, key).value.kind == MappingNode) {
        // the child was missing or no mapping, so `q` failed there, and it fails in the empty mapping
        assert Lookup(EMPTY_MAP, q[1..], done + [key]).Failure?;
      }
    }
  }
}
