/**
 * Dotted paths: splitting them, reading and writing the tree through them, and
 * listing the paths of all leaves.
 */
module ConfigKeys {
  import opened Wrappers
  import opened ConfigTree
  import opened ConfigNodes
  import opened Texts

  function Split(path: string): (parts: seq<string>) { SplitOn('.', path) }

  function Join(parts: seq<string>): string { JoinWith('.', parts) }

  // ---------------------------------------------------------------- reading and writing by dotted path

  /** `GetConfigValue`. */
  method GetConfigValue(root: Node, path: string, ghost s: Shape, ghost t: Tree)
    returns (r: Result<Node, Error>, ghost at: seq<nat>)
    requires s.node == root && Holds(s, t)
    ensures r.Success? ==> ValidAt(s, at) && r.value == ShapeAt(s, at).node
                           && TreeValidAt(t, at) && Navigated(t, Split(path)) == Success(TreeAt(t, at))
    ensures r.Failure? ==> Navigated(t, Split(path)) == Failure(r.error)
  {
    r, at := NavigateToNode(root, Split(path), s, t);
  }

  /** `SetConfigValue`; `leaf` is the encoded value, or none when it does not encode. */
  method SetConfigValue(root: Node, path: string, leaf: Option<Tree>, ghost s: Shape, ghost t: Tree)
    returns (err: Option<Error>, ghost s': Shape, ghost edited: set<Node>)
    requires s.node == root && Unshared(s) && Holds(s, t)
    modifies Nodes(s)`content
    ensures |edited| <= 1 && edited <= Nodes(s)
    ensures forall n | n in Nodes(s) && old(allocated(n)) ::
              if n in edited then OneEdit(old(n.content), n.content) else n.content == old(n.content)
    ensures Unshared(s') && s'.node == root
    ensures forall n | n in Nodes(s') && n !in Nodes(s) :: fresh(n)
    ensures Holds(s', SetInRoot(t, Split(path), leaf).0) && err == SetInRoot(t, Split(path), leaf).1
  {
    err, s', edited := SetNodeAtPath(root, Split(path), leaf, s, t);
  }

  /** What is at `path` in a configuration. */
  function Get(root: Tree, path: string): Result<Tree, Error> { Navigated(root, Split(path)) }

  /** The configuration after setting `path`. */
  function Put(root: Tree, path: string, v: Tree): Tree { SetInRoot(root, Split(path), Some(v)).0 }

  /** A dot separates one key from the next. */
  lemma {:induction false} DotSeparates(root: Tree, key: string, path: string)
    requires '.' !in key
    ensures Get(root, key) == Navigated(root, [key])
    ensures Get(root, key + "." + path) == Navigated(root, [key] + Split(path))
  {
    SplitAtSep('.', key, path);
    assert key + ['.'] + path == key + "." + path;
  }

  /** The root is a mapping, or a document around one, and the mappings on the way are well paired. */
  predicate Settable(root: Tree, path: string) {
    Body(root).kind == MappingNode && PairedAlong(Body(root), Split(path))
  }

  lemma {:induction false} BodyOfPut(root: Tree, path: string, v: Tree)
    requires Settable(root, path)
    ensures Body(Put(root, path, v)) == Set(Body(root), Split(path), Some(v))
    ensures SetInRoot(root, Split(path), Some(v)).1 == None
  {
    SetKeepsPaired(Body(root), Split(path), v);
  }

  /** Setting a path and reading it back gives the value set. */
  lemma {:induction false} PutThenGet(root: Tree, path: string, v: Tree)
    requires Settable(root, path)
    ensures Get(Put(root, path, v), path) == Success(v)
  {
    var parts := Split(path);
    BodyOfPut(root, path, v);
    GetAfterSet(Body(root), parts, v, [], []);
    assert parts + [] == parts;
  }

  /** Setting a path twice is setting it once, to the last value. */
  lemma {:induction false} PutTwice(root: Tree, path: string, a: Tree, b: Tree)
    requires Settable(root, path)
    ensures Put(Put(root, path, a), path, b) == Put(root, path, b)
  {
    SetTwice(Body(root), Split(path), a, b);
    BodyOfPut(root, path, a);
    SetKeepsPaired(Body(root), Split(path), a);
  }

  /** Any path that neither extends nor is extended by the one set keeps its node, or still has none. */
  lemma {:induction false} PutKeepsOthers(root: Tree, path: string, v: Tree, other: string)
    requires Settable(root, path) && Diverge(Split(path), Split(other))
    ensures Get(root, other).Success? ==> Get(Put(root, path, v), other) == Get(root, other)
    ensures Get(root, other).Failure? ==> Get(Put(root, path, v), other).Failure?
  {
    BodyOfPut(root, path, v);
    SetKeepsOtherPaths(Body(root), Split(path), v, Split(other), []);
  }

  // ---------------------------------------------------------------- listing the leaves

  function Under(key: string, ps: seq<seq<string>>): seq<seq<string>> {
    seq(|ps|, i requires 0 <= i < |ps| => [key] + ps[i])
  }

  /** The paths, as lists of keys, that the walk ends at. */
  function LeafPaths(t: Tree): seq<seq<string>>
    decreases t, 1, 0
  {
    match t.kind
    case DocumentNode => PathsOfKids(t, |t.content|)
    case MappingNode => PathsOfPairs(t, |t.content| - |t.content| % 2)
    case ScalarNode | SequenceNode | AliasNode => [[]]
    case UnknownNode => []
  }

  function PathsOfKids(t: Tree, n: nat): seq<seq<string>>
    requires n <= |t.content|
    decreases t, 0, n
  {
    if n == 0 then [] else PathsOfKids(t, n - 1) + LeafPaths(t.content[n - 1])
  }

  function PathsOfPairs(t: Tree, n: nat): seq<seq<string>>
    requires n <= |t.content|
    decreases t, 0, n
  {
    if n < 2 then [] else PathsOfPairs(t, n - 2) + Under(t.content[n - 2].value, LeafPaths(t.content[n - 1]))
  }

  /** The prefix the walk passes down below `key`. */
  function Extended(prefix: string, key: string): string {
    (if prefix != "" then prefix + "." else prefix) + key
  }

  function Dotted(prefix: string, parts: seq<string>): string
    decreases parts
  {
    if parts == [] then prefix else Dotted(Extended(prefix, parts[0]), parts[1..])
  }

  function DottedAll(prefix: string, ps: seq<seq<string>>): seq<string> {
    seq(|ps|, i requires 0 <= i < |ps| => Dotted(prefix, ps[i]))
  }

  lemma {:induction false} DottedUnder(prefix: string, key: string, ps: seq<seq<string>>)
    ensures DottedAll(prefix, Under(key, ps)) == DottedAll(Extended(prefix, key), ps)
  {
    forall i | 0 <= i < |ps| ensures Dotted(prefix, Under(key, ps)[i]) == Dotted(Extended(prefix, key), ps[i]) {
      assert ([key] + ps[i])[1..] == ps[i];
    }
  }

  lemma {:induction false} DottedConcat(prefix: string, a: seq<seq<string>>, b: seq<seq<string>>)
    ensures DottedAll(prefix, a + b) == DottedAll(prefix, a) + DottedAll(prefix, b)
  {
  }

  lemma {:induction false} NoneDotted(prefix: string)
    ensures DottedAll(prefix, []) == []
  {
  }

  lemma {:induction false} OneDotted(prefix: string)
    ensures DottedAll(prefix, [[]]) == [prefix]
  {
  }

  /** `walkConfigTree`: appends the dotted paths of the leaves, in order. */
  method WalkConfigTree(node: Node, prefix: string, before: seq<string>, ghost s: Shape, ghost t: Tree)
    returns (keys: seq<string>)
    requires s.node == node && Holds(s, t)
    ensures keys == before + DottedAll(prefix, LeafPaths(t))
    decreases t
  {
    hide Nodes, Holds, DottedAll, Under;
    keys := before;
    RootOf(s, t);
    Allocated(s);
    NoneDotted(prefix);
    match node.kind {
      case DocumentNode =>
        assert keys == before + DottedAll(prefix, PathsOfKids(t, 0));
        for i := 0 to |node.content|
          invariant keys == before + DottedAll(prefix, PathsOfKids(t, i)) && Holds(s, t)
        {
          KidOf(s, t, i);
          DottedConcat(prefix, PathsOfKids(t, i), LeafPaths(t.content[i]));
          keys := WalkConfigTree(node.content[i], prefix, keys, s.kids[i], t.content[i]);
        }
      case MappingNode =>
        var i := 0;
        assert keys == before + DottedAll(prefix, PathsOfPairs(t, 0));
        while i < |node.content| - 1
          invariant i <= |node.content| && i % 2 == 0
          invariant keys == before + DottedAll(prefix, PathsOfPairs(t, i)) && Holds(s, t)
        {
          KidOf(s, t, i);
          KidOf(s, t, i + 1);
          var key := node.content[i].value;
          var fullPath := prefix;
          if fullPath != "" { fullPath := fullPath + "."; }
          fullPath := fullPath + key;
          var ps := LeafPaths(t.content[i + 1]);
          DottedUnder(prefix, key, ps);
          DottedConcat(prefix, PathsOfPairs(t, i), Under(key, ps));
          keys := WalkConfigTree(node.content[i + 1], fullPath, keys, s.kids[i + 1], t.content[i + 1]);
          i := i + 2;
        }
      case ScalarNode | SequenceNode | AliasNode =>
        OneDotted(prefix);
        keys := keys + [prefix];
      case UnknownNode =>
    }
  }

  /** `ConfigTreeKeys`. */
  method ConfigTreeKeys(root: Node, ghost s: Shape, ghost t: Tree) returns (keys: seq<string>)
    requires s.node == root && Holds(s, t)
    ensures keys == DottedAll("", LeafPaths(t))
  {
    keys := WalkConfigTree(root, "", [], s, t);
  }

  // ---------------------------------------------------------------- the leaves are the paths that resolve

  /** Configuration trees: mappings pair unique, nonempty, dot-free keys with values. */
  predicate WellKeyed(t: Tree)
    decreases t
  {
    match t.kind
    case ScalarNode | SequenceNode | AliasNode => true
    case DocumentNode | UnknownNode => false
    case MappingNode =>
      && |t.content| % 2 == 0
      && (forall i | 0 <= i < |t.content| && i % 2 == 0 :: GoodKey(t.content[i].value))
      && (forall i, j | 0 <= i < j < |t.content| && i % 2 == 0 && j % 2 == 0 ::
          t.content[i].value != t.content[j].value)
      && (forall i | 0 <= i < |t.content| && i % 2 == 1 :: WellKeyed(t.content[i]))
  }

  predicate GoodKey(key: string) { key != "" && Free('.', key) }

  predicate AllGood(parts: seq<string>) { forall i | 0 <= i < |parts| :: GoodKey(parts[i]) }

  /** The path resolves to a node that is no mapping. */
  predicate LeafAt(t: Tree, parts: seq<string>) {
    var r := Lookup(t, parts); r.Success? && r.value.kind != MappingNode
  }

  lemma {:induction false} LeafBelow(t: Tree, parts: seq<string>)
    requires t.kind == MappingNode && parts != []
    ensures var c := Child(t, parts[0]);
            LeafAt(t, parts) <==> c.Some? && LeafAt(c.value, parts[1..])
  {
    var c := Child(t, parts[0]);
    assert [] + [parts[0]] == [parts[0]];
    if c.Some? { LookupIgnoresTrail(c.value, parts[1..], [parts[0]], []); }
  }

  lemma {:induction false} InUnder(key: string, ps: seq<seq<string>>, parts: seq<string>)
    ensures parts in Under(key, ps) <==> parts != [] && parts[0] == key && parts[1..] in ps
  {
    if parts in Under(key, ps) {
      var i :| 0 <= i < |ps| && Under(key, ps)[i] == parts;
      assert parts[1..] == ps[i];
    }
    if parts != [] && parts[0] == key && parts[1..] in ps {
      var i :| 0 <= i < |ps| && ps[i] == parts[1..];
      assert Under(key, ps)[i] == parts;
    }
  }

  /** What the first `n` positions of a mapping contribute. */
  predicate LeafWithin(t: Tree, n: nat, parts: seq<string>)
    requires t.kind == MappingNode
  {
    parts != [] && var j := FindKey(t.content, parts[0], 0); 0 <= j < n && LeafAt(t.content[j + 1], parts[1..])
  }

  lemma {:induction false} PairsIff(t: Tree, n: nat, parts: seq<string>)
    requires WellKeyed(t) && t.kind == MappingNode && n <= |t.content| && n % 2 == 0
    ensures parts in PathsOfPairs(t, n) <==> LeafWithin(t, n, parts)
    decreases t, 0, n
  {
    if n >= 2 {
      var key := t.content[n - 2].value;
      PairsIff(t, n - 2, parts);
      InUnder(key, LeafPaths(t.content[n - 1]), parts);
      if parts != [] {
        LeafPathsIff(t.content[n - 1], parts[1..]);
        if parts[0] == key { FindKeyIs(t.content, key, 0, n - 2); }
      }
    }
  }

  /** A path is listed exactly when it resolves to a leaf. */
  lemma {:induction false} LeafPathsIff(t: Tree, parts: seq<string>)
    requires WellKeyed(t)
    ensures parts in LeafPaths(t) <==> LeafAt(t, parts)
    decreases t, 1, 0
  {
    if t.kind == MappingNode {
      PairsIff(t, |t.content|, parts);
      if parts != [] { LeafBelow(t, parts); }
    }
  }

  predicate AllDistinct<T(==)>(s: seq<T>) { forall i, j | 0 <= i < j < |s| :: s[i] != s[j] }

  lemma {:induction false} DistinctConcat<T>(a: seq<T>, b: seq<T>)
    requires AllDistinct(a) && AllDistinct(b) && forall x | x in a :: x !in b
    ensures AllDistinct(a + b)
  {
    forall i, j | 0 <= i < j < |a + b| ensures (a + b)[i] != (a + b)[j] {
      if i < |a| <= j { assert a[i] !in b; }
    }
  }

  lemma {:induction false} DistinctUnder(key: string, ps: seq<seq<string>>)
    requires AllDistinct(ps)
    ensures AllDistinct(Under(key, ps))
  {
    var us := Under(key, ps);
    forall i, j | 0 <= i < j < |us| ensures us[i] != us[j] {
      assert us[i][1..] == ps[i] && us[j][1..] == ps[j];
    }
  }

  lemma {:induction false} PairsDistinct(t: Tree, n: nat)
    requires WellKeyed(t) && t.kind == MappingNode && n <= |t.content| && n % 2 == 0
    ensures AllDistinct(PathsOfPairs(t, n))
    decreases t, 0, n
  {
    if n >= 2 {
      var key, ps := t.content[n - 2].value, LeafPaths(t.content[n - 1]);
      PairsDistinct(t, n - 2);
      LeafPathsDistinct(t.content[n - 1]);
      DistinctUnder(key, ps);
      forall parts | parts in PathsOfPairs(t, n - 2) ensures parts !in Under(key, ps) {
        PairsIff(t, n - 2, parts);
        InUnder(key, ps, parts);
        FindKeyIs(t.content, key, 0, n - 2);
      }
      DistinctConcat(PathsOfPairs(t, n - 2), Under(key, ps));
    }
  }

  lemma {:induction false} LeafPathsDistinct(t: Tree)
    requires WellKeyed(t)
    ensures AllDistinct(LeafPaths(t))
    decreases t, 1, 0
  {
    if t.kind == MappingNode { PairsDistinct(t, |t.content|); }
  }

  lemma {:induction false} LeafKeysGood(t: Tree, parts: seq<string>)
    requires WellKeyed(t) && LeafAt(t, parts)
    ensures AllGood(parts)
    decreases parts
  {
    if parts != [] {
      LeafBelow(t, parts);
      LeafKeysGood(Child(t, parts[0]).value, parts[1..]);
      assert parts == [parts[0]] + parts[1..];
    }
  }

  lemma {:induction false} DottedIsJoin(prefix: string, parts: seq<string>)
    requires AllGood(parts)
    ensures Dotted(prefix, parts) ==
      if prefix == "" then Join(parts) else if parts == [] then prefix else prefix + "." + Join(parts)
    decreases parts
  {
    if parts != [] {
      var next := Extended(prefix, parts[0]);
      DottedIsJoin(next, parts[1..]);
      if |parts| > 1 && prefix != "" {
        assert prefix + "." + parts[0] + "." + Join(parts[1..]) == prefix + "." + (parts[0] + "." + Join(parts[1..]));
      }
    }
  }

  /** A configuration file's tree: a well-keyed mapping, bare or in a document. */
  predicate WellFormedRoot(root: Tree) {
    && Body(root).kind == MappingNode && WellKeyed(Body(root))
    && (root.kind == DocumentNode ==> |root.content| == 1)
  }

  lemma {:induction false} LeafPathsOfRoot(root: Tree)
    requires WellFormedRoot(root)
    ensures LeafPaths(root) == LeafPaths(Body(root))
  {
    if root.kind == DocumentNode {
      assert PathsOfKids(root, 1) == PathsOfKids(root, 0) + LeafPaths(root.content[0]);
    }
  }

  lemma {:induction false} ListedPath(root: Tree, i: nat)
    requires WellFormedRoot(root) && i < |LeafPaths(root)|
    ensures var parts := LeafPaths(root)[i];
            LeafAt(Body(root), parts) && Dotted("", parts) == Join(parts) && Split(Join(parts)) == parts
  {
    var parts := LeafPaths(root)[i];
    LeafPathsOfRoot(root);
    LeafPathsIff(Body(root), parts);
    LeafKeysGood(Body(root), parts);
    DottedIsJoin("", parts);
    SplitJoin('.', parts);
  }

  /** `ConfigTreeKeys` lists a path exactly when reading it gives a node that is no mapping. */
  lemma {:induction false} ListedIffLeaf(root: Tree, path: string)
    requires WellFormedRoot(root)
    ensures path in DottedAll("", LeafPaths(root))
            <==> Get(root, path).Success? && Get(root, path).value.kind != MappingNode
  {
    var ps, keys, parts := LeafPaths(root), DottedAll("", LeafPaths(root)), Split(path);
    if path in keys {
      var i :| 0 <= i < |keys| && keys[i] == path;
      ListedPath(root, i);
    }
    if LeafAt(Body(root), parts) {
      LeafPathsOfRoot(root);
      LeafPathsIff(Body(root), parts);
      var i :| 0 <= i < |ps| && ps[i] == parts;
      ListedPath(root, i);
      JoinSplit('.', path);
      assert keys[i] == path;
    }
  }

  /** No path is listed twice. */
  lemma {:induction false} ListedOnce(root: Tree)
    requires WellFormedRoot(root)
    ensures AllDistinct(DottedAll("", LeafPaths(root)))
  {
    var ps, keys := LeafPaths(root), DottedAll("", LeafPaths(root));
    LeafPathsOfRoot(root);
    LeafPathsDistinct(Body(root));
    forall i, j | 0 <= i < j < |keys| ensures keys[i] != keys[j] {
      ListedPath(root, i);
      ListedPath(root, j);
    }
  }
}
