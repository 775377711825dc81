/** `flatten` of `scripts/verify-translations.js`: a nested translation file as one flat object. */
module Flatten {
  import opened Wrappers
  import opened SeqFacts
  import opened JsText

  /** A parsed value: an object with its entries in order, or anything else (null and arrays included). */
  datatype Node<T> = Leaf(value: T) | Branch(entries: seq<Entry<T>>)
  datatype Entry<T> = Entry(key: string, node: Node<T>)

  const META := "_meta"

  /** An object has one entry per key. */
  ghost predicate Valid<T(!new)>(node: Node<T>) {
    node.Branch? ==>
      && (forall i, j :: 0 <= i < j < |node.entries| ==> node.entries[i].key != node.entries[j].key)
      && (forall i :: 0 <= i < |node.entries| ==> Valid(node.entries[i].node))
  }

  // ---------- Flat keys ----------

  /** The key under a prefix; an empty prefix adds no dot. */
  function Extend(prefix: string, key: string): string {
    if prefix == "" then key else prefix + "." + key
  }

  function FlatKey(prefix: string, path: seq<string>): string
    decreases path
  {
    if path == [] then prefix else FlatKey(Extend(prefix, path[0]), path[1..])
  }

  predicate Dotless(path: seq<string>) {
    forall i :: 0 <= i < |path| ==> '.' !in path[i]
  }

  /** The paths a flat key spells out: no dot in a key, and no empty key before another. */
  predicate Spelled(path: seq<string>) {
    path != [] && Dotless(path) && (|path| == 1 || path[0] != "")
  }

  lemma {:induction false} FlatKeyJoins(prefix: string, path: seq<string>)
    requires prefix != ""
    ensures FlatKey(prefix, path) == Join([prefix] + path, '.')
    decreases path
  {
    if path != [] {
      FlatKeyJoins(prefix + "." + path[0], path[1..]);
      var rest := [prefix] + path;
      assert rest[1..] == path;
      if |path| > 1 {
        var shorter := [prefix + "." + path[0]] + path[1..];
        assert shorter[1..] == path[1..];
        assert prefix + "." + path[0] + ['.'] + Join(path[1..], '.')
            == prefix + ['.'] + (path[0] + ['.'] + Join(path[1..], '.'));
      }
    }
  }

  lemma {:induction false} SpelledJoins(path: seq<string>)
    requires path != [] && (|path| == 1 || path[0] != "")
    ensures FlatKey("", path) == Join(path, '.')
  {
    if path[0] != "" {
      FlatKeyJoins(path[0], path[1..]);
      assert [path[0]] + path[1..] == path;
    }
  }

  lemma {:induction false} NoExtraTokens(path: seq<string>)
    requires path != [] && Dotless(path)
    ensures |Split(FlatKey("", path), '.')| <= |path|
  {
    if |path| == 1 || path[0] != "" {
      SpelledJoins(path);
      SplitJoin(path, '.');
    } else {
      NoExtraTokens(path[1..]);
    }
  }

  /** A flat key says which path it came from, exactly when the path is spelled out by it. */
  lemma {:induction false} FlatKeyIsExact(path: seq<string>)
    requires path != []
    ensures Split(FlatKey("", path), '.') == path <==> Spelled(path)
  {
    if Spelled(path) {
      SpelledJoins(path);
      SplitJoin(path, '.');
    } else if Dotless(path) {
      NoExtraTokens(path[1..]);
    } else {
      JoinSplit(FlatKey("", path), '.');
    }
  }

  // ---------- When two flat keys are the same ----------

  /** A path without its leading empty keys; the last key stays. */
  function Stripped(path: seq<string>): seq<string> {
    if |path| > 1 && path[0] == "" then Stripped(path[1..]) else path
  }

  /** The parts between the dots, key by key. */
  function Cuts(path: seq<string>): seq<string> {
    if path == [] then [] else Split(path[0], '.') + Cuts(path[1..])
  }

  lemma {:induction false} JoinBoth(x: seq<string>, y: seq<string>)
    requires x != [] && y != []
    ensures Join(x + y, '.') == Join(x, '.') + "." + Join(y, '.')
  {
    if |x| == 1 {
      assert (x + y)[1..] == y;
    } else {
      JoinBoth(x[1..], y);
      assert (x + y)[1..] == x[1..] + y;
    }
  }

  lemma {:induction false} SplitAtDot(a: string, b: string)
    ensures Split(a + "." + b, '.') == Split(a, '.') + Split(b, '.')
  {
    var tokens := Split(a, '.') + Split(b, '.');
    JoinSplit(a, '.');
    JoinSplit(b, '.');
    JoinBoth(Split(a, '.'), Split(b, '.'));
    SplitJoin(tokens, '.');
  }

  lemma {:induction false} PrefixedCuts(prefix: string, path: seq<string>)
    requires prefix != ""
    ensures Split(FlatKey(prefix, path), '.') == Split(prefix, '.') + Cuts(path)
    decreases path
  {
    if path != [] {
      SplitAtDot(prefix, path[0]);
      PrefixedCuts(prefix + "." + path[0], path[1..]);
      Assoc(Split(prefix, '.'), Split(path[0], '.'), Cuts(path[1..]));
    }
  }

  lemma {:induction false} FlatKeyCuts(path: seq<string>)
    requires path != []
    ensures Split(FlatKey("", path), '.') == Cuts(Stripped(path))
  {
    if path[0] != "" {
      PrefixedCuts(path[0], path[1..]);
    } else if |path| > 1 {
      FlatKeyCuts(path[1..]);
    }
  }

  /** Two paths get the same flat key if and only if they have the same parts once leading empty keys are dropped. */
  lemma {:induction false} FlatKeysMeetExactly(p: seq<string>, q: seq<string>)
    requires p != [] && q != []
    ensures FlatKey("", p) == FlatKey("", q) <==> Cuts(Stripped(p)) == Cuts(Stripped(q))
  {
    FlatKeyCuts(p);
    FlatKeyCuts(q);
    JoinSplit(FlatKey("", p), '.');
    JoinSplit(FlatKey("", q), '.');
  }

  // ---------- The leaves ----------

  datatype PathLeaf<T> = PathLeaf(path: seq<string>, value: T)

  ghost function Under<T>(key: string, leaves: seq<PathLeaf<T>>): seq<PathLeaf<T>> {
    if leaves == [] then [] else
      var last := leaves[|leaves| - 1];
      Under(key, leaves[..|leaves| - 1]) + [PathLeaf([key] + last.path, last.value)]
  }

  /** The leaves of the first `n` entries in order, without anything under a `_meta` key. */
  ghost function LeavesOf<T>(entries: seq<Entry<T>>, n: nat): seq<PathLeaf<T>>
    requires n <= |entries|
    decreases entries, 0, n
  {
    if n == 0 then [] else LeavesOf(entries, n - 1) + EntryLeaves(entries, n - 1)
  }

  ghost function EntryLeaves<T>(entries: seq<Entry<T>>, i: nat): seq<PathLeaf<T>>
    requires i < |entries|
    decreases entries, 0, i
  {
    if entries[i].key == META then [] else Under(entries[i].key, Leaves(entries[i].node))
  }

  ghost function Leaves<T>(node: Node<T>): seq<PathLeaf<T>> {
    match node
    case Leaf(value) => [PathLeaf([], value)]
    case Branch(entries) => LeavesOf(entries, |entries|)
  }

  lemma {:induction false} LeavesOfFront<T>(a: seq<Entry<T>>, b: seq<Entry<T>>, n: nat)
    requires n <= |a|
    ensures LeavesOf(a + b, n) == LeavesOf(a, n)
  {
    if n > 0 {
      LeavesOfFront(a, b, n - 1);
      assert EntryLeaves(a + b, n - 1) == EntryLeaves(a, n - 1);
    }
  }

  lemma {:induction false} LeavesOfBack<T>(a: seq<Entry<T>>, b: seq<Entry<T>>, n: nat)
    requires n <= |b|
    ensures LeavesOf(a + b, |a| + n) == LeavesOf(a, |a|) + LeavesOf(b, n)
  {
    if n == 0 {
      LeavesOfFront(a, b, |a|);
      assert LeavesOf(a, |a|) + [] == LeavesOf(a, |a|);
    } else {
      LeavesOfBack(a, b, n - 1);
      assert EntryLeaves(a + b, |a| + n - 1) == EntryLeaves(b, n - 1);
      Assoc(LeavesOf(a, |a|), LeavesOf(b, n - 1), EntryLeaves(b, n - 1));
    }
  }

  /** The leaves stand in the order of the entries. */
  lemma {:induction false} LeavesInOrder<T>(a: seq<Entry<T>>, b: seq<Entry<T>>)
    ensures Leaves(Branch(a + b)) == Leaves(Branch(a)) + Leaves(Branch(b))
  {
    LeavesOfBack(a, b, |b|);
  }

  /** The entry an object has for a key. */
  function Child<T>(entries: seq<Entry<T>>, key: string, i: nat): (child: Option<nat>)
    requires i <= |entries|
    ensures child.Some? ==> i <= child.value < |entries| && entries[child.value].key == key
    ensures child == None ==> forall j :: i <= j < |entries| ==> entries[j].key != key
    decreases |entries| - i
  {
    if i == |entries| then None else if entries[i].key == key then Some(i) else Child(entries, key, i + 1)
  }

  /** Following a path through the nested objects. */
  function Walk<T>(node: Node<T>, path: seq<string>): Option<T>
    decreases path
  {
    match node
    case Leaf(value) => if path == [] then Some(value) else None
    case Branch(entries) =>
      if path == [] || path[0] == META then None else
        match Child(entries, path[0], 0)
        case Some(i) => Walk(entries[i].node, path[1..])
        case None => None
  }

  lemma {:induction false} InUnder<T>(key: string, leaves: seq<PathLeaf<T>>, leaf: PathLeaf<T>)
    ensures leaf in Under(key, leaves) <==>
      leaf.path != [] && leaf.path[0] == key && PathLeaf(leaf.path[1..], leaf.value) in leaves
  {
    if leaves != [] {
      var n := |leaves| - 1;
      InUnder(key, leaves[..n], leaf);
      assert leaves == leaves[..n] + [leaves[n]];
      var last := PathLeaf([key] + leaves[n].path, leaves[n].value);
      assert last.path[1..] == leaves[n].path;
      assert leaf == last <==>
        leaf.path != [] && leaf.path[0] == key && PathLeaf(leaf.path[1..], leaf.value) == leaves[n] by {
        if leaf.path != [] {
          assert leaf.path == [leaf.path[0]] + leaf.path[1..];
        }
      }
    }
  }

  lemma {:induction false} InLeavesOf<T>(entries: seq<Entry<T>>, n: nat, leaf: PathLeaf<T>)
    requires n <= |entries|
    ensures leaf in LeavesOf(entries, n) <==> exists i :: 0 <= i < n && leaf in EntryLeaves(entries, i)
  {
    if n > 0 {
      InLeavesOf(entries, n - 1, leaf);
      assert LeavesOf(entries, n) == LeavesOf(entries, n - 1) + EntryLeaves(entries, n - 1);
    }
  }

  /** The leaves are exactly what walking a path can end in. */
  lemma {:induction false} LeavesAreWalks<T(!new)>(node: Node<T>, path: seq<string>, value: T)
    requires Valid(node)
    ensures PathLeaf(path, value) in Leaves(node) <==> Walk(node, path) == Some(value)
    decreases path
  {
    if node.Branch? {
      var entries := node.entries;
      var leaf := PathLeaf(path, value);
      InLeavesOf(entries, |entries|, leaf);
      forall i | 0 <= i < |entries|
        ensures leaf in EntryLeaves(entries, i) <==>
          path != [] && entries[i].key == path[0] != META && PathLeaf(path[1..], value) in Leaves(entries[i].node)
      {
        InUnder(entries[i].key, Leaves(entries[i].node), leaf);
      }
      if path != [] && path[0] != META && Child(entries, path[0], 0).Some? {
        var c := Child(entries, path[0], 0).value;
        LeavesAreWalks(entries[c].node, path[1..], value);
        forall i | 0 <= i < |entries| && i != c ensures leaf !in EntryLeaves(entries, i) {
          assert entries[i].key != path[0];
        }
        assert leaf in LeavesOf(entries, |entries|) <==> leaf in EntryLeaves(entries, c);
        assert leaf in EntryLeaves(entries, c) <==> PathLeaf(path[1..], value) in Leaves(entries[c].node);
        assert Walk(node, path) == Walk(entries[c].node, path[1..]);
      }
    }
  }

  /** No path leads through a `_meta` key. */
  lemma {:induction false} WalksAvoidMeta<T>(node: Node<T>, path: seq<string>)
    requires Walk(node, path).Some?
    ensures "_meta" !in path
    decreases path
  {
    if node.Branch? {
      var i := Child(node.entries, path[0], 0).value;
      WalksAvoidMeta(node.entries[i].node, path[1..]);
      assert path == [path[0]] + path[1..];
    }
  }

  /** Any other key leads on into its entry; a value that is no object ends the path. */
  lemma {:induction false} WalkGoesOn<T(!new)>(entries: seq<Entry<T>>, i: nat, rest: seq<string>)
    requires Valid(Branch(entries)) && i < |entries| && entries[i].key != "_meta"
    ensures Walk(Branch(entries), [entries[i].key] + rest) == Walk(entries[i].node, rest)
    ensures entries[i].node.Leaf? && rest == [] ==>
      Walk(Branch(entries), [entries[i].key] + rest) == Some(entries[i].node.value)
  {
    var path := [entries[i].key] + rest;
    assert path[1..] == rest;
    var child := Child(entries, path[0], 0);
    assert child == Some(i);
  }

  // ---------- Flattening ----------

  /** Writing the leaves in order, later ones over earlier ones. */
  ghost function Written<T>(result: map<string, T>, leaves: seq<PathLeaf<T>>, prefix: string): map<string, T> {
    if leaves == [] then result else
      var last := leaves[|leaves| - 1];
      Written(result, leaves[..|leaves| - 1], prefix)[FlatKey(prefix, last.path) := last.value]
  }

  lemma {:induction false} WrittenBoth<T>(result: map<string, T>, a: seq<PathLeaf<T>>, b: seq<PathLeaf<T>>,
      prefix: string)
    ensures Written(result, a + b, prefix) == Written(Written(result, a, prefix), b, prefix)
  {
    if b == [] {
      assert a + b == a;
    } else {
      var n := |b| - 1;
      WrittenBoth(result, a, b[..n], prefix);
      assert (a + b)[..|a| + n] == a + b[..n];
    }
  }

  lemma {:induction false} WrittenUnder<T>(result: map<string, T>, key: string, leaves: seq<PathLeaf<T>>,
      prefix: string)
    ensures Written(result, Under(key, leaves), prefix) == Written(result, leaves, Extend(prefix, key))
  {
    if leaves != [] {
      var n := |leaves| - 1;
      WrittenUnder(result, key, leaves[..n], prefix);
      var under := Under(key, leaves[..n]);
      var last := PathLeaf([key] + leaves[n].path, leaves[n].value);
      assert (under + [last])[..|under|] == under;
      assert last.path[1..] == leaves[n].path;
    }
  }

  /** The accumulator that the recursive calls share. */
  class Flattener<T> {
    var result: map<string, T>

    constructor ()
      ensures result == map[]
    {
      result := map[];
    }

    method Flatten(node: Node<T>, prefix: string)
      modifies this
      ensures result == if node.Leaf? then old(result) else Written(old(result), Leaves(node), prefix)
      decreases node
    {
      if node.Leaf? {
        return;
      }
      for i := 0 to |node.entries|
        invariant result == Written(old(result), LeavesOf(node.entries, i), prefix)
      {
        var key, child := node.entries[i].key, node.entries[i].node;
        WrittenBoth(old(result), LeavesOf(node.entries, i), EntryLeaves(node.entries, i), prefix);
        if key == META {
          continue;
        }
        WrittenUnder(result, key, Leaves(child), prefix);
        var flatKey := Extend(prefix, key);
        if child.Branch? {
          Flatten(child, flatKey);
        } else {
          ghost var leaf := PathLeaf([], child.value);
          assert [leaf][..0] == [] && FlatKey(flatKey, []) == flatKey;
          result := result[flatKey := child.value];
        }
      }
    }
  }

  /** Leaf `i` is the last one to write the key. */
  ghost predicate LastWriter<T>(leaves: seq<PathLeaf<T>>, key: string, i: int) {
    && 0 <= i < |leaves| && FlatKey("", leaves[i].path) == key
    && forall j :: i < j < |leaves| ==> FlatKey("", leaves[j].path) != key
  }

  lemma {:induction false} WrittenKeys<T>(leaves: seq<PathLeaf<T>>, key: string)
    ensures key in Written(map[], leaves, "") <==> exists i :: 0 <= i < |leaves| && FlatKey("", leaves[i].path) == key
  {
    if leaves != [] {
      var n := |leaves| - 1;
      WrittenKeys(leaves[..n], key);
      assert forall i :: 0 <= i < n ==> leaves[..n][i] == leaves[i];
    }
  }

  lemma {:induction false} LastOfMore<T>(leaves: seq<PathLeaf<T>>, key: string, i: nat)
    requires leaves != [] && FlatKey("", leaves[|leaves| - 1].path) != key
    requires LastWriter(leaves[..|leaves| - 1], key, i)
    ensures LastWriter(leaves, key, i)
  {
    var init := leaves[..|leaves| - 1];
    forall j | i < j < |leaves| ensures FlatKey("", leaves[j].path) != key {
      if j < |init| {
        assert init[j] == leaves[j];
      }
    }
    assert init[i] == leaves[i];
  }

  /** Whatever the keys: every entry comes from a leaf, and where flat keys collide the last leaf wins. */
  lemma {:induction false} LastLeafWins<T>(leaves: seq<PathLeaf<T>>, key: string)
    ensures key in Written(map[], leaves, "") <==> exists i :: 0 <= i < |leaves| && FlatKey("", leaves[i].path) == key
    ensures key in Written(map[], leaves, "") ==>
      exists i :: LastWriter(leaves, key, i) && Written(map[], leaves, "")[key] == leaves[i].value
  {
    hide FlatKey;
    WrittenKeys(leaves, key);
    if key in Written(map[], leaves, "") {
      var n := |leaves| - 1;
      if FlatKey("", leaves[n].path) == key {
        assert LastWriter(leaves, key, n);
      } else {
        LastLeafWins(leaves[..n], key);
        var i :| LastWriter(leaves[..n], key, i) && Written(map[], leaves[..n], "")[key] == leaves[..n][i].value;
        LastOfMore(leaves, key, i);
      }
    }
  }

  function Lookup<T>(m: map<string, T>, key: string): Option<T> {
    if key in m then Some(m[key]) else None
  }

  /**
   When every leaf's path is spelled out by its flat key, looking a key up in the flat object is the
   same as following its dot-separated parts through the nested one; so no two leaves collide.
   */
  lemma {:induction false} FlatLookupIsWalk<T(!new)>(root: Node<T>, key: string)
    requires Valid(root) && root.Branch?
    requires forall path :: Walk(root, path).Some? ==> Spelled(path)
    ensures Lookup(Written(map[], Leaves(root), ""), key) == Walk(root, Split(key, '.'))
  {
    var leaves := Leaves(root);
    var flat := Written(map[], leaves, "");
    var path := Split(key, '.');
    LastLeafWins(leaves, key);
    JoinSplit(key, '.');
    if Walk(root, path).Some? {
      SpelledJoins(path);
      var value := Walk(root, path).value;
      LeavesAreWalks(root, path, value);
      var i :| 0 <= i < |leaves| && leaves[i] == PathLeaf(path, value);
      assert key in flat;
    }
    if key in flat {
      var i :| LastWriter(leaves, key, i) && flat[key] == leaves[i].value;
      assert leaves[i] == PathLeaf(leaves[i].path, leaves[i].value);
      LeavesAreWalks(root, leaves[i].path, leaves[i].value);
      FlatKeyIsExact(leaves[i].path);
    }
  }

  /** Keys that are dot-free everywhere and not empty at the top. */
  ghost predicate DotlessKeys<T(!new)>(node: Node<T>) {
    node.Branch? ==> forall i :: 0 <= i < |node.entries| ==>
      '.' !in node.entries[i].key && DotlessKeys(node.entries[i].node)
  }

  lemma {:induction false} DotlessWalk<T(!new)>(node: Node<T>, path: seq<string>)
    requires DotlessKeys(node) && Walk(node, path).Some?
    ensures Dotless(path)
    decreases path
  {
    if node.Branch? {
      var i := Child(node.entries, path[0], 0).value;
      DotlessWalk(node.entries[i].node, path[1..]);
      assert path == [path[0]] + path[1..];
    }
  }

  /** Dot-free keys, none of them empty at the top level, are enough. */
  lemma {:induction false} DotlessKeysFlattenExactly<T(!new)>(root: Node<T>, key: string)
    requires Valid(root) && root.Branch? && DotlessKeys(root)
    requires forall i :: 0 <= i < |root.entries| ==> root.entries[i].key != ""
    ensures Lookup(Written(map[], Leaves(root), ""), key) == Walk(root, Split(key, '.'))
  {
    forall path | Walk(root, path).Some? ensures Spelled(path) {
      DotlessWalk(root, path);
    }
    FlatLookupIsWalk(root, key);
  }

  // ---------- One entry per leaf ----------

  ghost predicate DistinctPaths<T>(leaves: seq<PathLeaf<T>>) {
    forall i, j :: 0 <= i < j < |leaves| ==> leaves[i].path != leaves[j].path
  }

  ghost predicate DistinctKeys<T>(leaves: seq<PathLeaf<T>>) {
    forall i, j :: 0 <= i < j < |leaves| ==> FlatKey("", leaves[i].path) != FlatKey("", leaves[j].path)
  }

  lemma {:induction false} UnderAt<T>(key: string, leaves: seq<PathLeaf<T>>, i: nat)
    requires i < |leaves|
    ensures |Under(key, leaves)| == |leaves|
    ensures Under(key, leaves)[i] == PathLeaf([key] + leaves[i].path, leaves[i].value)
  {
    var n := |leaves| - 1;
    if i < n {
      UnderAt(key, leaves[..n], i);
    } else if n > 0 {
      UnderAt(key, leaves[..n], 0);
    }
  }

  lemma {:induction false} UnderLength<T>(key: string, leaves: seq<PathLeaf<T>>)
    ensures |Under(key, leaves)| == |leaves|
  {
    if leaves != [] {
      UnderAt(key, leaves, 0);
    }
  }

  lemma {:induction false} UnderDistinct<T>(key: string, leaves: seq<PathLeaf<T>>)
    requires DistinctPaths(leaves)
    ensures DistinctPaths(Under(key, leaves))
    ensures forall leaf :: leaf in Under(key, leaves) ==> leaf.path != [] && leaf.path[0] == key
  {
    UnderLength(key, leaves);
    forall i, j | 0 <= i < j < |leaves| ensures Under(key, leaves)[i].path != Under(key, leaves)[j].path {
      UnderAt(key, leaves, i);
      UnderAt(key, leaves, j);
      assert ([key] + leaves[i].path)[1..] == leaves[i].path && ([key] + leaves[j].path)[1..] == leaves[j].path;
    }
    forall leaf | leaf in Under(key, leaves) ensures leaf.path != [] && leaf.path[0] == key {
      InUnder(key, leaves, leaf);
    }
  }

  lemma {:induction false} DistinctBoth<T>(a: seq<PathLeaf<T>>, b: seq<PathLeaf<T>>)
    requires DistinctPaths(a) && DistinctPaths(b)
    requires forall x, y :: x in a && y in b ==> x.path != y.path
    ensures DistinctPaths(a + b)
  {
    forall i, j | 0 <= i < j < |a + b| ensures (a + b)[i].path != (a + b)[j].path {
      if i < |a| <= j {
        assert a[i] in a && b[j - |a|] in b;
      }
    }
  }

  lemma {:induction false} LeavesDistinct<T(!new)>(node: Node<T>)
    requires Valid(node)
    ensures DistinctPaths(Leaves(node))
    decreases node, 0
  {
    if node.Branch? {
      EntriesDistinct(node, |node.entries|);
    }
  }

  lemma {:induction false} EntriesDistinct<T(!new)>(node: Node<T>, n: nat)
    requires Valid(node) && node.Branch? && n <= |node.entries|
    ensures DistinctPaths(LeavesOf(node.entries, n))
    decreases node, 0, n
  {
    var entries := node.entries;
    if n > 0 {
      EntriesDistinct(node, n - 1);
      LeavesDistinct(entries[n - 1].node);
      UnderDistinct(entries[n - 1].key, Leaves(entries[n - 1].node));
      forall x, y | x in LeavesOf(entries, n - 1) && y in EntryLeaves(entries, n - 1) ensures x.path != y.path {
        EntryKey(entries, n - 1, x);
      }
      DistinctBoth(LeavesOf(entries, n - 1), EntryLeaves(entries, n - 1));
    }
  }

  /** A leaf of the first `n` entries starts with the key of one of them. */
  lemma {:induction false} EntryKey<T>(entries: seq<Entry<T>>, n: nat, leaf: PathLeaf<T>)
    requires n <= |entries| && leaf in LeavesOf(entries, n)
    ensures leaf.path != [] && exists i :: 0 <= i < n && entries[i].key == leaf.path[0]
  {
    InLeavesOf(entries, n, leaf);
    var i :| 0 <= i < n && leaf in EntryLeaves(entries, i);
    InUnder(entries[i].key, Leaves(entries[i].node), leaf);
  }

  /** There are as many entries as leaves if and only if all flat keys differ. */
  lemma {:induction false} CountsExactly<T>(leaves: seq<PathLeaf<T>>)
    ensures |Written(map[], leaves, "")| <= |leaves|
    ensures |Written(map[], leaves, "")| == |leaves| <==> DistinctKeys(leaves)
  {
    if leaves != [] {
      var n := |leaves| - 1;
      var key := FlatKey("", leaves[n].path);
      var before := Written(map[], leaves[..n], "");
      CountsExactly(leaves[..n]);
      WrittenKeys(leaves[..n], key);
      assert Written(map[], leaves, "").Keys == before.Keys + {key};
      LastKeyDistinct(leaves);
    }
  }

  lemma {:induction false} LastKeyDistinct<T>(leaves: seq<PathLeaf<T>>)
    requires leaves != []
    ensures var n := |leaves| - 1; var before := leaves[..n];
      DistinctKeys(leaves) <==>
      && DistinctKeys(before)
      && forall i :: 0 <= i < |before| ==> FlatKey("", before[i].path) != FlatKey("", leaves[n].path)
  {
    hide FlatKey;
    var before := leaves[..|leaves| - 1];
    assert forall i :: 0 <= i < |before| ==> before[i] == leaves[i];
  }

  /** No two different leaf paths have the same parts. */
  ghost predicate PathsApart<T(!new)>(root: Node<T>) {
    forall p, q :: Walk(root, p).Some? && Walk(root, q).Some? && p != q ==> Cuts(Stripped(p)) != Cuts(Stripped(q))
  }

  lemma {:induction false} LeafIsWalk<T(!new)>(root: Node<T>, i: nat)
    requires Valid(root) && root.Branch? && i < |Leaves(root)|
    ensures Walk(root, Leaves(root)[i].path) == Some(Leaves(root)[i].value) && Leaves(root)[i].path != []
  {
    var leaf := Leaves(root)[i];
    assert PathLeaf(leaf.path, leaf.value) in Leaves(root);
    LeavesAreWalks(root, leaf.path, leaf.value);
  }

  lemma {:induction false} WalkIsLeaf<T(!new)>(root: Node<T>, path: seq<string>) returns (i: nat)
    requires Valid(root) && root.Branch? && Walk(root, path).Some?
    ensures i < |Leaves(root)| && Leaves(root)[i] == PathLeaf(path, Walk(root, path).value)
  {
    LeavesAreWalks(root, path, Walk(root, path).value);
    i :| 0 <= i < |Leaves(root)| && Leaves(root)[i] == PathLeaf(path, Walk(root, path).value);
  }

  lemma {:induction false} KeysApartExactly<T(!new)>(root: Node<T>)
    requires Valid(root) && root.Branch?
    ensures DistinctKeys(Leaves(root)) <==> PathsApart(root)
  {
    hide Leaves, Walk, FlatKey, Cuts, Stripped;
    var leaves := Leaves(root);
    LeavesDistinct(root);
    if DistinctKeys(leaves) {
      forall p, q | Walk(root, p).Some? && Walk(root, q).Some? && p != q
        ensures Cuts(Stripped(p)) != Cuts(Stripped(q))
      {
        var i := WalkIsLeaf(root, p);
        var j := WalkIsLeaf(root, q);
        LeafIsWalk(root, i);
        LeafIsWalk(root, j);
        FlatKeysMeetExactly(p, q);
        assert i < j || j < i;
      }
    }
    if PathsApart(root) {
      forall i, j | 0 <= i < j < |leaves| ensures FlatKey("", leaves[i].path) != FlatKey("", leaves[j].path) {
        LeafIsWalk(root, i);
        LeafIsWalk(root, j);
        FlatKeysMeetExactly(leaves[i].path, leaves[j].path);
      }
    }
  }

  /** The flat object has one entry per leaf if and only if no two different leaf paths have the same parts. */
  lemma {:induction false} OneEntryPerLeafExactly<T(!new)>(root: Node<T>)
    requires Valid(root) && root.Branch?
    ensures |Written(map[], Leaves(root), "")| == |Leaves(root)| <==> PathsApart(root)
  {
    CountsExactly(Leaves(root));
    KeysApartExactly(root);
  }

  /** And each entry then holds its own leaf's value. */
  lemma {:induction false} ApartLeavesKeepValues<T(!new)>(root: Node<T>, path: seq<string>)
    requires Valid(root) && root.Branch? && PathsApart(root) && Walk(root, path).Some?
    ensures Lookup(Written(map[], Leaves(root), ""), FlatKey("", path)) == Walk(root, path)
  {
    hide Leaves, Walk, FlatKey, Cuts, Stripped, Written;
    var leaves, key := Leaves(root), FlatKey("", path);
    KeysApartExactly(root);
    var i := WalkIsLeaf(root, path);
    LastLeafWins(leaves, key);
    var j :| LastWriter(leaves, key, j) && Written(map[], leaves, "")[key] == leaves[j].value;
    assert i == j;
  }

  /** A dotted key can collide with a path: one entry is left for two leaves, and the later value wins. */
  lemma {:induction false} DottedKeyCollides(first: int, second: int)
    ensures var root := Branch([Entry("a.b", Leaf(first)), Entry("a", Branch([Entry("b", Leaf(second))]))]);
      Leaves(root) == [PathLeaf(["a.b"], first), PathLeaf(["a", "b"], second)]
      && Written(map[], Leaves(root), "") == map["a.b" := second]
  {
    hide Written, FlatKey, Under;
    var inner := [Entry("b", Leaf(second))];
    var entries := [Entry("a.b", Leaf(first))] + [Entry("a", Branch(inner))];
    LeavesOfOne("b", Leaf(second), inner);
    assert EntryLeaves(entries, 0) == [PathLeaf(["a.b"], first)] by {
      UnderOne("a.b", PathLeaf([], first));
      assert |"a.b"| != |META| && ["a.b"] + [] == ["a.b"];
    }
    assert EntryLeaves(entries, 1) == [PathLeaf(["a", "b"], second)] by {
      UnderOne("a", PathLeaf(["b"], second));
      assert |"a"| != |META| && ["a"] + ["b"] == ["a", "b"];
    }
    TwoEntries(entries);
    DottedWrites(first, second);
    assert entries == [Entry("a.b", Leaf(first)), Entry("a", Branch(inner))];
  }

  lemma {:induction false} LeavesOfOne<T>(key: string, node: Node<T>, entries: seq<Entry<T>>)
    requires entries == [Entry(key, node)] && node.Leaf? && |key| != |META|
    ensures Leaves(Branch(entries)) == [PathLeaf([key], node.value)]
  {
    UnderOne(key, PathLeaf([], node.value));
    assert [key] + [] == [key];
    assert LeavesOf(entries, 0) == [] && LeavesOf(entries, 1) == [] + EntryLeaves(entries, 0);
  }

  lemma {:induction false} TwoEntries<T>(entries: seq<Entry<T>>)
    requires |entries| == 2
    ensures Leaves(Branch(entries)) == EntryLeaves(entries, 0) + EntryLeaves(entries, 1)
  {
    assert LeavesOf(entries, 0) == [] && LeavesOf(entries, 1) == [] + EntryLeaves(entries, 0);
  }

  lemma {:induction false} DottedWrites(first: int, second: int)
    ensures Written(map[], [PathLeaf(["a.b"], first), PathLeaf(["a", "b"], second)], "") == map["a.b" := second]
  {
    var one, two := PathLeaf(["a.b"], first), PathLeaf(["a", "b"], second);
    assert [one, two][..1] == [one] && [one][..0] == [];
    assert FlatKey("", two.path) == "a.b" by {
      assert two.path[1..] == ["b"] && ["b"][1..] == [] && "a" + "." + "b" == "a.b";
      assert FlatKey("", two.path) == FlatKey("a", ["b"]) == FlatKey("a" + "." + "b", []);
    }
    assert FlatKey("", one.path) == FlatKey("a.b", []) by {
      assert one.path[1..] == [];
    }
    assert Written(map[], [one], "") == map["a.b" := first];
  }

  lemma {:induction false} UnderOne<T>(key: string, leaf: PathLeaf<T>)
    ensures Under(key, [leaf]) == [PathLeaf([key] + leaf.path, leaf.value)]
  {
    assert [leaf][..0] == [] && Under<T>(key, []) == [];
  }
}
