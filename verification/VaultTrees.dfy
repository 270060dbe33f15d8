/** The vault tree: a flat map from path strings that is meant to be a hierarchy. */
module VaultTrees {
  import opened Paths
  import opened Wrappers

  datatype VaultNode = VaultNode(value: string, isFolder: bool)

  type Nodes = map<string, VaultNode>

  predicate CanonicalKeys(nodes: Nodes) {
    forall k | k in nodes :: Canonical(k)
  }

  /** No secret lies above another key. */
  predicate Hierarchical(nodes: Nodes)
    requires CanonicalKeys(nodes)
  {
    forall s, k | s in nodes && k in nodes && Segments(s) < Segments(k) :: nodes[s].isFolder
  }

  /** The invariant of the stored tree. */
  predicate WellFormed(nodes: Nodes) {
    && (forall k | k in nodes :: ValidKey(k))
    && Hierarchical(nodes)
  }

  // ---------- checkPathConflict and the modifiers of /update and /delete ----------

  datatype Conflict = OtherKind(existingIsFolder: bool) | HasChild(child: string) | UnderSecret(secret: string)

  /** In terms of string prefixes, as the code tests it. */
  predicate ConflictFree(nodes: Nodes, path: string, isFolder: bool) {
    && (path in nodes ==> nodes[path].isFolder == isFolder)
    && (!isFolder ==> forall k | k in nodes :: k == path || !(ChildPrefix(path) <= k))
    && (forall k | k in nodes :: k == path || nodes[k].isFolder || !(ChildPrefix(k) <= path))
  }

  /** checkPathConflict. Go iterates over maps in an arbitrary order: each loop takes any
      remaining key. Which conflict is reported may depend on that order, whether there is
      one does not. */
  method CheckPathConflict(nodes: Nodes, path: string, isFolder: bool) returns (conflict: Option<Conflict>)
    ensures conflict.None? <==> ConflictFree(nodes, NormalizePath(path), isFolder)
    ensures conflict.Some? ==>
              var newPath := NormalizePath(path);
              match conflict.value
              case OtherKind(b) => newPath in nodes && nodes[newPath].isFolder == b && b != isFolder
              case HasChild(k) => !isFolder && k in nodes && k != newPath && ChildPrefix(newPath) <= k
              case UnderSecret(k) => k in nodes && k != newPath && !nodes[k].isFolder && ChildPrefix(k) <= newPath
  {
    var newPath := NormalizePath(path);
    if newPath in nodes && nodes[newPath].isFolder != isFolder {
      return Some(OtherKind(nodes[newPath].isFolder));
    }
    if !isFolder {
      var todo := nodes.Keys;
      while todo != {}
        invariant todo <= nodes.Keys
        invariant forall k | k in nodes && k !in todo :: k == newPath || !(ChildPrefix(newPath) <= k)
        decreases todo
      {
        var vaultPath :| vaultPath in todo;
        if vaultPath != newPath && ChildPrefix(newPath) <= vaultPath {
          return Some(HasChild(vaultPath));
        }
        todo := todo - {vaultPath};
      }
    }
    var rest := nodes.Keys;
    while rest != {}
      invariant rest <= nodes.Keys
      invariant forall k | k in nodes && k !in rest :: k == newPath || nodes[k].isFolder || !(ChildPrefix(k) <= newPath)
      decreases rest
    {
      var vaultPath :| vaultPath in rest;
      if vaultPath != newPath && !nodes[vaultPath].isFolder && ChildPrefix(vaultPath) <= newPath {
        return Some(UnderSecret(vaultPath));
      }
      rest := rest - {vaultPath};
    }
    return None;
  }

  /** What the /update modifier makes of a tree; None when it returns an error. */
  function UpdateNodes(nodes: Nodes, path: string, value: string, isFolder: bool): Option<Nodes> {
    if ConflictFree(nodes, path, isFolder) then Some(nodes[path := VaultNode(value, isFolder)]) else None
  }

  function DeleteNode(nodes: Nodes, path: string): Nodes {
    map k | k in nodes && k != path :: nodes[k]
  }

  /** On a hierarchical tree with canonical keys the prefix loops decide exactly whether the
      insertion keeps the node's kind and the hierarchy. */
  lemma ConflictCheckIsExact(nodes: Nodes, path: string, value: string, isFolder: bool)
    requires CanonicalKeys(nodes) && Hierarchical(nodes) && Canonical(path)
    ensures ConflictFree(nodes, path, isFolder) <==>
            (path in nodes ==> nodes[path].isFolder == isFolder) &&
              Hierarchical(nodes[path := VaultNode(value, isFolder)])
  {
    var after := nodes[path := VaultNode(value, isFolder)];
    forall k | k in nodes
      ensures k != path && ChildPrefix(path) <= k <==> Segments(path) < Segments(k)
      ensures k != path && ChildPrefix(k) <= path <==> Segments(k) < Segments(path)
    {
      PrefixIsAncestor(path, k);
      PrefixIsAncestor(k, path);
    }
    if Hierarchical(after) {
      forall k | k in nodes && k != path
        ensures !isFolder ==> !(ChildPrefix(path) <= k)
        ensures nodes[k].isFolder || !(ChildPrefix(k) <= path)
      {
        assert k in after && path in after && after[k] == nodes[k];
      }
    }
  }

  lemma UpdateKeepsWellFormed(nodes: Nodes, path: string, value: string, isFolder: bool)
    requires WellFormed(nodes) && ValidKey(path)
    requires UpdateNodes(nodes, path, value, isFolder).Some?
    ensures WellFormed(UpdateNodes(nodes, path, value, isFolder).value)
  {
    ConflictCheckIsExact(nodes, path, value, isFolder);
  }

  /** The invariant in terms of the strings: valid keys, and no key starts with the path of a
      secret and a slash. */
  lemma WellFormedExactly(nodes: Nodes)
    ensures WellFormed(nodes) <==>
            && (forall k | k in nodes :: ValidKey(k))
            && (forall s, k | s in nodes && k in nodes && !nodes[s].isFolder :: !(s + "/" <= k))
  {
    if forall k | k in nodes :: ValidKey(k) {
      forall s, k | s in nodes && k in nodes ensures s + "/" <= k <==> Segments(s) < Segments(k) {
        PrefixIsAncestor(s, k);
        assert ChildPrefix(s) == s + "/";
      }
    }
  }

  // ---------- normalizeKeys ----------

  ghost predicate IsOrder(order: seq<string>, keys: set<string>) {
    && (forall i, j | 0 <= i < j < |order| :: order[i] != order[j])
    && (forall k :: k in order <==> k in keys)
  }

  function NormalizeOne(acc: Nodes, k: string, node: VaultNode): Nodes {
    var nk := NormalizePath(k);
    if nk !in acc || !acc[nk].isFolder then acc[nk := node] else acc
  }

  /** normalizeKeys when the map is iterated in the given order. */
  function NormalizeInOrder(nodes: Nodes, order: seq<string>): Nodes
    requires forall k | k in order :: k in nodes
  {
    if order == [] then map[]
    else
      var last := |order| - 1;
      assert forall k | k in order[..last] :: k in order;
      NormalizeOne(NormalizeInOrder(nodes, order[..last]), order[last], nodes[order[last]])
  }

  class VaultTree {
    var nodes: Nodes

    constructor (nodes: Nodes)
      ensures this.nodes == nodes
    {
      this.nodes := nodes;
    }

    method NormalizeKeys() returns (ghost order: seq<string>)
      modifies this
      ensures IsOrder(order, old(nodes).Keys) && nodes == NormalizeInOrder(old(nodes), order)
    {
      var normalized: Nodes := map[];
      var todo := nodes.Keys;
      order := [];
      while todo != {}
        invariant todo <= nodes.Keys && nodes == old(nodes)
        invariant IsOrder(order, nodes.Keys - todo)
        invariant normalized == NormalizeInOrder(nodes, order)
        decreases todo
      {
        var k :| k in todo;
        var nk := NormalizePath(k);
        if nk !in normalized || !normalized[nk].isFolder {
          normalized := normalized[nk := nodes[k]];
        }
        assert (order + [k])[..|order|] == order;
        order := order + [k];
        todo := todo - {k};
      }
      nodes := normalized;
    }

    /** The closure that /update passes to UpdateVault. */
    method Update(path: string, value: string, isFolder: bool) returns (conflict: Option<Conflict>)
      requires Rooted(path)
      modifies this
      ensures conflict.None? ==> UpdateNodes(old(nodes), path, value, isFolder) == Some(nodes)
      ensures conflict.Some? ==> UpdateNodes(old(nodes), path, value, isFolder) == None && nodes == old(nodes)
    {
      NormalizeRooted(path);
      conflict := CheckPathConflict(nodes, path, isFolder);
      if conflict.None? {
        nodes := nodes[path := VaultNode(value, isFolder)];
      }
    }

    /** The closure that /delete passes to UpdateVault. */
    method Delete(path: string)
      modifies this
      ensures nodes == DeleteNode(old(nodes), path)
    {
      nodes := nodes - {path};
    }
  }

  /** What normalization promises: the keys are the normalized keys; each holds the node of
      one of its spellings, a folder as soon as one spelling is a folder. */
  ghost predicate Normalized(before: Nodes, keys: set<string>, after: Nodes)
    requires keys <= before.Keys
  {
    && after.Keys == (set k | k in keys :: NormalizePath(k))
    && (forall k | k in keys && before[k].isFolder :: after[NormalizePath(k)].isFolder)
    && (forall nk | nk in after :: exists k :: k in keys && NormalizePath(k) == nk && before[k] == after[nk])
  }

  lemma NormalizeOneSound(nodes: Nodes, keys: set<string>, k: string, acc: Nodes)
    requires keys <= nodes.Keys && k in keys
    requires Normalized(nodes, keys - {k}, acc)
    ensures Normalized(nodes, keys, NormalizeOne(acc, k, nodes[k]))
  {
    var nk := NormalizePath(k);
    var after := NormalizeOne(acc, k, nodes[k]);
    forall n | n in after
      ensures exists j :: j in keys && NormalizePath(j) == n && nodes[j] == after[n]
    {
      if n == nk && after[n] == nodes[k] {
        assert k in keys;
      } else {
        var j :| j in keys - {k} && NormalizePath(j) == n && nodes[j] == acc[n];
        assert j in keys;
      }
    }
    forall j | j in keys && nodes[j].isFolder ensures after[NormalizePath(j)].isFolder {
      if j != k {
        assert j in keys - {k} && acc[NormalizePath(j)].isFolder;
      }
    }
  }

  lemma OrderInit(order: seq<string>, keys: set<string>)
    requires IsOrder(order, keys) && order != []
    ensures IsOrder(order[..|order| - 1], keys - {order[|order| - 1]})
  {
    var k, init := order[|order| - 1], order[..|order| - 1];
    forall j ensures j in init <==> j in keys - {k} {
      assert j in init ==> j in order;
      if j in keys && j != k {
        var i :| 0 <= i < |order| && order[i] == j;
        assert init[i] == j;
      }
    }
  }

  lemma {:induction false} NormalizeSound(nodes: Nodes, order: seq<string>, keys: set<string>)
    requires keys <= nodes.Keys && IsOrder(order, keys)
    ensures Normalized(nodes, keys, NormalizeInOrder(nodes, order))
    decreases order
  {
    if order == [] {
      assert keys == {};
    } else {
      var k := order[|order| - 1];
      OrderInit(order, keys);
      NormalizeSound(nodes, order[..|order| - 1], keys - {k});
      assert k in order;
      NormalizeOneSound(nodes, keys, k, NormalizeInOrder(nodes, order[..|order| - 1]));
    }
  }

  /** For every iteration order the keys of the result are the normalized keys, and a merged
      key is a folder exactly when one of its spellings is. */
  lemma {:induction false} NormalizeMerges(nodes: Nodes, order: seq<string>, nk: string)
    requires IsOrder(order, nodes.Keys)
    ensures nk in NormalizeInOrder(nodes, order) <==> exists k :: k in nodes && NormalizePath(k) == nk
    ensures nk in NormalizeInOrder(nodes, order) ==>
              (NormalizeInOrder(nodes, order)[nk].isFolder <==>
               exists k :: k in nodes && NormalizePath(k) == nk && nodes[k].isFolder)
  {
    NormalizeSound(nodes, order, nodes.Keys);
  }

  /** Only "x" and "/x" can be merged, so a key has at most two spellings. */
  lemma AtMostTwoSpellings(a: string, b: string, c: string)
    requires NormalizePath(a) == NormalizePath(b) == NormalizePath(c)
    ensures a == b || b == c || a == c
  {
    forall x ensures NormalizePath(x) == x || (NormalizePath(x) == "/" + x && NormalizePath(x)[1..] == x) {
      if x == "" {
        assert "/" + x == "/";
      }
    }
    assert NormalizePath(a) == a || NormalizePath(a)[1..] == a;
    assert NormalizePath(b) == b || NormalizePath(b)[1..] == b;
    assert NormalizePath(c) == c || NormalizePath(c)[1..] == c;
  }

  lemma {:induction false} LaterKeysLeave(nodes: Nodes, first: seq<string>, rest: seq<string>, nk: string)
    requires forall k | k in first + rest :: k in nodes
    requires forall k | k in rest :: NormalizePath(k) != nk
    requires forall k | k in first :: k in nodes
    requires nk in NormalizeInOrder(nodes, first)
    ensures nk in NormalizeInOrder(nodes, first + rest)
    ensures NormalizeInOrder(nodes, first + rest)[nk] == NormalizeInOrder(nodes, first)[nk]
    decreases rest
  {
    if rest == [] {
      assert first + rest == first;
    } else {
      var n := |rest| - 1;
      assert forall k | k in first + rest[..n] :: k in first + rest;
      assert (first + rest)[..|first + rest| - 1] == first + rest[..n];
      LaterKeysLeave(nodes, first, rest[..n], nk);
      assert rest[n] in rest;
    }
  }

  lemma {:induction false} OrderExists(keys: set<string>) returns (order: seq<string>)
    ensures IsOrder(order, keys)
    decreases keys
  {
    if keys == {} {
      order := [];
    } else {
      var k :| k in keys;
      var rest := OrderExists(keys - {k});
      order := rest + [k];
    }
  }

  ghost predicate OrderIndependent(nodes: Nodes) {
    forall o1, o2 | IsOrder(o1, nodes.Keys) && IsOrder(o2, nodes.Keys) ::
      NormalizeInOrder(nodes, o1) == NormalizeInOrder(nodes, o2)
  }

  /** Both spellings of a key hold nodes of the same kind that differ. */
  ghost predicate Ambiguous(nodes: Nodes, a: string, b: string) {
    a in nodes && b in nodes && NormalizePath(a) == NormalizePath(b) &&
    nodes[a].isFolder == nodes[b].isFolder && nodes[a] != nodes[b]
  }

  /** The result is the same for every iteration order exactly when no two spellings of a
      key hold different nodes of one kind. */
  lemma NormalizeOrderIndependent(nodes: Nodes)
    ensures OrderIndependent(nodes) <==> !exists a, b :: Ambiguous(nodes, a, b)
  {
    if exists a, b :: Ambiguous(nodes, a, b) {
      var a, b :| Ambiguous(nodes, a, b);
      OrdersDiffer(nodes, a, b);
    } else {
      forall o1, o2 | IsOrder(o1, nodes.Keys) && IsOrder(o2, nodes.Keys)
        ensures NormalizeInOrder(nodes, o1) == NormalizeInOrder(nodes, o2)
      {
        NormalizeSound(nodes, o1, nodes.Keys);
        NormalizeSound(nodes, o2, nodes.Keys);
        NormalizedUnique(nodes, NormalizeInOrder(nodes, o1), NormalizeInOrder(nodes, o2));
      }
    }
  }

  lemma NormalizedUnique(nodes: Nodes, m1: Nodes, m2: Nodes)
    requires Normalized(nodes, nodes.Keys, m1) && Normalized(nodes, nodes.Keys, m2)
    requires !exists a, b :: Ambiguous(nodes, a, b)
    ensures m1 == m2
  {
    assert m1.Keys == m2.Keys;
    forall nk | nk in m1 ensures m1[nk] == m2[nk] {
      var a :| a in nodes.Keys && NormalizePath(a) == nk && nodes[a] == m1[nk];
      var b :| b in nodes.Keys && NormalizePath(b) == nk && nodes[b] == m2[nk];
      assert !Ambiguous(nodes, a, b);
    }
  }

  lemma OrdersDiffer(nodes: Nodes, a: string, b: string)
    requires Ambiguous(nodes, a, b)
    ensures !OrderIndependent(nodes)
  {
    var rest := OrderExists(nodes.Keys - {a, b});
    PairFirst(nodes, a, b, rest);
    assert {a, b} == {b, a} && Ambiguous(nodes, b, a);
    PairFirst(nodes, b, a, rest);
    DependsOnOrder(nodes, [a, b] + rest, [b, a] + rest, NormalizePath(a));
  }

  lemma DependsOnOrder(nodes: Nodes, o1: seq<string>, o2: seq<string>, nk: string)
    requires IsOrder(o1, nodes.Keys) && IsOrder(o2, nodes.Keys)
    requires nk in NormalizeInOrder(nodes, o1) && nk in NormalizeInOrder(nodes, o2)
    requires NormalizeInOrder(nodes, o1)[nk] != NormalizeInOrder(nodes, o2)[nk]
    ensures !OrderIndependent(nodes)
  {
    assert NormalizeInOrder(nodes, o1) != NormalizeInOrder(nodes, o2);
  }

  /** With the two spellings visited first, the kind decides which one survives. */
  lemma PairFirst(nodes: Nodes, a: string, b: string, rest: seq<string>)
    requires Ambiguous(nodes, a, b) && IsOrder(rest, nodes.Keys - {a, b})
    ensures IsOrder([a, b] + rest, nodes.Keys)
    ensures NormalizePath(a) in NormalizeInOrder(nodes, [a, b] + rest)
    ensures NormalizeInOrder(nodes, [a, b] + rest)[NormalizePath(a)] == nodes[if nodes[a].isFolder then a else b]
  {
    var nk := NormalizePath(a);
    forall k | k in rest ensures NormalizePath(k) != nk {
      if NormalizePath(k) == nk {
        AtMostTwoSpellings(a, b, k);
      }
    }
    NormalizePair(nodes, a, b);
    PairOrder(nodes.Keys, a, b, rest);
    LaterKeysLeave(nodes, [a, b], rest, nk);
  }

  lemma PairOrder(keys: set<string>, a: string, b: string, rest: seq<string>)
    requires a in keys && b in keys && a != b && IsOrder(rest, keys - {a, b})
    ensures IsOrder([a, b] + rest, keys)
  {
    var order := [a, b] + rest;
    forall i, j | 0 <= i < j < |order| ensures order[i] != order[j] {
      assert j >= 2 ==> order[j] == rest[j - 2] && order[j] in rest;
    }
    assert forall k :: k in order <==> k == a || k == b || k in rest;
  }

  lemma NormalizePair(nodes: Nodes, a: string, b: string)
    requires a in nodes && b in nodes && NormalizePath(a) == NormalizePath(b)
    ensures NormalizeInOrder(nodes, [a, b]) ==
            map[NormalizePath(a) := nodes[if nodes[a].isFolder then a else b]]
  {
    assert [a, b][..1] == [a] && [a][..0] == [];
    assert NormalizeInOrder(nodes, [a]) == map[NormalizePath(a) := nodes[a]];
  }

  /** Normalizing a tree whose keys are rooted changes nothing, in any order; in particular
      normalization is idempotent. */
  lemma NormalizeRootedIsIdentity(nodes: Nodes, order: seq<string>)
    requires forall k | k in nodes :: Rooted(k)
    requires IsOrder(order, nodes.Keys)
    ensures NormalizeInOrder(nodes, order) == nodes
  {
    NormalizeSound(nodes, order, nodes.Keys);
    forall k | k in nodes ensures NormalizePath(k) == k {
      NormalizeRooted(k);
    }
    NormalizedFixed(nodes, NormalizeInOrder(nodes, order));
  }

  lemma NormalizedFixed(nodes: Nodes, after: Nodes)
    requires Normalized(nodes, nodes.Keys, after)
    requires forall k | k in nodes :: NormalizePath(k) == k
    ensures after == nodes
  {
    forall k | k in after ensures k in nodes && nodes[k] == after[k] {
      var j :| j in nodes && NormalizePath(j) == k && nodes[j] == after[k];
    }
    assert forall k | k in nodes :: NormalizePath(k) in after;
  }

  lemma {:induction false} NormalizeIdempotent(nodes: Nodes, first: seq<string>, second: seq<string>)
    requires IsOrder(first, nodes.Keys)
    requires IsOrder(second, NormalizeInOrder(nodes, first).Keys)
    ensures NormalizeInOrder(NormalizeInOrder(nodes, first), second) == NormalizeInOrder(nodes, first)
  {
    NormalizeSound(nodes, first, nodes.Keys);
    NormalizeRootedIsIdentity(NormalizeInOrder(nodes, first), second);
  }
}
