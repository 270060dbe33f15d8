/** sort.Slice by name, as the folder view uses it. */
module NameOrder {
  import opened Strings

  predicate NonDecreasing<T>(s: seq<T>, name: T -> string) {
    forall i, j | 0 <= i < j < |s| :: !Less(name(s[j]), name(s[i]))
  }

  predicate Increasing<T>(s: seq<T>, name: T -> string) {
    forall i, j | 0 <= i < j < |s| :: Less(name(s[i]), name(s[j]))
  }

  predicate NamesDistinct<T>(s: seq<T>, name: T -> string) {
    forall i, j | 0 <= i < j < |s| :: name(s[i]) != name(s[j])
  }

  function Insert<T>(s: seq<T>, x: T, name: T -> string): seq<T> {
    if s == [] || Less(name(x), name(s[0])) then [x] + s else [s[0]] + Insert(s[1..], x, name)
  }

  lemma {:induction false} InsertMembers<T>(s: seq<T>, x: T, name: T -> string)
    ensures multiset(Insert(s, x, name)) == multiset(s) + multiset{x}
    ensures forall y | y in Insert(s, x, name) :: y == x || y in s
  {
    if s != [] && !Less(name(x), name(s[0])) {
      InsertMembers(s[1..], x, name);
      assert s == [s[0]] + s[1..];
    }
  }

  lemma {:induction false} InsertSorted<T>(s: seq<T>, x: T, name: T -> string)
    requires NonDecreasing(s, name)
    ensures NonDecreasing(Insert(s, x, name), name)
  {
    if s == [] {
    } else if Less(name(x), name(s[0])) {
      forall j | 0 <= j < |s| ensures !Less(name(s[j]), name(x)) {
        if Less(name(s[j]), name(x)) {
          LessTransitive(name(s[j]), name(x), name(s[0]));
          LessAsymmetric(name(s[j]), name(s[0]));
        }
      }
    } else {
      InsertSorted(s[1..], x, name);
      InsertMembers(s[1..], x, name);
      PrependSmallest(s[0], Insert(s[1..], x, name), s[1..] + [x], name);
    }
  }

  lemma PrependSmallest<T>(first: T, rest: seq<T>, from: seq<T>, name: T -> string)
    requires NonDecreasing(rest, name)
    requires forall y | y in rest :: y in from
    requires forall i | 0 <= i < |from| :: !Less(name(from[i]), name(first))
    ensures NonDecreasing([first] + rest, name)
  {
    forall j | 0 <= j < |rest| ensures !Less(name(rest[j]), name(first)) {
      assert rest[j] in from;
    }
  }

  /** Equal names may end up in any order: the contract does not say which. */
  method SortByName<T>(s: seq<T>, name: T -> string) returns (r: seq<T>)
    ensures multiset(r) == multiset(s) && NonDecreasing(r, name)
  {
    r := [];
    for i := 0 to |s|
      invariant multiset(r) == multiset(s[..i]) && NonDecreasing(r, name)
    {
      InsertSorted(r, s[i], name);
      InsertMembers(r, s[i], name);
      r := Insert(r, s[i], name);
      assert s[..i + 1] == s[..i] + [s[i]];
    }
    assert s[..|s|] == s;
  }

  /** Sorting distinct names leaves them strictly increasing. */
  lemma SortedDistinct<T>(s: seq<T>, r: seq<T>, name: T -> string)
    requires multiset(r) == multiset(s) && NonDecreasing(r, name) && NamesDistinct(s, name)
    ensures Increasing(r, name)
  {
    forall i, j | 0 <= i < j < |r| ensures Less(name(r[i]), name(r[j])) {
      LessTotal(name(r[i]), name(r[j]));
      if name(r[i]) == name(r[j]) {
        assert r[i] in multiset(s) && r[j] in multiset(s);
        assert r[i] == r[j];
        TwiceInMultiset(r, i, j);
        OnceInDistinct(s, r[i], name);
      }
    }
  }

  lemma TwiceInMultiset<T>(r: seq<T>, i: int, j: int)
    requires 0 <= i < j < |r| && r[i] == r[j]
    ensures multiset(r)[r[i]] >= 2
  {
    assert r == r[..j] + [r[j]] + r[j + 1..];
    assert r[i] in r[..j];
  }

  lemma {:induction false} OnceInDistinct<T>(s: seq<T>, x: T, name: T -> string)
    requires NamesDistinct(s, name)
    ensures multiset(s)[x] <= 1
  {
    if s != [] {
      OnceInDistinct(s[1..], x, name);
      assert s == [s[0]] + s[1..];
      if s[0] == x {
        assert x !in s[1..];
      }
    }
  }

  /** A strictly increasing list is determined by its elements. */
  lemma {:induction false} IncreasingUnique<T>(a: seq<T>, b: seq<T>, name: T -> string)
    requires Increasing(a, name) && Increasing(b, name)
    requires forall x :: x in a <==> x in b
    ensures a == b
  {
    assert a != [] ==> a[0] in a;
    assert b != [] ==> b[0] in b;
    if a != [] && b != [] {
      assert a[0] in b && b[0] in a;
      var i :| 0 <= i < |b| && b[i] == a[0];
      var j :| 0 <= j < |a| && a[j] == b[0];
      if i > 0 && j > 0 {
        LessAsymmetric(name(b[0]), name(a[0]));
      }
      assert a[0] == b[0];
      forall x ensures x in a[1..] <==> x in b[1..] {
        TailMembers(a, x, name);
        TailMembers(b, x, name);
      }
      IncreasingUnique(a[1..], b[1..], name);
      assert a == [a[0]] + a[1..] && b == [b[0]] + b[1..];
    }
  }

  lemma TailMembers<T>(a: seq<T>, x: T, name: T -> string)
    requires Increasing(a, name) && a != []
    ensures x in a[1..] <==> x in a && x != a[0]
  {
    if x in a[1..] {
      var i :| 0 <= i < |a[1..]| && a[1..][i] == x;
      LessAsymmetric(name(a[0]), name(a[i + 1]));
    }
  }

  lemma SwapKeepsMembers<T>(s: seq<T>, i: nat, j: nat)
    requires i < |s| && j < |s| && i != j
    ensures forall x :: x in s[i := s[j]][j := s[i]] <==> x in s
  {
    var t := s[i := s[j]][j := s[i]];
    forall x ensures x in t <==> x in s {
      if x in s {
        var k :| 0 <= k < |s| && s[k] == x;
        assert t[if k == i then j else if k == j then i else k] == x;
      }
    }
  }

  lemma SwapKeepsOrder<T>(s: seq<T>, i: nat, j: nat, name: T -> string)
    requires i < |s| && j < |s| && i != j && name(s[i]) == name(s[j]) && NonDecreasing(s, name)
    requires forall m, n | 0 <= m < n < |s| :: s[m] != s[n]
    ensures var t := s[i := s[j]][j := s[i]];
            t != s && NonDecreasing(t, name) && forall m, n | 0 <= m < n < |t| :: t[m] != t[n]
  {
    var t := s[i := s[j]][j := s[i]];
    assert forall k | 0 <= k < |s| :: name(t[k]) == name(s[k]);
    assert t[i] == s[j];
  }
}

/** The folder view: `buildTreeState` of ui.go. */
module Listing {
  import opened NameOrder
  import opened Paths
  import opened Permissions
  import opened Strings
  import opened VaultTrees
  import opened Wrappers

  datatype UISecret = UISecret(path: string, name: string)

  datatype UIFolder = UIFolder(name: string, path: string)

  datatype UIState = UIState(
    isEntryView: bool,
    currentPath: string,
    entryPath: string,
    entry: Option<UISecret>,
    folder: Option<string>,
    folders: seq<UIFolder>,
    entries: seq<UISecret>)

  /** Permissions are absent only in dev mode, where everything is shown. */
  type Viewer = Option<UserPermissions>

  predicate Readable(viewer: Viewer, vaultPath: string) {
    viewer.None? || viewer.value.CanRead(vaultPath)
  }

  /** Who sees a canonical key: everybody in dev mode, admins, and users with a grant. */
  lemma ReadableExactly(viewer: Viewer, k: string)
    requires Canonical(k)
    ensures Readable(viewer, k) <==>
            viewer.None? || viewer.value.isAdmin || GrantedByAny(viewer.value.patterns, LiteralSegments(k))
  {
    if viewer.Some? {
      UserAccessIsLiteral(viewer.value, k);
    }
  }

  // ---------- What is listed at `dir`, in terms of strings ----------

  function Remaining(dir: string, k: string): string
    requires ChildPrefix(dir) <= k
  {
    k[|ChildPrefix(dir)|..]
  }

  predicate Visible(nodes: Nodes, dir: string, viewer: Viewer, k: string) {
    k in nodes && k != dir && ChildPrefix(dir) <= k && Readable(viewer, k) && Remaining(dir, k) != ""
  }

  predicate ListsEntry(nodes: Nodes, dir: string, viewer: Viewer, k: string) {
    Visible(nodes, dir, viewer, k) && |SplitN2(Remaining(dir, k), '/')| == 1 && !nodes[k].isFolder
  }

  function FolderAbove(dir: string, k: string): string
    requires Rooted(dir) && ChildPrefix(dir) <= k
  {
    var name := SplitN2(Remaining(dir, k), '/')[0];
    if dir == "/" then "/" + name else PathJoin(dir, name)
  }

  predicate ListsFolderFor(nodes: Nodes, dir: string, viewer: Viewer, k: string, p: string)
    requires Rooted(dir)
  {
    Visible(nodes, dir, viewer, k) && !ListsEntry(nodes, dir, viewer, k) && FolderAbove(dir, k) == p
  }

  ghost predicate ListsFolder(nodes: Nodes, dir: string, viewer: Viewer, p: string)
    requires Rooted(dir)
  {
    exists k :: ListsFolderFor(nodes, dir, viewer, k, p)
  }

  const ENTRY_NAME: UISecret -> string := (e: UISecret) => e.name
  const FOLDER_NAME: UIFolder -> string := (f: UIFolder) => f.name

  ghost predicate ListsExactly(nodes: Nodes, dir: string, viewer: Viewer, folders: seq<UIFolder>,
                               entries: seq<UISecret>)
    requires Rooted(dir)
  {
    && (forall e | e in entries :: ListsEntry(nodes, dir, viewer, e.path) && ChildPrefix(dir) + e.name == e.path)
    && (forall k | ListsEntry(nodes, dir, viewer, k) :: UISecret(k, Remaining(dir, k)) in entries)
    && (forall f | f in folders :: ListsFolder(nodes, dir, viewer, f.path) && Rooted(f.path) && f.name == Base(f.path))
    && (forall p | Rooted(p) && ListsFolder(nodes, dir, viewer, p) :: UIFolder(Base(p), p) in folders)
  }

  /** buildTreeState, without breadcrumbs and parent links. */
  method BuildTreeState(nodes: Nodes, current: string, entry: string, viewer: Viewer) returns (state: UIState)
    ensures state.isEntryView <==> NormalizePath(entry) != "/"
    ensures state.currentPath == NormalizePath(current)
    ensures state.isEntryView ==>
              && state.entryPath == NormalizePath(entry)
              && state.entry == (if state.entryPath in nodes && !nodes[state.entryPath].isFolder
                                     && Readable(viewer, state.entryPath)
                                 then Some(UISecret(state.entryPath, Base(state.entryPath))) else None)
              && state.folder == None && state.folders == [] && state.entries == []
    ensures !state.isEntryView ==>
              && state.entry == None
              && state.folder == (if state.currentPath in nodes && nodes[state.currentPath].isFolder
                                      && Readable(viewer, state.currentPath)
                                  then Some(state.currentPath) else None)
              && IsListing(nodes, state.currentPath, viewer, state.folders, state.entries)
  {
    var dir, entryPath := NormalizePath(current), NormalizePath(entry);
    if entryPath != "/" {
      var shown := entryPath in nodes && !nodes[entryPath].isFolder && Readable(viewer, entryPath);
      var entry := if shown then Some(UISecret(entryPath, Base(entryPath))) else None;
      return UIState(true, dir, entryPath, entry, None, [], []);
    }
    var folder := None;
    if dir in nodes && nodes[dir].isFolder && Readable(viewer, dir) {
      folder := Some(dir);
    }

    var entries, folderSet := CollectChildren(nodes, dir, viewer);
    var folders := CollectFolders(folderSet);

    var sortedFolders := SortByName(folders, FOLDER_NAME);
    var sortedEntries := SortByName(entries, ENTRY_NAME);
    SortedDistinct(entries, sortedEntries, ENTRY_NAME);
    SameMembers(entries, sortedEntries);
    SameMembers(folders, sortedFolders);
    StillDistinct(folders, sortedFolders);
    return UIState(false, dir, "", None, folder, sortedFolders, sortedEntries);
  }

  method CollectChildren(nodes: Nodes, dir: string, viewer: Viewer)
      returns (entries: seq<UISecret>, folderSet: set<string>)
    requires Rooted(dir)
    ensures forall e | e in entries :: ListsEntry(nodes, dir, viewer, e.path) && ChildPrefix(dir) + e.name == e.path
    ensures forall k | ListsEntry(nodes, dir, viewer, k) :: UISecret(k, Remaining(dir, k)) in entries
    ensures NamesDistinct(entries, ENTRY_NAME)
    ensures forall p | p in folderSet :: Rooted(p) && ListsFolder(nodes, dir, viewer, p)
    ensures forall p | ListsFolder(nodes, dir, viewer, p) :: p in folderSet
  {
    entries, folderSet := [], {};
    var todo := nodes.Keys;
    while todo != {}
      invariant todo <= nodes.Keys
      invariant forall e | e in entries ::
                  e.path !in todo && ListsEntry(nodes, dir, viewer, e.path) && ChildPrefix(dir) + e.name == e.path
      invariant forall k | ListsEntry(nodes, dir, viewer, k) && k !in todo :: UISecret(k, Remaining(dir, k)) in entries
      invariant NamesDistinct(entries, ENTRY_NAME)
      invariant forall p | p in folderSet :: Rooted(p) && ListsFolder(nodes, dir, viewer, p)
      invariant forall k, p | ListsFolderFor(nodes, dir, viewer, k, p) && k !in todo :: p in folderSet
      decreases todo
    {
      var vaultPath :| vaultPath in todo;
      var entry, folder := VisitKey(nodes, dir, viewer, vaultPath);
      if entry.Some? {
        OneMoreName(dir, entries, entry.value);
        entries := entries + [entry.value];
      }
      if folder.Some? {
        folderSet := folderSet + {folder.value};
      }
      todo := todo - {vaultPath};
    }
  }

  /** Different keys below `dir` have different names there. */
  lemma OneMoreName(dir: string, entries: seq<UISecret>, entry: UISecret)
    requires NamesDistinct(entries, ENTRY_NAME) && ChildPrefix(dir) + entry.name == entry.path
    requires forall e | e in entries :: e.path != entry.path && ChildPrefix(dir) + e.name == e.path
    ensures NamesDistinct(entries + [entry], ENTRY_NAME)
  {
    forall e | e in entries ensures e.name != entry.name {
      assert e.path != entry.path;
    }
  }

  /** The body of the loop over the tree: a key becomes an entry, a folder or neither. */
  method VisitKey(nodes: Nodes, dir: string, viewer: Viewer, k: string)
      returns (entry: Option<UISecret>, folder: Option<string>)
    requires Rooted(dir) && k in nodes
    ensures entry.Some? <==> ListsEntry(nodes, dir, viewer, k)
    ensures entry.Some? ==> entry.value == UISecret(k, Remaining(dir, k)) && ChildPrefix(dir) + entry.value.name == k
    ensures folder.Some? <==> Visible(nodes, dir, viewer, k) && !ListsEntry(nodes, dir, viewer, k)
    ensures folder.Some? ==> Rooted(folder.value) && ListsFolderFor(nodes, dir, viewer, k, folder.value)
  {
    entry, folder := None, None;
    if Visible(nodes, dir, viewer, k) {
      var segments := SplitN2(Remaining(dir, k), '/');
      if |segments| == 1 && !nodes[k].isFolder {
        SingleSegment(Remaining(dir, k));
        entry := Some(UISecret(k, segments[0]));
      } else {
        folder := Some(if dir == "/" then "/" + segments[0] else PathJoin(dir, segments[0]));
      }
    }
  }

  method CollectFolders(folderSet: set<string>) returns (folders: seq<UIFolder>)
    requires forall p | p in folderSet :: Rooted(p)
    ensures forall f | f in folders :: f.path in folderSet && f.name == Base(f.path)
    ensures forall p | p in folderSet :: UIFolder(Base(p), p) in folders
    ensures forall i, j | 0 <= i < j < |folders| :: folders[i] != folders[j]
  {
    folders := [];
    var todo := folderSet;
    while todo != {}
      invariant todo <= folderSet
      invariant forall f | f in folders :: f.path in folderSet - todo && f.name == Base(f.path)
      invariant forall p | p in folderSet - todo :: UIFolder(Base(p), p) in folders
      invariant forall i, j | 0 <= i < j < |folders| :: folders[i] != folders[j]
      decreases todo
    {
      var folderPath :| folderPath in todo;
      folders := folders + [UIFolder(Base(folderPath), folderPath)];
      todo := todo - {folderPath};
    }
  }

  lemma {:induction false} SingleSegment(s: string)
    requires |SplitN2(s, '/')| == 1
    ensures SplitN2(s, '/') == [s] && '/' !in s
  {
    if s != "" {
      SingleSegment(s[1..]);
      assert s == [s[0]] + s[1..];
    }
  }

  /** The key `k` begins with the directory and a slash, and continues with `name`. */
  predicate Continues(dir: string, k: string, name: string, rest: string) {
    && '/' !in name
    && k == (if dir == "/" then "/" else dir + "/") + (name + rest)
    && (rest == "" ==> name != "") && (rest != "" ==> rest[0] == '/')
  }

  /** What is visible below `dir`, for any keys, canonical or not: the key continues with a name
      and possibly more, which are determined. */
  lemma VisibleContinues(nodes: Nodes, dir: string, viewer: Viewer, k: string)
    requires Rooted(dir)
    ensures Visible(nodes, dir, viewer, k) <==>
            k in nodes && k != dir && Readable(viewer, k) && exists name, rest :: Continues(dir, k, name, rest)
    ensures forall name, rest | Continues(dir, k, name, rest) ::
              && ChildPrefix(dir) <= k
              && SplitN2(Remaining(dir, k), '/') == if rest == "" then [name] else [name, rest[1..]]
  {
    if ChildPrefix(dir) <= k && Remaining(dir, k) != "" {
      var name, rest := FirstName(Remaining(dir, k));
      assert Continues(dir, k, name, rest);
    }
    forall name, rest | Continues(dir, k, name, rest)
      ensures ChildPrefix(dir) <= k && Remaining(dir, k) == name + rest && name + rest != ""
      ensures SplitN2(Remaining(dir, k), '/') == if rest == "" then [name] else [name, rest[1..]]
    {
      CutName(name, rest);
    }
  }

  lemma CutName(name: string, rest: string)
    requires '/' !in name && (rest != "" ==> rest[0] == '/')
    ensures SplitN2(name + rest, '/') == if rest == "" then [name] else [name, rest[1..]]
  {
    if rest == "" {
      SplitN2Whole(name, '/');
      assert name + rest == name;
    } else {
      assert name + rest == name + ['/'] + rest[1..];
      SplitN2Cut(name, rest[1..], '/');
    }
  }

  lemma {:induction false} FirstName(s: string) returns (name: string, rest: string)
    requires s != ""
    ensures s == name + rest && '/' !in name && (rest == "" ==> name != "") && (rest != "" ==> rest[0] == '/')
  {
    if s[0] == '/' {
      name, rest := "", s;
    } else if |s| == 1 {
      name, rest := s, "";
    } else {
      name, rest := FirstName(s[1..]);
      name := [s[0]] + name;
      assert s == [s[0]] + s[1..];
    }
  }

  /** An entry is a readable secret whose key is the directory, a slash and one name; a folder is
      listed for every other readable key that continues, under the first name: cleaned, except
      at the root. This holds for raw keys, too. */
  lemma ListedExactly(nodes: Nodes, dir: string, viewer: Viewer, k: string, name: string, rest: string)
    requires Rooted(dir) && k in nodes && k != dir && Continues(dir, k, name, rest)
    ensures ListsEntry(nodes, dir, viewer, k) <==> Readable(viewer, k) && rest == "" && !nodes[k].isFolder
    ensures forall p :: ListsFolderFor(nodes, dir, viewer, k, p) <==>
              && Readable(viewer, k) && (rest != "" || nodes[k].isFolder)
              && p == if dir == "/" then "/" + name else Clean(dir + "/" + name)
  {
    VisibleContinues(nodes, dir, viewer, k);
    JoinIsClean(dir, name);
  }

  lemma SameMembers<T>(a: seq<T>, b: seq<T>)
    requires multiset(a) == multiset(b)
    ensures forall x :: x in a <==> x in b
  {
    forall x ensures x in a <==> x in b {
      assert x in a <==> x in multiset(a);
      assert x in b <==> x in multiset(b);
    }
  }

  lemma StillDistinct(a: seq<UIFolder>, b: seq<UIFolder>)
    requires multiset(a) == multiset(b)
    requires forall i, j | 0 <= i < j < |a| :: a[i] != a[j]
    ensures forall i, j | 0 <= i < j < |b| :: b[i] != b[j]
  {
    forall i, j | 0 <= i < j < |b| ensures b[i] != b[j] {
      if b[i] == b[j] {
        TwiceInMultiset(b, i, j);
        OnceInList(a, b[i]);
      }
    }
  }

  lemma {:induction false} OnceInList(s: seq<UIFolder>, x: UIFolder)
    requires forall i, j | 0 <= i < j < |s| :: s[i] != s[j]
    ensures multiset(s)[x] <= 1
  {
    if s != [] {
      OnceInList(s[1..], x);
      assert s == [s[0]] + s[1..];
      if s[0] == x {
        assert x !in s[1..];
      }
    }
  }

  // ---------- The same listing in terms of the hierarchy ----------

  /** A canonical key below `dir`: `dir` is canonical, and the code cuts off the next segment. */
  lemma KeyBelow(dir: string, k: string)
    requires Rooted(dir) && Canonical(k) && k != dir && ChildPrefix(dir) <= k
    ensures Canonical(dir) && Segments(dir) < Segments(k)
    ensures var next := Segments(k)[|Segments(dir)|];
            && Remaining(dir, k) != ""
            && FolderAbove(dir, k) == Render(Segments(dir) + [next])
            && (|SplitN2(Remaining(dir, k), '/')| == 1 <==> |Segments(k)| == |Segments(dir)| + 1)
  {
    var remaining := Remaining(dir, k);
    CanonicalByParts(k);
    RootIsCanonical();
    SegmentsAreNormal(k);
    if dir == "/" {
      assert remaining == k[1..];
      assert Split(remaining, '/') == Segments(k);
    } else {
      assert k == dir + "/" + remaining;
      assert k[1..] == dir[1..] + ['/'] + remaining;
      SplitAppend(dir[1..], remaining, '/');
      assert Segments(k) == Parts(dir) + Split(remaining, '/');
      CanonicalByParts(dir);
      forall i | 0 <= i < |Parts(dir)| ensures NormalSegment(Parts(dir)[i]) {
        assert Parts(dir)[i] == Segments(k)[i];
      }
    }
    var next := Segments(k)[|Segments(dir)|];
    assert Split(remaining, '/') == Segments(k)[|Segments(dir)|..];
    SplitN2VsSplit(remaining, '/');
    assert NormalSegment(next);
    assert Split("", '/') == [""];
    JoinChild(dir, next);
  }

  lemma EntryIsReadableSecret(nodes: Nodes, dir: string, viewer: Viewer, k: string)
    requires CanonicalKeys(nodes) && Rooted(dir)
    ensures ListsEntry(nodes, dir, viewer, k) <==>
            && Canonical(dir) && k in nodes && !nodes[k].isFolder && Readable(viewer, k)
            && Segments(dir) < Segments(k) && |Segments(k)| == |Segments(dir)| + 1
  {
    if k in nodes {
      if k != dir && ChildPrefix(dir) <= k {
        KeyBelow(dir, k);
      }
      if Canonical(dir) {
        PrefixIsAncestor(dir, k);
      }
    }
  }

  /** A listed folder is the next segment above some readable key; the key at the folder
      itself counts only when it is a folder. */
  ghost predicate FolderWitness(nodes: Nodes, dir: string, viewer: Viewer, p: string, k: string)
    requires CanonicalKeys(nodes) && Canonical(dir)
  {
    && k in nodes && Readable(viewer, k) && Segments(dir) < Segments(k)
    && p == Render(Segments(k)[..|Segments(dir)| + 1])
    && (|Segments(k)| == |Segments(dir)| + 1 ==> nodes[k].isFolder)
  }

  lemma FolderForKeyBelow(nodes: Nodes, dir: string, viewer: Viewer, p: string, k: string)
    requires CanonicalKeys(nodes) && Rooted(dir) && k in nodes && k != dir && ChildPrefix(dir) <= k
    ensures Canonical(dir) && (ListsFolderFor(nodes, dir, viewer, k, p) <==> FolderWitness(nodes, dir, viewer, p, k))
  {
    KeyBelow(dir, k);
    NextSegment(Segments(dir), Segments(k));
    assert FolderAbove(dir, k) == Render(Segments(k)[..|Segments(dir)| + 1]);
    assert Visible(nodes, dir, viewer, k) <==> Readable(viewer, k);
  }

  lemma FolderForIsWitness(nodes: Nodes, dir: string, viewer: Viewer, p: string, k: string)
    requires CanonicalKeys(nodes) && Rooted(dir)
    ensures ListsFolderFor(nodes, dir, viewer, k, p) <==> Canonical(dir) && FolderWitness(nodes, dir, viewer, p, k)
  {
    if k in nodes {
      if k != dir && ChildPrefix(dir) <= k {
        FolderForKeyBelow(nodes, dir, viewer, p, k);
      } else if Canonical(dir) {
        PrefixIsAncestor(dir, k);
      }
    }
  }

  lemma NextSegment(above: seq<string>, below: seq<string>)
    requires above < below
    ensures below[..|above| + 1] == above + [below[|above|]]
  {
  }

  lemma WitnessedFolder(nodes: Nodes, dir: string, viewer: Viewer, p: string, k: string)
    requires CanonicalKeys(nodes) && Canonical(dir) && FolderWitness(nodes, dir, viewer, p, k)
    ensures Canonical(p) && Segments(p) == Segments(k)[..|Segments(dir)| + 1] && Base(p) == Segments(k)[|Segments(dir)|]
  {
    SegmentsAreNormal(k);
    var segs := Segments(k)[..|Segments(dir)| + 1];
    SegmentsOfRender(segs);
    BaseOfRender(segs);
  }

  lemma FolderIffWitness(nodes: Nodes, dir: string, viewer: Viewer, p: string)
    requires CanonicalKeys(nodes) && Rooted(dir)
    ensures ListsFolder(nodes, dir, viewer, p) <==>
              Canonical(dir) && exists k :: FolderWitness(nodes, dir, viewer, p, k)
  {
    if ListsFolder(nodes, dir, viewer, p) {
      var k :| ListsFolderFor(nodes, dir, viewer, k, p);
      FolderForIsWitness(nodes, dir, viewer, p, k);
    }
    if Canonical(dir) && exists k :: FolderWitness(nodes, dir, viewer, p, k) {
      var k :| FolderWitness(nodes, dir, viewer, p, k);
      FolderForIsWitness(nodes, dir, viewer, p, k);
    }
  }

  /** Every listed folder is one segment deeper, carries that segment as its name, and has a
      readable key at or beneath it. */
  lemma FolderHasReadableKey(nodes: Nodes, dir: string, viewer: Viewer, p: string) returns (k: string)
    requires CanonicalKeys(nodes) && Rooted(dir) && ListsFolder(nodes, dir, viewer, p)
    ensures Canonical(dir) && Canonical(p) && Segments(p) == Segments(dir) + [Base(p)]
    ensures k in nodes && Readable(viewer, k) && Segments(p) <= Segments(k)
    ensures FolderWitness(nodes, dir, viewer, p, k)
  {
    FolderIffWitness(nodes, dir, viewer, p);
    k :| FolderWitness(nodes, dir, viewer, p, k);
    WitnessedFolder(nodes, dir, viewer, p, k);
    NextSegment(Segments(dir), Segments(k));
  }

  // ---------- Determinism ----------

  /** What buildTreeState promises about the two lists, for some iteration order. */
  ghost predicate IsListing(nodes: Nodes, dir: string, viewer: Viewer, folders: seq<UIFolder>, entries: seq<UISecret>)
    requires Rooted(dir)
  {
    && ListsExactly(nodes, dir, viewer, folders, entries)
    && Increasing(entries, ENTRY_NAME) && NonDecreasing(folders, FOLDER_NAME)
    && (forall i, j | 0 <= i < j < |folders| :: folders[i] != folders[j])
  }

  /** No two listed folders share a name. */
  ghost predicate FolderNamesUnique(nodes: Nodes, dir: string, viewer: Viewer)
    requires Rooted(dir)
  {
    forall p, q | Rooted(p) && Rooted(q) && ListsFolder(nodes, dir, viewer, p) &&
                  ListsFolder(nodes, dir, viewer, q) && Base(p) == Base(q) :: p == q
  }

  lemma CanonicalNamesUnique(nodes: Nodes, dir: string, viewer: Viewer)
    requires CanonicalKeys(nodes) && Rooted(dir)
    ensures FolderNamesUnique(nodes, dir, viewer)
  {
    forall p, q | Rooted(p) && Rooted(q) && ListsFolder(nodes, dir, viewer, p) &&
                  ListsFolder(nodes, dir, viewer, q) && Base(p) == Base(q)
      ensures p == q
    {
      var _ := FolderHasReadableKey(nodes, dir, viewer, p);
      var _ := FolderHasReadableKey(nodes, dir, viewer, q);
      CanonicalDetermined(p, q);
    }
  }

  /** The listing is independent of the map iteration orders and of the unstable sorts exactly
      when no two listed folders share a name; then both lists are strictly increasing. */
  lemma ListingDeterministicIff(nodes: Nodes, dir: string, viewer: Viewer, folders: seq<UIFolder>,
                                entries: seq<UISecret>)
    requires Rooted(dir) && IsListing(nodes, dir, viewer, folders, entries)
    ensures FolderNamesUnique(nodes, dir, viewer) <==>
            forall f, e | IsListing(nodes, dir, viewer, f, e) :: f == folders && e == entries
    ensures FolderNamesUnique(nodes, dir, viewer) ==> Increasing(folders, FOLDER_NAME)
  {
    if FolderNamesUnique(nodes, dir, viewer) {
      FoldersIncreasing(nodes, dir, viewer, folders, entries);
      forall f, e | IsListing(nodes, dir, viewer, f, e) ensures f == folders && e == entries {
        FoldersIncreasing(nodes, dir, viewer, f, e);
        SameListing(nodes, dir, viewer, folders, entries, f, e);
      }
    } else {
      var p, q :| Rooted(p) && Rooted(q) && ListsFolder(nodes, dir, viewer, p) &&
                  ListsFolder(nodes, dir, viewer, q) && Base(p) == Base(q) && p != q;
      var swapped := SwapTwins(nodes, dir, viewer, folders, entries, p, q);
      assert IsListing(nodes, dir, viewer, swapped, entries);
    }
  }

  /** On canonical keys, which every well-formed tree has, the listing is deterministic. */
  lemma ListingDeterministic(nodes: Nodes, dir: string, viewer: Viewer,
                             f1: seq<UIFolder>, e1: seq<UISecret>, f2: seq<UIFolder>, e2: seq<UISecret>)
    requires CanonicalKeys(nodes) && Rooted(dir)
    requires IsListing(nodes, dir, viewer, f1, e1) && IsListing(nodes, dir, viewer, f2, e2)
    ensures f1 == f2 && e1 == e2 && Increasing(f1, FOLDER_NAME) && Increasing(e1, ENTRY_NAME)
  {
    CanonicalNamesUnique(nodes, dir, viewer);
    ListingDeterministicIff(nodes, dir, viewer, f1, e1);
  }

  lemma SameListing(nodes: Nodes, dir: string, viewer: Viewer, f1: seq<UIFolder>, e1: seq<UISecret>,
                    f2: seq<UIFolder>, e2: seq<UISecret>)
    requires Rooted(dir) && IsListing(nodes, dir, viewer, f1, e1) && IsListing(nodes, dir, viewer, f2, e2)
    requires Increasing(f1, FOLDER_NAME) && Increasing(f2, FOLDER_NAME)
    ensures f1 == f2 && e1 == e2
  {
    forall x ensures x in f1 <==> x in f2 {
      assert x in f1 ==> UIFolder(Base(x.path), x.path) in f2;
      assert x in f2 ==> UIFolder(Base(x.path), x.path) in f1;
    }
    IncreasingUnique(f1, f2, FOLDER_NAME);
    forall x ensures x in e1 <==> x in e2 {
      assert x in e1 ==> UISecret(x.path, Remaining(dir, x.path)) in e2;
      assert x in e2 ==> UISecret(x.path, Remaining(dir, x.path)) in e1;
    }
    IncreasingUnique(e1, e2, ENTRY_NAME);
  }

  lemma FoldersIncreasing(nodes: Nodes, dir: string, viewer: Viewer, folders: seq<UIFolder>, entries: seq<UISecret>)
    requires Rooted(dir) && IsListing(nodes, dir, viewer, folders, entries) && FolderNamesUnique(nodes, dir, viewer)
    ensures Increasing(folders, FOLDER_NAME)
  {
    forall i, j | 0 <= i < j < |folders| ensures FOLDER_NAME(folders[i]) != FOLDER_NAME(folders[j]) {
      var f, g := folders[i], folders[j];
      assert f in folders && g in folders && f != g;
      assert f.path != g.path;
    }
    SortedDistinct(folders, folders, FOLDER_NAME);
  }

  /** Two folders of the same name can stand in either order. */
  lemma SwapTwins(nodes: Nodes, dir: string, viewer: Viewer, folders: seq<UIFolder>, entries: seq<UISecret>,
                  p: string, q: string) returns (swapped: seq<UIFolder>)
    requires Rooted(dir) && IsListing(nodes, dir, viewer, folders, entries)
    requires Rooted(p) && Rooted(q) && ListsFolder(nodes, dir, viewer, p) && ListsFolder(nodes, dir, viewer, q) &&
             Base(p) == Base(q) && p != q
    ensures swapped != folders && IsListing(nodes, dir, viewer, swapped, entries)
  {
    var x, y := UIFolder(Base(p), p), UIFolder(Base(q), q);
    assert x in folders && y in folders;
    var i :| 0 <= i < |folders| && folders[i] == x;
    var j :| 0 <= j < |folders| && folders[j] == y;
    swapped := folders[i := y][j := x];
    SwapKeepsMembers(folders, i, j);
    SwapKeepsOrder(folders, i, j, FOLDER_NAME);
    ListsSameFolders(nodes, dir, viewer, folders, swapped, entries);
  }

  lemma ListsSameFolders(nodes: Nodes, dir: string, viewer: Viewer, f1: seq<UIFolder>, f2: seq<UIFolder>,
                         entries: seq<UISecret>)
    requires Rooted(dir) && ListsExactly(nodes, dir, viewer, f1, entries)
    requires forall x :: x in f2 <==> x in f1
    ensures ListsExactly(nodes, dir, viewer, f2, entries)
  {
  }

  // ---------- A tree whose folders have no fixed order ----------

  function TwinTree(node: VaultNode): Nodes {
    map["/a/./x" := node, "/a/a/y" := node]
  }

  /** Listed at "/a", the key "/a/./x" gives the folder "/a" and the key "/a/a/y" the folder
      "/a/a". Both are called "a", so either may come first. */
  lemma FolderOrderCanVary(node: VaultNode) returns (one: seq<UIFolder>, other: seq<UIFolder>)
    ensures one != other && IsListing(TwinTree(node), "/a", None, one, [])
    ensures IsListing(TwinTree(node), "/a", None, other, [])
    ensures !FolderNamesUnique(TwinTree(node), "/a", None)
  {
    TwinFolders(node);
    BaseOfA();
    one := [UIFolder("a", "/a"), UIFolder("a", "/a/a")];
    TwinListing(node, one);
    other := SwapTwins(TwinTree(node), "/a", None, one, [], "/a", "/a/a");
  }

  lemma TwinListing(node: VaultNode, folders: seq<UIFolder>)
    requires folders == [UIFolder("a", "/a"), UIFolder("a", "/a/a")]
    ensures IsListing(TwinTree(node), "/a", None, folders, [])
  {
    TwinFolders(node);
    BaseOfA();
    assert folders[0] in folders && folders[1] in folders;
    assert FOLDER_NAME(folders[0]) == FOLDER_NAME(folders[1]);
    assert !Less("a", "a");
  }

  lemma TwinFolders(node: VaultNode)
    ensures forall p :: ListsFolder(TwinTree(node), "/a", None, p) <==> p == "/a" || p == "/a/a"
    ensures forall k :: !ListsEntry(TwinTree(node), "/a", None, k)
  {
    var nodes := TwinTree(node);
    KeyThrough(".", "x");
    KeyThrough("a", "y");
    assert "/a/" + "." + "/" + "x" == "/a/./x" && "/a/" + "a" + "/" + "y" == "/a/a/y";
    JoinAtA();
    forall k, p ensures ListsFolderFor(nodes, "/a", None, k, p) <==>
                        (k == "/a/./x" && p == "/a") || (k == "/a/a/y" && p == "/a/a")
    {
    }
    assert ListsFolderFor(nodes, "/a", None, "/a/./x", "/a");
    assert ListsFolderFor(nodes, "/a", None, "/a/a/y", "/a/a");
  }

  lemma KeyThrough(name: string, leaf: string)
    requires '/' !in name
    ensures var k := "/a/" + name + "/" + leaf;
            && ChildPrefix("/a") <= k && k != "/a" && Remaining("/a", k) != ""
            && SplitN2(Remaining("/a", k), '/') == [name, leaf]
  {
    var k := "/a/" + name + "/" + leaf;
    assert ChildPrefix("/a") == "/a/" && k == "/a/" + (name + "/" + leaf);
    assert Remaining("/a", k) == name + ['/'] + leaf;
    SplitN2Cut(name, leaf, '/');
  }

  lemma JoinAtA()
    ensures PathJoin("/a", ".") == "/a" && PathJoin("/a", "a") == "/a/a"
  {
    SplitWithoutSep("a", '/');
    SplitWithoutSep(".", '/');
    assert "/a"[1..] == "a" && Parts("/a") == ["a"];
    CanonicalByParts("/a");
    assert "/a/."[1..] == "a" + ['/'] + ".";
    SplitAppend("a", ".", '/');
    assert Parts("/a/.") == ["a", "."] && ["a", "."][1..] == ["."] && ["."][1..] == [];
    assert "/a" + "/" + "." == "/a/.";
    JoinChild("/a", "a");
    assert ChildPrefix("/a") + "a" == "/a/a";
  }

  lemma BaseOfA()
    ensures Base("/a") == "a" && Base("/a/a") == "a"
  {
    BaseOfRender(["a"]);
    BaseOfRender(["a", "a"]);
    assert Render(["a"]) == "/a";
    assert ["a", "a"][1..] == ["a"] && Render(["a", "a"]) == "/a/a";
  }

  /** On a well-formed tree no name is listed both as a folder and as an entry. */
  lemma NoNameTwice(nodes: Nodes, dir: string, viewer: Viewer, p: string, k: string)
    requires WellFormed(nodes) && Rooted(dir)
    requires ListsFolder(nodes, dir, viewer, p) && ListsEntry(nodes, dir, viewer, k) && Rooted(p)
    ensures ChildPrefix(dir) + Base(p) != k
  {
    var j := FolderHasReadableKey(nodes, dir, viewer, p);
    EntryIsReadableSecret(nodes, dir, viewer, k);
    ChildPath(dir, p, Base(p));
    if p == k {
      WitnessedIsFolder(nodes, dir, viewer, k, j);
    }
  }

  lemma ChildPath(dir: string, p: string, name: string)
    requires Canonical(dir) && Canonical(p) && Segments(p) == Segments(dir) + [name]
    ensures ChildPrefix(dir) + name == p
  {
    SegmentsAreNormal(p);
    assert Segments(p)[|Segments(dir)|] == name;
    JoinChild(dir, name);
  }

  lemma WitnessedIsFolder(nodes: Nodes, dir: string, viewer: Viewer, p: string, j: string)
    requires WellFormed(nodes) && Canonical(dir) && p in nodes && FolderWitness(nodes, dir, viewer, p, j)
    ensures nodes[p].isFolder
  {
    WitnessedFolder(nodes, dir, viewer, p, j);
    if |Segments(j)| == |Segments(dir)| + 1 {
      assert Segments(j)[..|Segments(j)|] == Segments(j);
      CanonicalDetermined(j, p);
    } else {
      assert Segments(p) < Segments(j);
    }
  }

  // ---------- Reachability ----------

  /** A walk from the root that opens one listed folder after the other. */
  ghost predicate Walk(nodes: Nodes, viewer: Viewer, stops: seq<string>) {
    && stops != [] && stops[0] == "/"
    && (forall i | 0 <= i < |stops| :: Rooted(stops[i]))
    && (forall i | 0 < i < |stops| :: ListsFolder(nodes, stops[i - 1], viewer, stops[i]))
  }

  lemma {:induction false} WalkDepth(nodes: Nodes, viewer: Viewer, stops: seq<string>)
    requires CanonicalKeys(nodes) && Walk(nodes, viewer, stops)
    ensures Canonical(stops[|stops| - 1]) && |Segments(stops[|stops| - 1])| == |stops| - 1
    decreases stops
  {
    RootIsCanonical();
    if |stops| > 1 {
      var n := |stops| - 1;
      assert ListsFolder(nodes, stops[n - 1], viewer, stops[n]);
      WalkDepth(nodes, viewer, stops[..n]);
      var _ := FolderHasReadableKey(nodes, stops[n - 1], viewer, stops[n]);
    }
  }

  /** The walk down the ancestors of a key, `depth` folders deep. */
  function Ancestors(k: string, depth: nat): (stops: seq<string>)
    requires Rooted(k) && depth <= |Segments(k)|
    ensures |stops| == depth + 1
  {
    seq(depth + 1, i requires 0 <= i <= depth => Render(Segments(k)[..i]))
  }

  lemma AncestorWalk(nodes: Nodes, viewer: Viewer, k: string, depth: nat)
    requires CanonicalKeys(nodes) && k in nodes && Readable(viewer, k) && depth < |Segments(k)|
    ensures Walk(nodes, viewer, Ancestors(k, depth))
  {
    var stops := Ancestors(k, depth);
    assert Segments(k)[..0] == [];
    SegmentsOfRender([]);
    SegmentsAreNormal(k);
    forall i | 0 < i < |stops| ensures ListsFolder(nodes, stops[i - 1], viewer, stops[i]) {
      var above := Segments(k)[..i - 1];
      SegmentsOfRender(above);
      assert Segments(stops[i - 1]) == above;
      assert FolderWitness(nodes, stops[i - 1], viewer, stops[i], k);
      FolderIffWitness(nodes, stops[i - 1], viewer, stops[i]);
    }
  }

  lemma WalkToEntryLength(nodes: Nodes, viewer: Viewer, k: string, stops: seq<string>)
    requires CanonicalKeys(nodes) && k in nodes && Walk(nodes, viewer, stops) &&
             ListsEntry(nodes, stops[|stops| - 1], viewer, k)
    ensures |stops| == |Segments(k)|
  {
    WalkDepth(nodes, viewer, stops);
    EntryIsReadableSecret(nodes, stops[|stops| - 1], viewer, k);
  }

  lemma EntryAtParent(nodes: Nodes, viewer: Viewer, k: string, n: nat)
    requires CanonicalKeys(nodes) && k in nodes && !nodes[k].isFolder && Readable(viewer, k) && n + 1 == |Segments(k)|
    ensures ListsEntry(nodes, Render(Segments(k)[..n]), viewer, k)
  {
    SegmentsAreNormal(k);
    SegmentsOfRender(Segments(k)[..n]);
    EntryIsReadableSecret(nodes, Render(Segments(k)[..n]), viewer, k);
  }

  /** Each readable secret with n segments can be reached: there is a walk of n - 1 folder
      steps whose last listing shows it, and every walk that shows it has that length. */
  lemma ReadableSecretsReachable(nodes: Nodes, viewer: Viewer, k: string)
    requires CanonicalKeys(nodes) && k in nodes && !nodes[k].isFolder && Readable(viewer, k) && k != "/"
    ensures Segments(k) != [] && var stops := Ancestors(k, |Segments(k)| - 1);
              Walk(nodes, viewer, stops) && ListsEntry(nodes, stops[|stops| - 1], viewer, k)
    ensures forall stops | Walk(nodes, viewer, stops) && ListsEntry(nodes, stops[|stops| - 1], viewer, k) ::
              |stops| == |Segments(k)|
  {
    OnlyRootHasNoSegments(k);
    var n := |Segments(k)| - 1;
    AncestorWalk(nodes, viewer, k, n);
    EntryAtParent(nodes, viewer, k, n);
    forall stops | Walk(nodes, viewer, stops) && ListsEntry(nodes, stops[|stops| - 1], viewer, k)
      ensures |stops| == |Segments(k)|
    {
      WalkToEntryLength(nodes, viewer, k, stops);
    }
  }

  lemma OnlyRootHasNoSegments(k: string)
    requires Canonical(k) && k != "/"
    ensures Segments(k) != []
  {
    RootIsCanonical();
    if Segments(k) == [] {
      CanonicalDetermined(k, "/");
    }
  }
}
