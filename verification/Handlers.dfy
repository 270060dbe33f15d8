/** The write requests of the admin UI: what /update and /delete check before they touch the
    vault, and what that means for every run of the protocol. */
module Handlers {
  import opened Listing
  import opened Paths
  import opened Permissions
  import opened Protocol
  import opened Runs
  import opened Strings
  import opened VaultManagers
  import opened VaultTrees
  import opened Wrappers

  /** Form values as posted. */
  datatype Request = UpdateRequest(path: string, isFolder: bool, value: string) | DeleteRequest(path: string)

  datatype Refusal = Locked | BadPath(pathError: PathError) | ValueRequired | Forbidden | VaultError(failure: Failure)

  /** The key a request is about; only /update trims its form value. */
  function TargetOf(req: Request): (path: string)
    ensures Rooted(path)
  {
    match req
    case UpdateRequest(path, _, _) => NormalizePath(TrimSpace(path))
    case DeleteRequest(path) => NormalizePath(path)
  }

  /** The key that a posted text names: blanks around it do not count, and a missing slash in front
      is added. */
  ghost predicate Names(text: string, key: string) {
    exists pre, core, post :: Spelled(text, key, pre, core, post)
  }

  predicate Spelled(text: string, key: string, pre: string, core: string, post: string) {
    && Blank(pre) && Trimmed(core) && Blank(post) && text == pre + core + post
    && key == if core != "" && core[0] == '/' then core else "/" + core
  }

  lemma NormalizedKey(p: string)
    ensures NormalizePath(p) == if p != "" && p[0] == '/' then p else "/" + p
  {
    if Rooted(p) {
      NormalizeRooted(p);
    } else {
      NormalizeUnrooted(p);
    }
  }

  /** /update writes exactly the key that was posted; /delete takes its text as it is. */
  lemma TargetIsPosted(req: Request, key: string)
    ensures req.UpdateRequest? ==> (Names(req.path, key) <==> key == TargetOf(req))
    ensures req.DeleteRequest? ==>
              TargetOf(req) == if req.path != "" && req.path[0] == '/' then req.path else "/" + req.path
  {
    NormalizedKey(req.path);
    if req.UpdateRequest? {
      var pre, post := TrimSpaceCuts(req.path);
      TrimSpaceTrimmed(req.path);
      NormalizedKey(TrimSpace(req.path));
      assert Spelled(req.path, TargetOf(req), pre, TrimSpace(req.path), post);
      if Names(req.path, key) {
        var pre2, core, post2 :| Spelled(req.path, key, pre2, core, post2);
        TrimBlank(pre2, core, post2);
      }
    }
  }

  /** The closure passed to UpdateVault. */
  function ModifierOf(req: Request): Modifier {
    match req
    case UpdateRequest(_, isFolder, value) => (nodes: Nodes) => UpdateNodes(nodes, TargetOf(req), value, isFolder)
    case DeleteRequest(_) => (nodes: Nodes) => Some(DeleteNode(nodes, TargetOf(req)))
  }

  /** The request passes the handler's checks. */
  predicate Admitted(req: Request, viewer: Viewer) {
    && (req.UpdateRequest? ==> ValidKey(TargetOf(req)) && (req.isFolder || req.value != ""))
    && (viewer.None? || viewer.value.CanWrite(TargetOf(req)))
  }

  predicate ValueMissing(req: Request) {
    req.UpdateRequest? && !req.isFolder && req.value == ""
  }

  /** The first check that fails. */
  predicate FirstRefusal(req: Request, viewer: Viewer, refused: Refusal) {
    match refused
    case BadPath(pathError) => req.UpdateRequest? && Breaks(TargetOf(req), pathError)
    case ValueRequired => ValidKey(TargetOf(req)) && ValueMissing(req)
    case Forbidden =>
      && (req.UpdateRequest? ==> ValidKey(TargetOf(req)) && !ValueMissing(req))
      && viewer.Some? && !viewer.value.CanWrite(TargetOf(req))
    case _ => false
  }

  /** Permission is checked last and the value after the path: what is refused for one of them
      would have passed all checks before it. A bad path stays bad. */
  lemma RefusalsInOrder(req: Request, viewer: Viewer, refused: Refusal, other: Viewer, value: string)
    requires FirstRefusal(req, viewer, refused)
    ensures refused.Forbidden? ==> Admitted(req, None)
    ensures refused.ValueRequired? ==> req.UpdateRequest? && (value != "" ==> Admitted(req.(value := value), None))
    ensures refused.BadPath? ==>
              req.UpdateRequest? && !Admitted(req.(value := value), other) && FirstRefusal(req, other, refused)
    ensures !refused.Locked? && !refused.VaultError? && !Admitted(req, viewer)
  {
  }

  /** The checks of /update and /delete, in their order: path, value, permission. */
  method Admit(req: Request, viewer: Viewer) returns (refused: Option<Refusal>)
    ensures refused.None? <==> Admitted(req, viewer)
    ensures refused.Some? ==> FirstRefusal(req, viewer, refused.value)
  {
    var path := TargetOf(req);
    if req.UpdateRequest? {
      var pathError := ValidateVaultPath(path);
      if pathError.Some? {
        return Some(BadPath(pathError.value));
      }
      if !req.isFolder && req.value == "" {
        return Some(ValueRequired);
      }
    }
    if viewer.Some? && !viewer.value.CanWrite(path) {
      return Some(Forbidden);
    }
    return None;
  }

  // ---------- Runs in which every update comes from a handler ----------

  datatype Posted = Posted(req: Request, viewer: Viewer)

  /** Every UpdateVault call of the run is an admitted request. */
  ghost predicate Served(labels: seq<Label>, posted: map<nat, Posted>) {
    forall k | 0 <= k < |labels| && labels[k].BeginUpdate? ::
      labels[k].call in posted && Admitted(posted[labels[k].call].req, posted[labels[k].call].viewer) &&
      labels[k].modifier == ModifierOf(posted[labels[k].call].req)
  }

  ghost predicate ServedTurn(turn: Turn, posted: map<nat, Posted>) {
    Served(turn.beforeGet, posted) && Served(turn.beforeWrite, posted)
  }

  lemma ServedAppend(a: seq<Label>, b: seq<Label>, posted: map<nat, Posted>)
    requires Served(a, posted) && Served(b, posted)
    ensures Served(a + b, posted)
  {
  }

  lemma ServedMore(labels: seq<Label>, posted: map<nat, Posted>, me: nat, mine: Posted)
    requires Served(labels, posted) && (Foreign(labels, me) || me !in posted)
    ensures Served(labels, posted[me := mine])
  {
  }

  lemma ServedRound(me: nat, turn: Turn, version: Option<nat>, posted: map<nat, Posted>, mine: Posted)
    requires ForeignTurn(turn, me) && ServedTurn(turn, posted)
    ensures Served(Round(me, turn, version), posted[me := mine])
  {
    ServedMore(turn.beforeGet, posted, me, mine);
    ServedMore(turn.beforeWrite, posted, me, mine);
  }

  /** Next to an environment of handler requests, a handler request makes a run of handler
      requests. */
  lemma {:induction false} ServedUpdate(me: nat, mgr: nat, mine: Posted, env: nat -> Turn, versions: seq<Option<nat>>,
                                        posted: map<nat, Posted>)
    requires Admitted(mine.req, mine.viewer)
    requires forall attempt: nat :: ForeignTurn(env(attempt), me) && ServedTurn(env(attempt), posted)
    ensures Served(UpdateSteps(me, mgr, ModifierOf(mine.req), env, versions), posted[me := mine])
    decreases versions
  {
    if versions != [] {
      var n := |versions| - 1;
      ServedUpdate(me, mgr, mine, env, versions[..n], posted);
      ServedRound(me, env(n), versions[n], posted, mine);
      ServedAppend(UpdateSteps(me, mgr, ModifierOf(mine.req), env, versions[..n]), Round(me, env(n), versions[n]),
                   posted[me := mine]);
    }
  }

  function Lookup(nodes: Nodes, k: string): Option<VaultNode> {
    if k in nodes then Some(nodes[k]) else None
  }

  /** What a request wants its key to hold afterwards. */
  function Intent(req: Request): Option<VaultNode> {
    match req
    case UpdateRequest(_, isFolder, value) => Some(VaultNode(value, isFolder))
    case DeleteRequest(_) => None
  }

  /** Exactly one commit of the call, which gave the key what is wanted and left the others. */
  ghost predicate Wrote(before: System, after: System, me: nat, key: string, wanted: Option<VaultNode>) {
    CommitsOf(after.log, me) == 1 && exists i :: WroteAt(before, after, me, key, wanted, i)
  }

  ghost predicate WroteAt(before: System, after: System, me: nat, key: string, wanted: Option<VaultNode>, i: nat) {
    && |before.log| <= i < |after.log| && after.log[i].call == me
    && (key in after.log[i].after <==> wanted.Some?)
    && (wanted.Some? ==> after.log[i].after[key] == wanted.value)
    && Replay(StoredTree(after.origin), after.log[..i]).Some?
    && forall k | k != key ::
         Lookup(after.log[i].after, k) == Lookup(Replay(StoredTree(after.origin), after.log[..i]).value, k)
  }

  lemma CommitWrote(before: System, after: System, me: nat, req: Request)
    requires CommittedOnce(before, after, me, ModifierOf(req))
    ensures Wrote(before, after, me, TargetOf(req), Intent(req))
  {
    var i :| CommitAt(before, after, me, ModifierOf(req), i);
    assert WroteAt(before, after, me, TargetOf(req), Intent(req), i);
  }

  lemma PostedWrote(before: System, after: System, me: nat, req: Request)
    requires CommittedOnce(before, after, me, ModifierOf(req))
    ensures req.UpdateRequest? ==> forall key ::
              Names(req.path, key) ==> Wrote(before, after, me, key, Some(VaultNode(req.value, req.isFolder)))
    ensures req.DeleteRequest? && req.path != "" && req.path[0] == '/' ==> Wrote(before, after, me, req.path, None)
  {
    CommitWrote(before, after, me, req);
    TargetIsPosted(req, TargetOf(req));
    forall key | req.UpdateRequest? && Names(req.path, key) ensures key == TargetOf(req) {
      TargetIsPosted(req, key);
    }
  }

  /** A whole write request: refused before the vault is touched, or one UpdateVault call of its
      own modifier next to whatever the environment does. */
  method Serve(vm: VaultManager, me: nat, req: Request, viewer: Viewer, env: nat -> Turn,
               ghost posted: map<nat, Posted>)
      returns (err: Option<Refusal>, ghost versions: seq<Option<nat>>)
    requires vm.Valid() && me !in vm.cluster.sys.calls
    requires forall attempt: nat :: ForeignTurn(env(attempt), me)
    modifies vm, vm.cluster
    ensures vm.Valid()
    ensures err == Some(Locked) <==> old(vm.isLocked)
    ensures !old(vm.isLocked) ==> (Admitted(req, viewer) <==> err.None? || err.value.VaultError?)
    ensures !old(vm.isLocked) && !Admitted(req, viewer) ==> FirstRefusal(req, viewer, err.value)
    ensures old(vm.isLocked) || !Admitted(req, viewer) ==> vm.cluster.sys == old(vm.cluster.sys)
    ensures !old(vm.isLocked) && Admitted(req, viewer) ==>
              && RoundsOk(versions)
              && vm.cluster.sys == Run(old(vm.cluster.sys), UpdateSteps(me, vm.id, ModifierOf(req), env, versions))
              && Reports(vm.cluster.sys, me, ModifierOf(req), if err.None? then None else Some(err.value.failure))
    ensures !old(vm.isLocked) && Admitted(req, viewer) && (forall attempt: nat :: ServedTurn(env(attempt), posted)) ==>
              Served(UpdateSteps(me, vm.id, ModifierOf(req), env, versions), posted[me := Posted(req, viewer)])
    ensures err.None? ==> CommittedOnce(old(vm.cluster.sys), vm.cluster.sys, me, ModifierOf(req))
    ensures err.None? && req.UpdateRequest? ==> forall key :: Names(req.path, key) ==>
              Wrote(old(vm.cluster.sys), vm.cluster.sys, me, key, Some(VaultNode(req.value, req.isFolder)))
    ensures err.None? && req.DeleteRequest? && req.path != "" && req.path[0] == '/' ==>
              Wrote(old(vm.cluster.sys), vm.cluster.sys, me, req.path, None)
    ensures err.Some? && err.value.VaultError? ==>
              NotCommitted(vm.cluster.sys, me) &&
              Forget(vm.cluster.sys, me) == Run(old(vm.cluster.sys), Turns(env, versions))
    ensures Admitted(req, viewer) && !old(vm.isLocked) && Undisturbed(env(0)) ==>
              (Succeeds(old(vm.cluster.secret), old(vm.identity), ModifierOf(req)) ==> err.None?)
  {
    ghost var start := vm.cluster.sys;
    versions := [];
    if vm.isLocked {
      return Some(Locked), versions;
    }
    var refused := Admit(req, viewer);
    if refused.Some? {
      return refused, versions;
    }
    var failure;
    failure, versions := vm.UpdateVault(me, ModifierOf(req), env);
    if forall attempt: nat :: ServedTurn(env(attempt), posted) {
      ServedUpdate(me, vm.id, Posted(req, viewer), env, versions, posted);
    }
    if failure.Some? {
      return Some(VaultError(failure.value)), versions;
    }
    PostedWrote(start, vm.cluster.sys, me, req);
    return None, versions;
  }

  /** A run of handler requests goes on as one: after a request was served, all that is proved of
      such runs holds of the longer run. */
  lemma HistoryGoesOn(s0: System, past: seq<Label>, steps: seq<Label>, posted: map<nat, Posted>, me: nat, mine: Posted)
    requires Served(past, posted) && me !in posted && Served(steps, posted[me := mine])
    ensures Served(past + steps, posted[me := mine])
    ensures Run(s0, past + steps) == Run(Run(s0, past), steps)
  {
    ServedMore(past, posted, me, mine);
    ServedAppend(past, steps, posted[me := mine]);
    RunAppend(s0, past, steps);
  }

  /** Who may post what, for a canonical key: an update needs a valid key and, for a secret, a
      value; the user must be an admin or granted the place the key literally names. */
  lemma AdmittedExactly(req: Request, viewer: Viewer, key: string)
    requires key == TargetOf(req) && Canonical(key)
    ensures Admitted(req, viewer) <==>
            && (req.UpdateRequest? ==> ValidKey(key) && (req.value == "" ==> req.isFolder))
            && (viewer.Some? && !viewer.value.isAdmin ==> GrantedByAny(viewer.value.patterns, LiteralSegments(key)))
  {
    if viewer.Some? {
      UserAccessIsLiteral(viewer.value, key);
    }
  }

  /** No secret is empty. */
  predicate SecretsHaveValues(nodes: Nodes) {
    forall k | k in nodes && !nodes[k].isFolder :: nodes[k].value != ""
  }

  lemma RequestKeepsValues(req: Request, viewer: Viewer)
    requires Admitted(req, viewer)
    ensures Keeps(ModifierOf(req), SecretsHaveValues)
  {
  }

  /** If the initial vault has no empty secret, no run of requests ever stores one. */
  lemma SecretsKeepValues(s0: System, labels: seq<Label>, posted: map<nat, Posted>, i: nat)
    requires Initial(s0) && SecretsHaveValues(StoredTree(s0.secret)) && Served(labels, posted)
    requires i <= |Run(s0, labels).log|
    ensures SecretsHaveValues(StoredTree(SecretAt(s0.secret, Run(s0, labels).log, i)))
  {
    forall k | 0 <= k < |labels| && labels[k].BeginUpdate? ensures Keeps(labels[k].modifier, SecretsHaveValues) {
      RequestKeepsValues(posted[labels[k].call].req, posted[labels[k].call].viewer);
    }
    TreePropertyHolds(s0, labels, SecretsHaveValues, i);
  }

  lemma ModifierKeepsWellFormed(req: Request, viewer: Viewer)
    requires Admitted(req, viewer)
    ensures Keeps(ModifierOf(req), WellFormed)
  {
    forall nodes | WellFormed(nodes) && ModifierOf(req)(nodes).Some? ensures WellFormed(ModifierOf(req)(nodes).value) {
      if req.UpdateRequest? {
        UpdateKeepsWellFormed(nodes, TargetOf(req), req.value, req.isFolder);
      }
    }
  }

  /** From a well-formed vault, under any interleaving of requests, every tree that is ever
      stored is well-formed. */
  lemma TreesStayWellFormed(s0: System, labels: seq<Label>, posted: map<nat, Posted>, i: nat)
    requires Initial(s0) && WellFormed(StoredTree(s0.secret)) && Served(labels, posted)
    requires i <= |Run(s0, labels).log|
    ensures WellFormed(StoredTree(SecretAt(s0.secret, Run(s0, labels).log, i)))
  {
    forall k | 0 <= k < |labels| && labels[k].BeginUpdate? ensures Keeps(labels[k].modifier, WellFormed) {
      ModifierKeepsWellFormed(posted[labels[k].call].req, posted[labels[k].call].viewer);
    }
    TreePropertyHolds(s0, labels, WellFormed, i);
  }

  // ---------- Authorize, then act ----------

  /** Both trees say the same about the key. */
  predicate SameAt(a: Nodes, b: Nodes, k: string) {
    (k in a <==> k in b) && (k in a && k in b ==> a[k] == b[k])
  }

  lemma ChangesOnlyTarget(req: Request, nodes: Nodes, k: string)
    requires CanonicalKeys(nodes) && (req.UpdateRequest? ==> ValidKey(TargetOf(req)))
    requires ModifierOf(req)(nodes).Some? && !SameAt(nodes, ModifierOf(req)(nodes).value, k)
    ensures k == TargetOf(req) && Canonical(k)
  {
  }

  /** A non-admin request changes one key at most, and the user's patterns grant the place
      that key literally names, although the check was made on the cleaned path. */
  lemma RequestStaysInGrant(req: Request, up: UserPermissions, nodes: Nodes, k: string)
    requires Admitted(req, Some(up)) && !up.isAdmin && CanonicalKeys(nodes)
    requires ModifierOf(req)(nodes).Some? && !SameAt(nodes, ModifierOf(req)(nodes).value, k)
    ensures k == TargetOf(req) && Canonical(k)
    ensures GrantedByAny(up.patterns, LiteralSegments(k))
  {
    ChangesOnlyTarget(req, nodes, k);
    ReadableIsGranted(k, up);
  }

  /** The same for every commit of every run. */
  lemma CommitsStayInGrant(s0: System, labels: seq<Label>, posted: map<nat, Posted>, i: nat, k: string)
    requires Initial(s0) && WellFormed(StoredTree(s0.secret)) && Served(labels, posted)
    requires i < |Run(s0, labels).log|
    requires !SameAt(StoredTree(SecretAt(s0.secret, Run(s0, labels).log, i)), Run(s0, labels).log[i].after, k)
    ensures var c := Run(s0, labels).log[i].call;
            && c in posted && k == TargetOf(posted[c].req)
            && (posted[c].viewer.Some? && !posted[c].viewer.value.isAdmin ==>
                  GrantedByAny(posted[c].viewer.value.patterns, LiteralSegments(k)))
  {
    var s := Run(s0, labels);
    var before := SecretAt(s0.secret, s.log, i);
    var c := s.log[i].call;
    TreesStayWellFormed(s0, labels, posted, i);
    var n := CommitFromLabel(s0, labels, i);
    assert labels[n].modifier == ModifierOf(posted[c].req);
    if posted[c].viewer.Some? && !posted[c].viewer.value.isAdmin {
      RequestStaysInGrant(posted[c].req, posted[c].viewer.value, StoredTree(before), k);
    }
  }

  /** Every non-admin who may delete the key is granted the place it literally names. */
  ghost predicate DeletesStayInGrant(key: string)
    requires Rooted(key)
  {
    forall up: UserPermissions | !up.isAdmin && Admitted(DeleteRequest(key), Some(up)) ::
      GrantedByAny(up.patterns, LiteralSegments(key))
  }

  // What the agreement needs of the stored keys, for every rooted key: it is canonical, or its
  // cleaned form ends in "/*" and its segments are the first parts of what is written.
  lemma RawKeysEscapeGrants(key: string, node: VaultNode)
    requires Rooted(key)
    ensures DeletesStayInGrant(key) <==> CleansHarmlessly(key)
    ensures ModifierOf(DeleteRequest(key))(map[key := node]) == Some(map[])
  {
    NormalizeRooted(key);
    if CleansHarmlessly(key) {
      forall up: UserPermissions | !up.isAdmin && Admitted(DeleteRequest(key), Some(up))
        ensures GrantedByAny(up.patterns, LiteralSegments(key))
      {
        ReadableIsGranted(key, up);
      }
    } else {
      var pattern := EscapingPattern(key);
      EscapingUser(key, pattern);
    }
  }

  lemma EscapingUser(key: string, pattern: string)
    requires Rooted(key) && MatchPermission(pattern, key) && !Grants(pattern, LiteralSegments(key))
    ensures Admitted(DeleteRequest(key), Some(UserPermissions(false, [pattern]))) && !DeletesStayInGrant(key)
  {
    var up := UserPermissions(false, [pattern]);
    NormalizeRooted(key);
    assert up.patterns[0] == pattern;
    assert Admitted(DeleteRequest(key), Some(up));
  }

  /** Two raw keys that both clean to the path written with a star below "/a": the first escapes,
      by the wildcard below that path, and the second does not. */
  lemma RawStarKeys()
    ensures Admitted(DeleteRequest("/a//*"), Some(UserPermissions(false, ["/a/*/*"])))
    ensures !Grants("/a/*/*", LiteralSegments("/a//*")) && !DeletesStayInGrant("/a//*")
    ensures !Canonical("/a/*/") && DeletesStayInGrant("/a/*/")
  {
    StarKeys();
    assert IsWildcard("/a/*");
    RawKeysEscapeGrants("/a/*/", VaultNode("", false));
    StarPattern();
    EscapingUser("/a//*", "/a/*/*");
  }

  lemma StarPattern()
    ensures MatchPermission("/a/*/*", "/a//*") && !Grants("/a/*/*", LiteralSegments("/a//*"))
  {
    StarKeys();
    assert ChildPrefix("/a/*") + "*" == "/a/*/*";
    CanonicalWildcard("/a/*", "/a//*");
    NormalizeRooted("/a//*");
    NormalizeRooted("/a/*/*");
    WildcardGrants("/a/*", LiteralSegments("/a//*"));
  }

  lemma ThreeParts(x: string, y: string, z: string)
    requires '/' !in x && '/' !in y && '/' !in z
    ensures var p := "/" + (x + "/" + (y + "/" + z)); Rooted(p) && Parts(p) == [x, y, z]
  {
    SplitWithoutSep(x, '/');
    SplitWithoutSep(y, '/');
    SplitWithoutSep(z, '/');
    SplitAppend(y, z, '/');
    SplitAppend(x, y + "/" + z, '/');
    var rest := x + "/" + (y + "/" + z);
    assert ("/" + rest)[1..] == rest;
  }

  lemma ResolveStar()
    ensures Resolve([], ["a", "", "*"]) == Resolve([], ["a", "*", ""]) == ["a", "*"]
  {
    assert ["a", "", "*"][1..] == ["", "*"] && ["", "*"][1..] == ["*"];
    assert ["a", "*", ""][1..] == ["*", ""] && ["*", ""][1..] == [""];
    assert ["*"][1..] == [] && [""][1..] == [];
  }

  lemma StarKeys()
    ensures Segments("/a//*") == ["a", "*"] && LiteralSegments("/a//*") == ["a", "", "*"]
    ensures Segments("/a/*/") == ["a", "*"] && LiteralSegments("/a/*/") == ["a", "*", ""]
    ensures Clean("/a/*/") == "/a/*" && Canonical("/a/*") && Segments("/a/*") == ["a", "*"]
  {
    ThreeParts("a", "", "*");
    ThreeParts("a", "*", "");
    ResolveStar();
    assert "/" + ("a" + "/" + ("" + "/" + "*")) == "/a//*";
    assert "/" + ("a" + "/" + ("*" + "/" + "")) == "/a/*/";
    CleanOfStar("/a/*/");
  }

  lemma CleanOfStar(p: string)
    requires Rooted(p) && Segments(p) == ["a", "*"]
    ensures Clean(p) == "/a/*" && Canonical("/a/*") && Segments("/a/*") == ["a", "*"]
  {
    assert ["a", "*"][1..] == ["*"] && Render(["a", "*"]) == "/a/*";
    CleanIsCanonical(p);
  }

  // ---------- Requests that do not get in each other's way ----------

  /** `a` is accepted on a tree that holds nothing but the node of `b`. */
  predicate Compatible(a: Request, b: Request) {
    b.UpdateRequest? ==> ModifierOf(a)(map[TargetOf(b) := VaultNode(b.value, b.isFolder)]).Some?
  }

  function Accepting(req: Request): Nodes -> bool {
    (nodes: Nodes) => ModifierOf(req)(nodes).Some?
  }

  lemma CompatibleKeeps(a: Request, b: Request)
    requires Compatible(a, b)
    ensures Keeps(ModifierOf(b), Accepting(a))
  {
    forall nodes | Accepting(a)(nodes) && ModifierOf(b)(nodes).Some?
      ensures Accepting(a)(ModifierOf(b)(nodes).value)
    {
      if a.UpdateRequest? {
        AcceptedWhenFree(a, nodes);
        AcceptedWhenFree(a, ModifierOf(b)(nodes).value);
        if b.UpdateRequest? {
          var node := VaultNode(b.value, b.isFolder);
          AcceptedWhenFree(a, map[TargetOf(b) := node]);
          InsertKeepsFree(nodes, TargetOf(a), a.isFolder, TargetOf(b), node);
          assert ModifierOf(b)(nodes) == UpdateNodes(nodes, TargetOf(b), b.value, b.isFolder);
        } else {
          DeleteKeepsFree(nodes, TargetOf(a), a.isFolder, TargetOf(b));
          assert ModifierOf(b)(nodes) == Some(DeleteNode(nodes, TargetOf(b)));
        }
      } else {
        assert ModifierOf(a)(ModifierOf(b)(nodes).value).Some?;
      }
    }
  }

  lemma AcceptedWhenFree(req: Request, nodes: Nodes)
    requires req.UpdateRequest?
    ensures Accepting(req)(nodes) <==> ConflictFree(nodes, TargetOf(req), req.isFolder)
    ensures Accepting(req)(nodes) <==> ModifierOf(req)(nodes).Some?
  {
    assert ModifierOf(req)(nodes) == UpdateNodes(nodes, TargetOf(req), req.value, req.isFolder);
  }

  lemma InsertKeepsFree(nodes: Nodes, path: string, isFolder: bool, other: string, node: VaultNode)
    requires ConflictFree(nodes, path, isFolder) && ConflictFree(map[other := node], path, isFolder)
    ensures ConflictFree(nodes[other := node], path, isFolder)
  {
    assert other in map[other := node];
  }

  lemma DeleteKeepsFree(nodes: Nodes, path: string, isFolder: bool, other: string)
    requires ConflictFree(nodes, path, isFolder)
    ensures ConflictFree(DeleteNode(nodes, other), path, isFolder)
  {
  }

  lemma CallIsPosted(s0: System, labels: seq<Label>, posted: map<nat, Posted>, c: nat)
    requires Initial(s0) && Served(labels, posted) && c in Run(s0, labels).calls && Run(s0, labels).calls[c].UpdateCall?
    ensures c in posted && Run(s0, labels).calls[c].modifier == ModifierOf(posted[c].req)
    ensures Admitted(posted[c].req, posted[c].viewer)
  {
    CallsFromLabels(s0, labels, c);
    var u := Run(s0, labels).calls[c];
    var k :| 0 <= k < |labels| && labels[k] == BeginUpdate(c, u.mgr, u.modifier);
    assert labels[k].BeginUpdate?;
  }

  lemma CompatibleWithItself(req: Request)
    ensures Compatible(req, req)
  {
    if req.UpdateRequest? {
      AcceptedWhenFree(req, map[TargetOf(req) := VaultNode(req.value, req.isFolder)]);
    }
  }

  /** The other requests that commit from position `from` on are compatible with `c`'s. */
  ghost predicate CompatibleCommits(log: seq<Commit>, posted: map<nat, Posted>, c: nat, from: nat)
    requires c in posted
  {
    forall n | from <= n < |log| && log[n].call != c && log[n].call in posted ::
      Compatible(posted[c].req, posted[log[n].call].req)
  }

  lemma CompatibleStep(s0: System, labels: seq<Label>, posted: map<nat, Posted>, c: nat, from: nat, n: nat)
    requires Initial(s0) && Served(labels, posted) && c in posted && from <= n < |Run(s0, labels).log|
    requires CompatibleCommits(Run(s0, labels).log, posted, c, from)
    requires Accepting(posted[c].req)(StoredTree(SecretAt(s0.secret, Run(s0, labels).log, n)))
    ensures Accepting(posted[c].req)(Run(s0, labels).log[n].after)
  {
    var k := CommitFromLabel(s0, labels, n);
    CompatibleWithItself(posted[c].req);
    CompatibleKeeps(posted[c].req, posted[labels[k].call].req);
    assert Keeps(labels[k].modifier, Accepting(posted[c].req));
  }

  /** Once accepted, always accepted while only compatible requests commit. */
  lemma CompatibleNeverRejected(s0: System, labels: seq<Label>, posted: map<nat, Posted>, c: nat, from: nat, i: nat)
    requires Initial(s0) && Served(labels, posted) && c in posted && from <= i <= |Run(s0, labels).log|
    requires Accepting(posted[c].req)(StoredTree(SecretAt(s0.secret, Run(s0, labels).log, from)))
    requires CompatibleCommits(Run(s0, labels).log, posted, c, from)
    ensures Accepting(posted[c].req)(StoredTree(SecretAt(s0.secret, Run(s0, labels).log, i)))
  {
    var log, accepting := Run(s0, labels).log, Accepting(posted[c].req);
    forall n | from <= n < |log| ensures KeptAt(s0.secret, log, accepting, n) {
      if accepting(StoredTree(SecretAt(s0.secret, log, n))) {
        CompatibleStep(s0, labels, posted, c, from, n);
      }
    }
    KeptFrom(s0.secret, log, accepting, from, i);
  }

  /** Requests that do not conflict with `c`'s never starve it, as long as at most five take part:
      if the tree that was stored when `c` began accepts it, and whoever commits from then on is
      one of the batch and compatible, then `c`, once it has returned without a failure of its
      own, has committed exactly when its key reads the vault. */
  lemma CompatibleRequestsCommit(s0: System, labels: seq<Label>, posted: map<nat, Posted>, batch: set<nat>, c: nat)
    requires Initial(s0) && Served(labels, posted) && OwnStepsHealthy(labels, c) && c in posted
    requires c in batch && |batch| <= 5
    requires var s := Run(s0, labels);
             && c in s.calls && s.calls[c].UpdateCall? && s.calls[c].pc.Returned? && s.calls[c].begunAt <= |s.log|
             && ModifierOf(posted[c].req)(StoredTree(SecretAt(s0.secret, s.log, s.calls[c].begunAt))).Some?
             && CompatibleCommits(s.log, posted, c, s.calls[c].begunAt)
             && CommittersSince(s.log, s.calls[c].begunAt) <= batch
    ensures var s := Run(s0, labels);
            s.calls[c].pc == Returned(None) <==> TreeFor(s.secret, s.calls[c].key).Some?
  {
    var s := Run(s0, labels);
    CallIsPosted(s0, labels, posted, c);
    LaterRun(s0, labels);
    forall i | s.calls[c].begunAt <= i <= |s.log|
      ensures s.calls[c].modifier(StoredTree(SecretAt(s.origin, s.log, i))).Some?
    {
      CompatibleNeverRejected(s0, labels, posted, c, s.calls[c].begunAt, i);
    }
    BatchOfFiveCommits(s0, labels, batch, c);
  }

  // ---------- What a mount or a page sees ----------

  /** A commit of a served run gives its own key what was asked for and leaves all others. */
  lemma CommitDoesIntent(s0: System, labels: seq<Label>, posted: map<nat, Posted>, i: nat, k: string)
    requires Initial(s0) && Served(labels, posted) && i < |Run(s0, labels).log|
    ensures var s := Run(s0, labels);
            && s.log[i].call in posted
            && var req := posted[s.log[i].call].req;
               Lookup(s.log[i].after, k) ==
                 if k == TargetOf(req) then Intent(req) else Lookup(StoredTree(SecretAt(s0.secret, s.log, i)), k)
  {
    var n := CommitFromLabel(s0, labels, i);
    assert labels[n].modifier == ModifierOf(posted[labels[n].call].req);
  }

  /** What commit `i` left at `k` is still there after `j` commits if none in between touches `k`. */
  lemma {:induction false} EffectLasts(origin: Secret, log: seq<Commit>, k: string, i: nat, j: nat)
    requires i < j <= |log|
    requires forall n | i < n < j :: Lookup(log[n].after, k) == Lookup(StoredTree(SecretAt(origin, log, n)), k)
    ensures Lookup(StoredTree(SecretAt(origin, log, j)), k) == Lookup(log[i].after, k)
    decreases j
  {
    if i < j - 1 {
      EffectLasts(origin, log, k, i, j - 1);
    }
  }

  /** Acknowledged writes are read. Call `c` returned nil by the end of `first`; every snapshot
      taken later (by a mount or a page, which see the commits up to `moment`) shows what `c`
      asked for, unless a later commit is about the same key. */
  lemma AcknowledgedWritesAreRead(s0: System, first: seq<Label>, second: seq<Label>, posted: map<nat, Posted>,
                                  c: nat, i: nat, moment: nat, order: seq<string>, nodes: Nodes)
    requires Initial(s0) && WellFormed(StoredTree(s0.secret)) && Served(first + second, posted)
    requires var s := Run(s0, first); c in s.calls && s.calls[c].UpdateCall? && s.calls[c].pc == Returned(None)
    requires var t := Run(s0, first + second);
             && |Run(s0, first).log| <= moment <= |t.log| && SnapshotAt(t, moment, order, nodes)
             && i < |t.log| && t.log[i].call == c
             && (forall n | i <= n < moment :: t.log[n].call in posted)
             && (forall n | i < n < moment ::
                  TargetOf(posted[t.log[n].call].req) != TargetOf(posted[t.log[i].call].req))
    ensures c in posted && Lookup(nodes, TargetOf(posted[c].req)) == Intent(posted[c].req)
  {
    CommittedBefore(s0, first, second, c, i);
    SnapshotsAreStored(s0, first + second, posted, moment, order, nodes);
    var log := Run(s0, first + second).log;
    CommitDoesIntent(s0, first + second, posted, i, TargetOf(posted[c].req));
    forall n | i < n < moment
      ensures Lookup(log[n].after, TargetOf(posted[c].req)) ==
              Lookup(StoredTree(SecretAt(s0.secret, log, n)), TargetOf(posted[c].req))
    {
      CommitDoesIntent(s0, first + second, posted, n, TargetOf(posted[c].req));
    }
    EffectLasts(s0.secret, log, TargetOf(posted[c].req), i, moment);
  }

  lemma CommittedBefore(s0: System, first: seq<Label>, second: seq<Label>, c: nat, i: nat)
    requires Initial(s0)
    requires var s := Run(s0, first); c in s.calls && s.calls[c].UpdateCall? && s.calls[c].pc == Returned(None)
    requires i < |Run(s0, first + second).log| && Run(s0, first + second).log[i].call == c
    ensures i < |Run(s0, first).log|
  {
    var s, t := Run(s0, first), Run(s0, first + second);
    InvReachable(s0, first);
    InvReachable(s0, first + second);
    RunAppend(s0, first, second);
    LaterRun(s, second);
    assert CallOk(s, c, s.calls[c]);
    var k :| 0 <= k < |s.log| && s.log[k].call == c;
    assert t.log[k].call == c;
  }

  /** Reading never meets an ambiguous spelling: the normalized snapshot is the stored tree. */
  lemma SnapshotsAreStored(s0: System, labels: seq<Label>, posted: map<nat, Posted>, moment: nat, order: seq<string>,
                           nodes: Nodes)
    requires Initial(s0) && WellFormed(StoredTree(s0.secret)) && Served(labels, posted)
    requires moment <= |Run(s0, labels).log| && SnapshotAt(Run(s0, labels), moment, order, nodes)
    ensures nodes == StoredTree(SecretAt(s0.secret, Run(s0, labels).log, moment)) && WellFormed(nodes)
  {
    var s := Run(s0, labels);
    InvReachable(s0, labels);
    LaterRun(s0, labels);
    TreesStayWellFormed(s0, labels, posted, moment);
    ReplayIsStored(s, moment);
    NormalizeRootedIsIdentity(StoredTree(SecretAt(s0.secret, s.log, moment)), order);
  }
}
