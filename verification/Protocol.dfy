/** The optimistic-locking protocol of vault.go as a step system. Many pods share one
    Kubernetes Secret; every request (UpdateVault, Unlock, LoadAndDecrypt) is a call that
    advances by atomic steps, and a run is any sequence of steps of any number of calls.
    Encryption is symbolic, and the API server is a compare-and-swap on the version. */
module Protocol {
  import opened VaultTrees
  import opened Wrappers

  datatype Identity = X25519(secretKey: string)

  datatype Cipher = Enc(key: Identity, nodes: Nodes)

  /** The Secret; `cipher` is its "vault.enc" entry, None when that is missing or empty. */
  datatype Secret = Absent | Present(version: nat, cipher: Option<Cipher>)

  function Decrypt(cipher: Cipher, key: Identity): Option<Nodes> {
    if cipher.key == key then Some(cipher.nodes) else None
  }

  /** The tree a holder of `key` reads; None when it cannot decrypt. */
  function TreeFor(secret: Secret, key: Identity): Option<Nodes> {
    if secret.Present? && secret.cipher.Some? then Decrypt(secret.cipher.value, key) else Some(map[])
  }

  /** The stored tree itself, whoever can read it. */
  function StoredTree(secret: Secret): Nodes {
    if secret.Present? && secret.cipher.Some? then secret.cipher.value.nodes else map[]
  }

  /** A modifier passed to UpdateVault; None when it returns an error. */
  type Modifier = Nodes -> Option<Nodes>

  datatype Manager = Manager(identity: Option<Identity>, isLocked: bool)

  datatype Failure =
    | VaultLocked | AlreadyUnlocked | InvalidKey | ApiError
    | CannotDecrypt | ModifierError | EncryptError | WriteConflict | Exhausted

  /** What the environment does to one step: nothing, a failed API request, or a failed
      encryption. A failed request has no effect on the Secret; a fault that the step cannot
      suffer means nothing to it. */
  datatype Fault = Healthy | ApiFault | EncryptFault

  const MAX_RETRIES: nat := 5

  /** A refused write: where in the commit log its Get and its refusal fall. */
  datatype Loss = Loss(readAt: nat, lostAt: nat)

  datatype UpdatePc =
    | Fetching
    | Writing(snapshot: Secret, nodes: Nodes, readAt: nat)
    | Returned(err: Option<Failure>)

  datatype UnlockPc = Verifying | Installing(sawVault: bool) | UnlockReturned(err: Option<Failure>, sawVault: bool)

  datatype LoadPc = Reading | LoadReturned(result: Result<Nodes, Failure>, readAt: nat)

  /** `begunAt`, `readAt` and `losses` are history: they record log positions and steer nothing. */
  datatype Call =
    | UpdateCall(mgr: nat, key: Identity, modifier: Modifier, begunAt: nat, attempt: nat, pc: UpdatePc,
                 losses: seq<Loss>)
    | UnlockCall(mgr: nat, key: Identity, unlockPc: UnlockPc)
    | LoadCall(mgr: nat, key: Identity, begunAt: nat, loadPc: LoadPc)
    | Refused(mgr: nat, reason: Failure)

  /** One accepted write. */
  datatype Commit = Commit(call: nat, version: nat, key: Identity, modifier: Modifier, after: Nodes)

  datatype System = System(origin: Secret, secret: Secret, managers: map<nat, Manager>, calls: map<nat, Call>,
                           log: seq<Commit>)

  /** One atomic step: which call moves, and what the environment contributes. A step that
      is not possible leaves the system as it is. */
  datatype Label =
    | BeginUpdate(call: nat, mgr: nat, modifier: Modifier)
    | Get(call: nat, fault: Fault)
    | Write(call: nat, version: nat, fault: Fault)
    | BeginUnlock(call: nat, mgr: nat, parsed: Option<Identity>)
    | Verify(call: nat, fault: Fault)
    | Install(call: nat)
    | BeginLoad(call: nat, mgr: nat)
    | Read(call: nat, fault: Fault)

  /** The Secret after the first `i` commits. */
  function SecretAt(origin: Secret, log: seq<Commit>, i: nat): Secret
    requires i <= |log|
  {
    if i == 0 then origin else Present(log[i - 1].version, Some(Enc(log[i - 1].key, log[i - 1].after)))
  }

  /** Kubernetes never hands out a version of this Secret twice. */
  predicate Fresh(s: System, version: nat) {
    forall i | 0 <= i <= |s.log| :: SecretAt(s.origin, s.log, i).Present? ==>
      SecretAt(s.origin, s.log, i).version != version
  }

  /** Create succeeds iff the Secret is absent, Update iff the submitted version is current. */
  predicate Accepts(current: Secret, snapshot: Secret) {
    match snapshot
    case Absent => current.Absent?
    case Present(version, _) => current.Present? && current.version == version
  }

  // ---------- Steps ----------

  function SetCall(s: System, c: nat, call: Call): System {
    s.(calls := s.calls[c := call])
  }

  /** Entry of UpdateVault: the lock state is read once. */
  function StartUpdate(s: System, m: Manager, mgr: nat, modifier: Modifier): Call {
    if m.isLocked || m.identity.None? then Refused(mgr, VaultLocked)
    else UpdateCall(mgr, m.identity.value, modifier, |s.log|, 0, Fetching, [])
  }

  /** Get, then decrypt, modify and encrypt locally. */
  function AfterGet(s: System, u: Call, fault: Fault): UpdatePc
    requires u.UpdateCall?
  {
    if fault == ApiFault then Returned(Some(ApiError))
    else
      var tree := TreeFor(s.secret, u.key);
      if tree.None? then Returned(Some(CannotDecrypt))
      else
        var modified := u.modifier(tree.value);
        if modified.None? then Returned(Some(ModifierError))
        else if fault == EncryptFault then Returned(Some(EncryptError))
        else Writing(s.secret, modified.value, |s.log|)
  }

  /** A refused Create always goes round the loop, a refused Update only before the last attempt. */
  function AfterRefusal(s: System, u: Call): Call
    requires u.UpdateCall? && u.pc.Writing?
  {
    var losses := u.losses + [Loss(u.pc.readAt, |s.log|)];
    if u.pc.snapshot.Absent? then
      u.(losses := losses, attempt := u.attempt + 1,
         pc := if u.attempt + 1 < MAX_RETRIES then Fetching else Returned(Some(Exhausted)))
    else if u.attempt < MAX_RETRIES - 1 then u.(losses := losses, attempt := u.attempt + 1, pc := Fetching)
    else u.(losses := losses, pc := Returned(Some(WriteConflict)))
  }

  function Accepted(s: System, c: nat, u: Call, version: nat): System
    requires u.UpdateCall? && u.pc.Writing?
  {
    System(s.origin, Present(version, Some(Enc(u.key, u.pc.nodes))), s.managers,
           s.calls[c := u.(pc := Returned(None))],
           s.log + [Commit(c, version, u.key, u.modifier, u.pc.nodes)])
  }

  function StartUnlock(m: Manager, mgr: nat, parsed: Option<Identity>): Call {
    if !m.isLocked then Refused(mgr, AlreadyUnlocked)
    else if parsed.None? then Refused(mgr, InvalidKey)
    else UnlockCall(mgr, parsed.value, Verifying)
  }

  /** verifyIdentity: a missing or empty vault accepts any key. */
  function AfterVerify(s: System, u: Call, fault: Fault): UnlockPc
    requires u.UnlockCall?
  {
    if fault == ApiFault then UnlockReturned(Some(ApiError), false)
    else if TreeFor(s.secret, u.key).None? then UnlockReturned(Some(InvalidKey), false)
    else Installing(s.secret.Present? && s.secret.cipher.Some?)
  }

  /** Under the write lock: check again, then install the key. */
  function AfterInstall(s: System, c: nat, u: Call): System
    requires u.UnlockCall? && u.unlockPc.Installing? && u.mgr in s.managers
  {
    if !s.managers[u.mgr].isLocked then
      SetCall(s, c, u.(unlockPc := UnlockReturned(Some(AlreadyUnlocked), u.unlockPc.sawVault)))
    else
      SetCall(s, c, u.(unlockPc := UnlockReturned(None, u.unlockPc.sawVault)))
      .(managers := s.managers[u.mgr := Manager(Some(u.key), false)])
  }

  function StartLoad(s: System, m: Manager, mgr: nat): Call {
    if m.isLocked || m.identity.None? then Refused(mgr, VaultLocked)
    else LoadCall(mgr, m.identity.value, |s.log|, Reading)
  }

  function AfterRead(s: System, u: Call, fault: Fault): LoadPc
    requires u.LoadCall?
  {
    if fault == ApiFault then LoadReturned(Err(ApiError), |s.log|)
    else
      match TreeFor(s.secret, u.key)
      case None => LoadReturned(Err(CannotDecrypt), |s.log|)
      case Some(nodes) => LoadReturned(Ok(nodes), |s.log|)
  }

  function Next(s: System, l: Label): System {
    match l
    case BeginUpdate(c, mgr, modifier) =>
      if c !in s.calls && mgr in s.managers then SetCall(s, c, StartUpdate(s, s.managers[mgr], mgr, modifier)) else s
    case Get(c, fault) =>
      if c in s.calls && s.calls[c].UpdateCall? && s.calls[c].pc.Fetching?
      then SetCall(s, c, s.calls[c].(pc := AfterGet(s, s.calls[c], fault))) else s
    case Write(c, version, fault) =>
      if c in s.calls && s.calls[c].UpdateCall? && s.calls[c].pc.Writing? then
        var u := s.calls[c];
        if fault == ApiFault then SetCall(s, c, u.(pc := Returned(Some(ApiError))))
        else if !Accepts(s.secret, u.pc.snapshot) then SetCall(s, c, AfterRefusal(s, u))
        else if Fresh(s, version) then Accepted(s, c, u, version)
        else s
      else s
    case BeginUnlock(c, mgr, parsed) =>
      if c !in s.calls && mgr in s.managers then SetCall(s, c, StartUnlock(s.managers[mgr], mgr, parsed)) else s
    case Verify(c, fault) =>
      if c in s.calls && s.calls[c].UnlockCall? && s.calls[c].unlockPc.Verifying?
      then SetCall(s, c, s.calls[c].(unlockPc := AfterVerify(s, s.calls[c], fault))) else s
    case Install(c) =>
      if c in s.calls && s.calls[c].UnlockCall? && s.calls[c].unlockPc.Installing? && s.calls[c].mgr in s.managers
      then AfterInstall(s, c, s.calls[c]) else s
    case BeginLoad(c, mgr) =>
      if c !in s.calls && mgr in s.managers then SetCall(s, c, StartLoad(s, s.managers[mgr], mgr)) else s
    case Read(c, fault) =>
      if c in s.calls && s.calls[c].LoadCall? && s.calls[c].loadPc.Reading?
      then SetCall(s, c, s.calls[c].(loadPc := AfterRead(s, s.calls[c], fault))) else s
  }

  function Run(s: System, labels: seq<Label>): System
    decreases labels
  {
    if labels == [] then s else Next(Run(s, labels[..|labels| - 1]), labels[|labels| - 1])
  }

  /** Any Secret, any pods, all of them locked, nothing under way. */
  predicate Initial(s: System) {
    && s.secret == s.origin && s.calls == map[] && s.log == []
    && (forall m | m in s.managers :: s.managers[m] == Manager(None, true))
  }

  // ---------- The invariant ----------

  ghost predicate NotCommitted(s: System, c: nat) {
    forall i | 0 <= i < |s.log| :: s.log[i].call != c
  }

  /** Each refused attempt spans at least one commit, and the attempts do not overlap. */
  predicate LossesOk(losses: seq<Loss>, from: nat, until: nat) {
    && (forall k | 0 <= k < |losses| :: from <= losses[k].readAt < losses[k].lostAt <= until)
    && (forall j, k | 0 <= j < k < |losses| :: losses[j].lostAt <= losses[k].readAt)
  }

  ghost predicate UpdateOk(s: System, c: nat, u: Call)
    requires u.UpdateCall?
  {
    && u.mgr in s.managers && s.managers[u.mgr].identity == Some(u.key)
    && u.begunAt <= |s.log| && LossesOk(u.losses, u.begunAt, |s.log|)
    && (u.losses != [] ==> s.secret.Present?)
    && match u.pc
       case Fetching => u.attempt == |u.losses| < MAX_RETRIES && NotCommitted(s, c)
       case Writing(snapshot, nodes, readAt) =>
         && u.attempt == |u.losses| < MAX_RETRIES && NotCommitted(s, c)
         && u.begunAt <= readAt <= |s.log| && (forall k | 0 <= k < |u.losses| :: u.losses[k].lostAt <= readAt)
         && snapshot == SecretAt(s.origin, s.log, readAt) && (snapshot.Absent? ==> u.losses == [])
         && TreeFor(snapshot, u.key).Some? && u.modifier(TreeFor(snapshot, u.key).value) == Some(nodes)
       case Returned(None) => CommittedAfterLosses(s, c, u.losses)
       case Returned(Some(err)) =>
         && NotCommitted(s, c) && err != Exhausted
         && (err == WriteConflict ==> |u.losses| == MAX_RETRIES)
         && (err == CannotDecrypt ==> FailedRead(s, u, (sec: Secret) => TreeFor(sec, u.key).None?))
         && (err == ModifierError ==>
              FailedRead(s, u, (sec: Secret) =>
                TreeFor(sec, u.key).Some? && u.modifier(TreeFor(sec, u.key).value).None?))
  }

  /** The call has an entry in the log, behind all its refused attempts. */
  ghost predicate CommittedAfterLosses(s: System, c: nat, losses: seq<Loss>) {
    exists i :: 0 <= i < |s.log| && s.log[i].call == c && AllLostBy(losses, i)
  }

  predicate AllLostBy(losses: seq<Loss>, i: nat) {
    forall k | 0 <= k < |losses| :: losses[k].lostAt <= i
  }

  /** The Secret, at some moment of the call, had the property. */
  ghost predicate FailedRead(s: System, u: Call, why: Secret -> bool)
    requires u.UpdateCall?
  {
    exists i :: u.begunAt <= i <= |s.log| && why(SecretAt(s.origin, s.log, i))
  }

  ghost predicate UnlockOk(s: System, c: nat, u: Call)
    requires u.UnlockCall?
  {
    && u.mgr in s.managers
    && (u.unlockPc.Installing? && u.unlockPc.sawVault ==> SealedBy(s, u.key))
    && (u.unlockPc.UnlockReturned? && u.unlockPc.sawVault ==> SealedBy(s, u.key))
    && (Won(u) ==> s.managers[u.mgr].identity == Some(u.key))
  }

  predicate Won(u: Call) {
    u.UnlockCall? && u.unlockPc.UnlockReturned? && u.unlockPc.err == None
  }

  /** The Secret holds a vault encrypted for `key`. */
  predicate SealedBy(s: System, key: Identity) {
    s.secret.Present? && s.secret.cipher.Some? && s.secret.cipher.value.key == key
  }

  ghost predicate LoadOk(s: System, u: Call)
    requires u.LoadCall?
  {
    && u.mgr in s.managers && s.managers[u.mgr].identity == Some(u.key) && u.begunAt <= |s.log|
    && (u.loadPc.LoadReturned? ==> u.begunAt <= u.loadPc.readAt <= |s.log|)
    && (u.loadPc.LoadReturned? && u.loadPc.result.Ok? ==>
          TreeFor(SecretAt(s.origin, s.log, u.loadPc.readAt), u.key) == Some(u.loadPc.result.value))
  }

  ghost predicate CallOk(s: System, c: nat, u: Call) {
    match u
    case UpdateCall(_, _, _, _, _, _, _) => UpdateOk(s, c, u)
    case UnlockCall(_, _, _) => UnlockOk(s, c, u)
    case LoadCall(_, _, _, _) => LoadOk(s, u)
    case Refused(_, _) => true
  }

  /** Entry `i` of the log is the write of a call that returned nil, and its modifier
      succeeded on the very tree it replaced. */
  ghost predicate EntryOk(s: System, i: nat)
    requires i < |s.log|
  {
    var e := s.log[i];
    var before := SecretAt(s.origin, s.log, i);
    && e.call in s.calls && s.calls[e.call].UpdateCall? && s.calls[e.call].pc == Returned(None)
    && s.calls[e.call].modifier == e.modifier && s.calls[e.call].key == e.key && s.calls[e.call].begunAt <= i
    && TreeFor(before, e.key).Some? && e.modifier(TreeFor(before, e.key).value) == Some(e.after)
  }

  ghost predicate LogOk(s: System) {
    && s.secret == SecretAt(s.origin, s.log, |s.log|)
    && (forall i | 0 <= i < |s.log| :: EntryOk(s, i))
    && (forall i, j | 0 <= i < j < |s.log| :: s.log[i].call != s.log[j].call)
    && (forall i, j | 0 <= i < j <= |s.log| && SecretAt(s.origin, s.log, i).Present? ::
          SecretAt(s.origin, s.log, i).version != SecretAt(s.origin, s.log, j).version)
  }

  ghost predicate ManagersOk(s: System) {
    && (forall m | m in s.managers :: s.managers[m].isLocked <==> s.managers[m].identity.None?)
    && (forall m | m in s.managers && !s.managers[m].isLocked :: HasWinner(s, m))
    && (forall c, d | c in s.calls && d in s.calls && Won(s.calls[c]) && Won(s.calls[d]) &&
         s.calls[c].mgr == s.calls[d].mgr :: c == d)
  }

  ghost predicate HasWinner(s: System, m: nat) {
    exists c :: c in s.calls && Won(s.calls[c]) && s.calls[c].mgr == m
  }

  ghost predicate Inv(s: System) {
    LogOk(s) && ManagersOk(s) && forall c | c in s.calls :: CallOk(s, c, s.calls[c])
  }

  // ---------- Every step keeps it ----------

  /** A step that only moves one call, which has not committed and has not won. */
  lemma InvSetCall(s: System, c: nat, u: Call)
    requires Inv(s) && NotCommitted(s, c) && CallOk(s, c, u) && !Won(u)
    requires c in s.calls ==> !Won(s.calls[c])
    ensures Inv(SetCall(s, c, u))
  {
    var t := SetCall(s, c, u);
    forall i | 0 <= i < |t.log| ensures EntryOk(t, i) {
      assert EntryOk(s, i);
    }
    forall d | d in t.calls ensures CallOk(t, d, t.calls[d]) {
      SameWorld(s, t, d, t.calls[d]);
    }
    forall m | m in t.managers && !t.managers[m].isLocked ensures HasWinner(t, m) {
      var w :| w in s.calls && Won(s.calls[w]) && s.calls[w].mgr == m;
      assert w in t.calls && Won(t.calls[w]);
    }
  }

  lemma SameWorld(s: System, t: System, c: nat, u: Call)
    requires t.origin == s.origin && t.secret == s.secret && t.managers == s.managers && t.log == s.log
    requires CallOk(s, c, u)
    ensures CallOk(t, c, u)
  {
    if u.UpdateCall? && u.pc.Returned? && u.pc.err.Some? {
      assert forall why :: FailedRead(s, u, why) ==> FailedRead(t, u, why);
    }
    if u.UpdateCall? {
      assert CommittedAfterLosses(s, c, u.losses) == CommittedAfterLosses(t, c, u.losses);
    }
  }

  lemma FreshCallNotCommitted(s: System, c: nat)
    requires Inv(s) && (c in s.calls ==> !(s.calls[c].UpdateCall? && s.calls[c].pc == Returned(None)))
    ensures NotCommitted(s, c)
  {
    forall i | 0 <= i < |s.log| ensures s.log[i].call != c {
      assert EntryOk(s, i);
    }
  }

  lemma GetOk(s: System, c: nat, u: Call, fault: Fault)
    requires LogOk(s) && u.UpdateCall? && u.pc.Fetching? && UpdateOk(s, c, u)
    ensures UpdateOk(s, c, u.(pc := AfterGet(s, u, fault)))
  {
    assert s.secret == SecretAt(s.origin, s.log, |s.log|);
  }

  lemma InvAfterGet(s: System, c: nat, fault: Fault)
    requires Inv(s) && c in s.calls && s.calls[c].UpdateCall? && s.calls[c].pc.Fetching?
    ensures Inv(SetCall(s, c, s.calls[c].(pc := AfterGet(s, s.calls[c], fault))))
  {
    assert CallOk(s, c, s.calls[c]);
    GetOk(s, c, s.calls[c], fault);
    InvSetCall(s, c, s.calls[c].(pc := AfterGet(s, s.calls[c], fault)));
  }

  lemma InvGet(s: System, c: nat, fault: Fault)
    requires Inv(s) && c in s.calls && s.calls[c].UpdateCall? && s.calls[c].pc.Fetching?
    ensures Inv(Next(s, Get(c, fault)))
  {
    var t := SetCall(s, c, s.calls[c].(pc := AfterGet(s, s.calls[c], fault)));
    assert Inv(t) by {
      InvAfterGet(s, c, fault);
    }
    assert Next(s, Get(c, fault)) == t;
  }

  /** A refusal means the Secret moved since the Get. */
  lemma RefusalSpansCommit(s: System, c: nat)
    requires Inv(s) && c in s.calls && s.calls[c].UpdateCall? && s.calls[c].pc.Writing?
    requires !Accepts(s.secret, s.calls[c].pc.snapshot)
    ensures s.calls[c].pc.readAt < |s.log| && s.secret.Present?
  {
    assert CallOk(s, c, s.calls[c]);
  }

  lemma RefusalOk(s: System, c: nat, u: Call)
    requires u.UpdateCall? && u.pc.Writing? && UpdateOk(s, c, u) && u.pc.readAt < |s.log| && s.secret.Present?
    ensures UpdateOk(s, c, AfterRefusal(s, u))
  {
  }

  lemma InvRefusal(s: System, c: nat)
    requires Inv(s) && c in s.calls && s.calls[c].UpdateCall? && s.calls[c].pc.Writing?
    requires !Accepts(s.secret, s.calls[c].pc.snapshot)
    ensures Inv(SetCall(s, c, AfterRefusal(s, s.calls[c])))
  {
    assert CallOk(s, c, s.calls[c]);
    RefusalSpansCommit(s, c);
    RefusalOk(s, c, s.calls[c]);
    InvSetCall(s, c, AfterRefusal(s, s.calls[c]));
  }

  lemma SecretAtPrefix(origin: Secret, log: seq<Commit>, more: seq<Commit>, i: nat)
    requires i <= |log|
    ensures SecretAt(origin, log + more, i) == SecretAt(origin, log, i)
  {
  }

  /** A write is accepted only when nothing was committed since the Get. */
  lemma AcceptedReadIsLatest(s: System, c: nat)
    requires Inv(s) && c in s.calls && s.calls[c].UpdateCall? && s.calls[c].pc.Writing?
    requires Accepts(s.secret, s.calls[c].pc.snapshot)
    ensures s.calls[c].pc.snapshot == s.secret && s.calls[c].pc.readAt == |s.log|
  {
    assert CallOk(s, c, s.calls[c]);
    assert s.secret == SecretAt(s.origin, s.log, |s.log|);
  }

  lemma InvAccepted(s: System, c: nat, version: nat)
    requires Inv(s) && c in s.calls && s.calls[c].UpdateCall? && s.calls[c].pc.Writing?
    requires Accepts(s.secret, s.calls[c].pc.snapshot) && Fresh(s, version)
    ensures Inv(Accepted(s, c, s.calls[c], version))
  {
    var u := s.calls[c];
    var t := Accepted(s, c, u, version);
    assert CallOk(s, c, u);
    AcceptedReadIsLatest(s, c);
    AcceptedLog(s, c, version);
    forall d | d in t.calls ensures CallOk(t, d, t.calls[d]) {
      if d == c {
        assert t.log[|s.log|].call == c && AllLostBy(u.losses, |s.log|);
      } else {
        AcceptedOther(s, c, version, d);
      }
    }
    AcceptedManagers(s, c, version);
  }

  /** Before a new entry the log reads as before. */
  lemma GrownLog(s: System, t: System)
    requires t.origin == s.origin && s.log <= t.log
    ensures forall i | 0 <= i <= |s.log| :: SecretAt(t.origin, t.log, i) == SecretAt(s.origin, s.log, i)
  {
    forall i | 0 <= i <= |s.log| ensures SecretAt(t.origin, t.log, i) == SecretAt(s.origin, s.log, i) {
      assert t.log == s.log + t.log[|s.log|..];
      SecretAtPrefix(s.origin, s.log, t.log[|s.log|..], i);
    }
  }

  lemma OldEntry(s: System, t: System, i: nat)
    requires i < |s.log| && EntryOk(s, i) && t.origin == s.origin && s.log <= t.log
    requires forall c | c in s.calls && s.calls[c].UpdateCall? && s.calls[c].pc == Returned(None) ::
               c in t.calls && t.calls[c] == s.calls[c]
    ensures EntryOk(t, i)
  {
    GrownLog(s, t);
  }

  lemma NewEntry(s: System, c: nat, version: nat)
    requires LogOk(s) && c in s.calls && s.calls[c].UpdateCall? && s.calls[c].pc.Writing? && UpdateOk(s, c, s.calls[c])
    requires s.calls[c].pc.snapshot == s.secret
    ensures EntryOk(Accepted(s, c, s.calls[c], version), |s.log|)
  {
    GrownLog(s, Accepted(s, c, s.calls[c], version));
  }

  lemma AcceptedVersions(s: System, t: System, version: nat)
    requires LogOk(s) && Fresh(s, version)
    requires t.origin == s.origin && |t.log| == |s.log| + 1 && s.log <= t.log && t.log[|s.log|].version == version
    ensures forall i, j | 0 <= i < j <= |t.log| && SecretAt(t.origin, t.log, i).Present? ::
              SecretAt(t.origin, t.log, i).version != SecretAt(t.origin, t.log, j).version
  {
    GrownLog(s, t);
  }

  lemma AcceptedEntries(s: System, c: nat, version: nat)
    requires LogOk(s) && c in s.calls && s.calls[c].UpdateCall? && s.calls[c].pc.Writing? && UpdateOk(s, c, s.calls[c])
    requires s.calls[c].pc.snapshot == s.secret
    ensures var t := Accepted(s, c, s.calls[c], version);
            && (forall i | 0 <= i < |t.log| :: EntryOk(t, i))
            && (forall i, j | 0 <= i < j < |t.log| :: t.log[i].call != t.log[j].call)
  {
    var t := Accepted(s, c, s.calls[c], version);
    NewEntry(s, c, version);
    forall i | 0 <= i < |s.log| ensures EntryOk(t, i) {
      assert EntryOk(s, i);
      OldEntry(s, t, i);
    }
  }

  lemma AcceptedLog(s: System, c: nat, version: nat)
    requires LogOk(s) && c in s.calls && s.calls[c].UpdateCall? && s.calls[c].pc.Writing? && UpdateOk(s, c, s.calls[c])
    requires s.calls[c].pc.snapshot == s.secret && Fresh(s, version)
    ensures LogOk(Accepted(s, c, s.calls[c], version))
  {
    AcceptedEntries(s, c, version);
    AcceptedVersions(s, Accepted(s, c, s.calls[c], version), version);
  }

  lemma AcceptedManagers(s: System, c: nat, version: nat)
    requires Inv(s) && c in s.calls && s.calls[c].UpdateCall? && s.calls[c].pc.Writing?
    ensures ManagersOk(Accepted(s, c, s.calls[c], version))
  {
    var t := Accepted(s, c, s.calls[c], version);
    forall m | m in t.managers && !t.managers[m].isLocked ensures HasWinner(t, m) {
      var w :| w in s.calls && Won(s.calls[w]) && s.calls[w].mgr == m;
      assert w in t.calls && Won(t.calls[w]);
    }
  }

  lemma AcceptedOther(s: System, c: nat, version: nat, d: nat)
    requires Inv(s) && c in s.calls && s.calls[c].UpdateCall? && s.calls[c].pc.Writing?
    requires s.calls[c].pc.snapshot == s.secret && d in s.calls && d != c
    ensures CallOk(Accepted(s, c, s.calls[c], version), d, s.calls[d])
  {
    var u := s.calls[d];
    var t := Accepted(s, c, s.calls[c], version);
    assert CallOk(s, d, u) && CallOk(s, c, s.calls[c]);
    if u.UpdateCall? {
      UpdateOutlivesCommit(s, t, d, u);
    } else if u.LoadCall? {
      LoadOutlivesCommit(s, t, u);
    }
  }

  lemma LoadOutlivesCommit(s: System, t: System, u: Call)
    requires u.LoadCall? && LoadOk(s, u)
    requires t.origin == s.origin && t.managers == s.managers && s.log <= t.log
    ensures LoadOk(t, u)
  {
    GrownLog(s, t);
  }

  lemma UpdateOutlivesCommit(s: System, t: System, d: nat, u: Call)
    requires u.UpdateCall? && UpdateOk(s, d, u)
    requires t.origin == s.origin && t.managers == s.managers && t.secret.Present?
    requires s.log <= t.log && forall i | |s.log| <= i < |t.log| :: t.log[i].call != d
    ensures UpdateOk(t, d, u)
  {
    GrownLog(s, t);
    assert NotCommitted(s, d) <==> NotCommitted(t, d);
    if CommittedAfterLosses(s, d, u.losses) {
      var i :| 0 <= i < |s.log| && s.log[i].call == d && AllLostBy(u.losses, i);
      assert t.log[i].call == d;
    }
    forall why | FailedRead(s, u, why) ensures FailedRead(t, u, why) {
      var i :| u.begunAt <= i <= |s.log| && why(SecretAt(s.origin, s.log, i));
      assert why(SecretAt(t.origin, t.log, i));
    }
  }

  lemma InvInstall(s: System, c: nat)
    requires Inv(s) && c in s.calls && s.calls[c].UnlockCall? && s.calls[c].unlockPc.Installing? &&
             s.calls[c].mgr in s.managers
    ensures Inv(AfterInstall(s, c, s.calls[c]))
  {
    var u := s.calls[c];
    if !s.managers[u.mgr].isLocked {
      assert CallOk(s, c, u);
      FreshCallNotCommitted(s, c);
      InvSetCall(s, c, AfterInstall(s, c, u).calls[c]);
    } else {
      InstallCalls(s, c);
      InstallManagers(s, c);
    }
  }

  lemma InstallCalls(s: System, c: nat)
    requires Inv(s) && c in s.calls && s.calls[c].UnlockCall? && s.calls[c].unlockPc.Installing?
    requires s.calls[c].mgr in s.managers && s.managers[s.calls[c].mgr].isLocked
    ensures var t := AfterInstall(s, c, s.calls[c]); LogOk(t) && forall d | d in t.calls :: CallOk(t, d, t.calls[d])
  {
    var t := AfterInstall(s, c, s.calls[c]);
    FreshCallNotCommitted(s, c);
    forall i | 0 <= i < |t.log| ensures EntryOk(t, i) {
      assert EntryOk(s, i);
    }
    forall d | d in t.calls ensures CallOk(t, d, t.calls[d]) {
      assert CallOk(s, d, s.calls[d]);
      InstallOther(s, t, d, t.calls[d]);
    }
  }

  lemma InstallManagers(s: System, c: nat)
    requires Inv(s) && c in s.calls && s.calls[c].UnlockCall? && s.calls[c].unlockPc.Installing?
    requires s.calls[c].mgr in s.managers && s.managers[s.calls[c].mgr].isLocked
    ensures ManagersOk(AfterInstall(s, c, s.calls[c]))
  {
    var u := s.calls[c];
    var t := AfterInstall(s, c, u);
    forall m | m in t.managers && !t.managers[m].isLocked ensures HasWinner(t, m) {
      if m == u.mgr {
        assert c in t.calls && Won(t.calls[c]);
      } else {
        var w :| w in s.calls && Won(s.calls[w]) && s.calls[w].mgr == m;
        assert w in t.calls && Won(t.calls[w]);
      }
    }
    forall d | d in s.calls && Won(s.calls[d]) ensures s.calls[d].mgr != u.mgr {
      assert CallOk(s, d, s.calls[d]);
    }
  }

  /** Unlocking a pod leaves the calls of unlocked pods as they were. */
  lemma InstallOther(s: System, t: System, d: nat, u: Call)
    requires t.origin == s.origin && t.secret == s.secret && t.log == s.log
    requires forall m | m in s.managers ::
               m in t.managers && (s.managers[m].identity.Some? ==> t.managers[m] == s.managers[m])
    requires CallOk(s, d, u) || (u.UnlockCall? && UnlockOk(t, d, u))
    ensures CallOk(t, d, u)
  {
    if u.UpdateCall? {
      assert forall why :: FailedRead(s, u, why) ==> FailedRead(t, u, why);
    }
  }

  lemma InvBegin(s: System, c: nat, u: Call)
    requires Inv(s) && c !in s.calls && !Won(u)
    requires u.UpdateCall? && NotCommitted(s, c) ==> UpdateOk(s, c, u)
    requires u.UnlockCall? ==> UnlockOk(s, c, u)
    requires u.LoadCall? ==> LoadOk(s, u)
    ensures Inv(SetCall(s, c, u))
  {
    FreshCallNotCommitted(s, c);
    InvSetCall(s, c, u);
  }

  lemma InvWrite(s: System, c: nat, version: nat, fault: Fault)
    requires Inv(s) && c in s.calls && s.calls[c].UpdateCall? && s.calls[c].pc.Writing?
    ensures Inv(Next(s, Write(c, version, fault)))
  {
    var u := s.calls[c];
    assert CallOk(s, c, u);
    if fault == ApiFault {
      InvSetCall(s, c, u.(pc := Returned(Some(ApiError))));
    } else if !Accepts(s.secret, u.pc.snapshot) {
      InvRefusal(s, c);
    } else if Fresh(s, version) {
      InvAccepted(s, c, version);
    }
  }

  lemma VerifyOk(s: System, c: nat, u: Call, fault: Fault)
    requires u.UnlockCall? && u.unlockPc.Verifying? && UnlockOk(s, c, u)
    ensures var v := u.(unlockPc := AfterVerify(s, u, fault)); UnlockOk(s, c, v) && !Won(v)
  {
  }

  lemma InvAfterVerify(s: System, c: nat, fault: Fault)
    requires Inv(s) && c in s.calls && s.calls[c].UnlockCall? && s.calls[c].unlockPc.Verifying?
    ensures Inv(SetCall(s, c, s.calls[c].(unlockPc := AfterVerify(s, s.calls[c], fault))))
  {
    assert CallOk(s, c, s.calls[c]);
    VerifyOk(s, c, s.calls[c], fault);
    InvMove(s, c, s.calls[c].(unlockPc := AfterVerify(s, s.calls[c], fault)));
  }

  lemma InvVerify(s: System, c: nat, fault: Fault)
    requires Inv(s) && c in s.calls && s.calls[c].UnlockCall? && s.calls[c].unlockPc.Verifying?
    ensures Inv(Next(s, Verify(c, fault)))
  {
    var t := SetCall(s, c, s.calls[c].(unlockPc := AfterVerify(s, s.calls[c], fault)));
    assert Inv(t) by {
      InvAfterVerify(s, c, fault);
    }
    assert Next(s, Verify(c, fault)) == t;
  }

  lemma ReadOk(s: System, u: Call, fault: Fault)
    requires LogOk(s) && u.LoadCall? && u.loadPc.Reading? && LoadOk(s, u)
    ensures LoadOk(s, u.(loadPc := AfterRead(s, u, fault)))
  {
    assert s.secret == SecretAt(s.origin, s.log, |s.log|);
  }

  lemma InvAfterRead(s: System, c: nat, fault: Fault)
    requires Inv(s) && c in s.calls && s.calls[c].LoadCall? && s.calls[c].loadPc.Reading?
    ensures Inv(SetCall(s, c, s.calls[c].(loadPc := AfterRead(s, s.calls[c], fault))))
  {
    assert CallOk(s, c, s.calls[c]);
    ReadOk(s, s.calls[c], fault);
    InvMove(s, c, s.calls[c].(loadPc := AfterRead(s, s.calls[c], fault)));
  }

  lemma NextRead(s: System, c: nat, fault: Fault)
    requires c in s.calls && s.calls[c].LoadCall? && s.calls[c].loadPc.Reading?
    ensures Next(s, Read(c, fault)) == SetCall(s, c, s.calls[c].(loadPc := AfterRead(s, s.calls[c], fault)))
  {
  }

  lemma InvRead(s: System, c: nat, fault: Fault)
    requires Inv(s) && c in s.calls && s.calls[c].LoadCall? && s.calls[c].loadPc.Reading?
    ensures Inv(Next(s, Read(c, fault)))
  {
    NextRead(s, c, fault);
    InvAfterRead(s, c, fault);
  }

  /** A step of an Unlock or of a load that does not win. */
  lemma InvMove(s: System, c: nat, u: Call)
    requires Inv(s) && c in s.calls && !s.calls[c].UpdateCall? && !Won(s.calls[c])
    requires !u.UpdateCall? && CallOk(s, c, u) && !Won(u)
    ensures Inv(SetCall(s, c, u))
  {
    FreshCallNotCommitted(s, c);
    InvSetCall(s, c, u);
  }

  lemma InvNext(s: System, l: Label)
    requires Inv(s)
    ensures Inv(Next(s, l))
  {
    var c := l.call;
    match l
    case BeginUpdate(_, mgr, modifier) =>
      if c !in s.calls && mgr in s.managers {
        InvBegin(s, c, StartUpdate(s, s.managers[mgr], mgr, modifier));
      }
    case Get(_, fault) =>
      if c in s.calls && s.calls[c].UpdateCall? && s.calls[c].pc.Fetching? {
        InvGet(s, c, fault);
      }
    case Write(_, version, fault) =>
      if c in s.calls && s.calls[c].UpdateCall? && s.calls[c].pc.Writing? {
        InvWrite(s, c, version, fault);
      }
    case BeginUnlock(_, mgr, parsed) =>
      if c !in s.calls && mgr in s.managers {
        InvBegin(s, c, StartUnlock(s.managers[mgr], mgr, parsed));
      }
    case Verify(_, fault) =>
      if c in s.calls && s.calls[c].UnlockCall? && s.calls[c].unlockPc.Verifying? {
        InvVerify(s, c, fault);
      }
    case Install(_) =>
      if c in s.calls && s.calls[c].UnlockCall? && s.calls[c].unlockPc.Installing? && s.calls[c].mgr in s.managers {
        InvInstall(s, c);
      }
    case BeginLoad(_, mgr) =>
      if c !in s.calls && mgr in s.managers {
        InvBegin(s, c, StartLoad(s, s.managers[mgr], mgr));
      }
    case Read(_, fault) =>
      if c in s.calls && s.calls[c].LoadCall? && s.calls[c].loadPc.Reading? {
        InvRead(s, c, fault);
      }
  }

  lemma {:induction false} InvRun(s: System, labels: seq<Label>)
    requires Inv(s)
    ensures Inv(Run(s, labels))
    decreases labels
  {
    if labels != [] {
      InvRun(s, labels[..|labels| - 1]);
      InvNext(Run(s, labels[..|labels| - 1]), labels[|labels| - 1]);
    }
  }

  lemma InvInitial(s: System)
    requires Initial(s)
    ensures Inv(s)
  {
  }
}
