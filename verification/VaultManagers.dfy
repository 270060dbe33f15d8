/** `VaultManager` of vault.go in its own form: fields guarded by a lock, a counted retry loop,
    and an API server that other pods use at the same time. Each method is proved to be a
    sequence of steps of the protocol, interleaved with arbitrary steps of other calls. */
module VaultManagers {
  import opened Protocol
  import opened Runs
  import opened VaultTrees
  import opened Wrappers

  datatype Reply = Stored | AlreadyExists | VersionConflict | RequestFailed

  /** The Kubernetes API server and everything else that is under way in the cluster. `sys` is
      the protocol's view of it, always the outcome of some run. */
  class Cluster {
    var secret: Secret
    var sys: System

    ghost predicate Valid()
      reads this
    {
      sys.secret == secret && Reachable(sys)
    }

    /** Get; NotFound is the result Absent. */
    method GetSecret(fault: Fault) returns (got: Result<Secret, Failure>)
      ensures got == if fault == ApiFault then Err(ApiError) else Ok(secret)
    {
      got := if fault == ApiFault then Err(ApiError) else Ok(secret);
    }

    method FreshVersion() returns (version: nat)
      ensures Fresh(sys, version)
    {
      version := 0;
      for i := 0 to |sys.log| + 1
        invariant forall j | 0 <= j < i :: SecretAt(sys.origin, sys.log, j).Present? ==>
                    SecretAt(sys.origin, sys.log, j).version < version
      {
        var at := SecretAt(sys.origin, sys.log, i);
        if at.Present? && at.version >= version {
          version := at.version + 1;
        }
      }
      var gap: nat :| gap >= 0;
      version := version + gap;
    }

    method CreateSecret(cipher: Cipher, fault: Fault) returns (reply: Reply, version: nat)
      modifies this`secret
      ensures Fresh(sys, version)
      ensures reply == if fault == ApiFault then RequestFailed
                       else if old(secret).Present? then AlreadyExists else Stored
      ensures secret == if reply == Stored then Present(version, Some(cipher)) else old(secret)
    {
      version := FreshVersion();
      if fault == ApiFault {
        return RequestFailed, version;
      }
      if secret.Present? {
        return AlreadyExists, version;
      }
      secret := Present(version, Some(cipher));
      reply := Stored;
    }

    /** Update submits the version that Get returned. */
    method UpdateSecret(readVersion: nat, cipher: Cipher, fault: Fault) returns (reply: Reply, version: nat)
      modifies this`secret
      ensures Fresh(sys, version)
      ensures reply == if fault == ApiFault then RequestFailed
                       else if old(secret).Present? && old(secret).version == readVersion then Stored
                       else VersionConflict
      ensures secret == if reply == Stored then Present(version, Some(cipher)) else old(secret)
    {
      version := FreshVersion();
      if fault == ApiFault {
        return RequestFailed, version;
      }
      if !(secret.Present? && secret.version == readVersion) {
        return VersionConflict, version;
      }
      secret := Present(version, Some(cipher));
      reply := Stored;
    }

    /** Create when Get found nothing, otherwise Update with the version Get returned. */
    method WriteBack(sec: Secret, cipher: Cipher, fault: Fault) returns (reply: Reply, version: nat)
      modifies this`secret
      ensures Fresh(sys, version)
      ensures reply == if fault == ApiFault then RequestFailed
                       else if Accepts(old(secret), sec) then Stored
                       else if sec.Absent? then AlreadyExists else VersionConflict
      ensures secret == if reply == Stored then Present(version, Some(cipher)) else old(secret)
    {
      if sec.Absent? {
        reply, version := CreateSecret(cipher, fault);
      } else {
        reply, version := UpdateSecret(sec.version, cipher, fault);
      }
    }

    /** Note which protocol step just happened; the Secret must already reflect it. */
    method Record(l: Label)
      requires Reachable(sys) && Next(sys, l).secret == secret
      modifies this`sys
      ensures Valid() && sys == Next(old(sys), l)
    {
      RunOne(sys, l);
      ReachableRun(sys, [l]);
      sys := Next(sys, l);
    }

    /** Other calls, of this pod or another, take steps. */
    method OthersRun(labels: seq<Label>)
      requires Valid()
      modifies this
      ensures Valid() && sys == Run(old(sys), labels)
    {
      ReachableRun(sys, labels);
      sys := Run(sys, labels);
      secret := sys.secret;
    }
  }

  lemma {:induction false} OthersLeaveCall(s: System, labels: seq<Label>, me: nat)
    requires forall k | 0 <= k < |labels| :: labels[k].call != me
    ensures me in Run(s, labels).calls <==> me in s.calls
    ensures me in s.calls ==> Run(s, labels).calls[me] == s.calls[me]
    decreases labels
  {
    if labels != [] {
      OthersLeaveCall(s, labels[..|labels| - 1], me);
      assert labels[|labels| - 1].call != me;
    }
  }

  function EncryptTree(nodes: Nodes, key: Identity, fault: Fault): Option<Cipher> {
    if fault == EncryptFault then None else Some(Enc(key, nodes))
  }

  /** What the environment does during one attempt. */
  datatype Turn = Turn(beforeGet: seq<Label>, getFault: Fault, beforeWrite: seq<Label>, writeFault: Fault)

  predicate Foreign(labels: seq<Label>, me: nat) {
    forall k | 0 <= k < |labels| :: labels[k].call != me
  }

  predicate ForeignTurn(turn: Turn, me: nat) {
    Foreign(turn.beforeGet, me) && Foreign(turn.beforeWrite, me)
  }

  /** No other call moves during this attempt, and nothing fails. */
  ghost predicate Undisturbed(turn: Turn) {
    turn.beforeGet == [] && turn.beforeWrite == [] && turn.getFault == Healthy && turn.writeFault == Healthy
  }

  // ---------- What a call does next to its environment ----------

  /** One round of the loop of UpdateVault: others move, the call Gets; when it comes to a write,
      others move again and the call submits it. */
  function Round(me: nat, turn: Turn, version: Option<nat>): seq<Label> {
    if version.None? then GetPart(me, turn) else GetPart(me, turn) + WritePart(me, turn, version.value)
  }

  function GetPart(me: nat, turn: Turn): seq<Label> {
    turn.beforeGet + [Get(me, turn.getFault)]
  }

  function WritePart(me: nat, turn: Turn, version: nat): seq<Label> {
    turn.beforeWrite + [Write(me, version, turn.writeFault)]
  }

  /** The steps of one UpdateVault call and of its environment, round by round. */
  function UpdateSteps(me: nat, mgr: nat, modifier: Modifier, env: nat -> Turn, versions: seq<Option<nat>>): seq<Label>
    decreases versions
  {
    if versions == [] then [BeginUpdate(me, mgr, modifier)]
    else
      var n := |versions| - 1;
      UpdateSteps(me, mgr, modifier, env, versions[..n]) + Round(me, env(n), versions[n])
  }

  /** At most five rounds, of which only the last may end without a write. */
  predicate RoundsOk(versions: seq<Option<nat>>) {
    |versions| <= MAX_RETRIES && forall k | 0 <= k < |versions| - 1 :: versions[k].Some?
  }

  predicate AllWritten(versions: seq<Option<nat>>, attempts: nat) {
    |versions| == attempts && forall k | 0 <= k < |versions| :: versions[k].Some?
  }

  /** The steps of one Unlock call and of its environment, up to the entry, the check or the end. */
  function UnlockSteps(me: nat, mgr: nat, parsed: Option<Identity>, env: Turn, stage: nat): seq<Label> {
    if stage == 0 then [BeginUnlock(me, mgr, parsed)]
    else if stage == 1 then UnlockSteps(me, mgr, parsed, env, 0) + (env.beforeGet + [Verify(me, env.getFault)])
    else UnlockSteps(me, mgr, parsed, env, 1) + (env.beforeWrite + [Install(me)])
  }

  /** The steps of one LoadAndDecrypt call and of its environment. */
  function LoadSteps(me: nat, mgr: nat, env: Turn): seq<Label> {
    [BeginLoad(me, mgr)] + (env.beforeGet + [Read(me, env.getFault)])
  }

  /** What the environment did during the rounds. */
  function Turns(env: nat -> Turn, versions: seq<Option<nat>>): seq<Label>
    decreases versions
  {
    if versions == [] then []
    else
      var n := |versions| - 1;
      Turns(env, versions[..n]) + (env(n).beforeGet + if versions[n].Some? then env(n).beforeWrite else [])
  }

  lemma OthersOfOne(labels: seq<Label>, l: Label, me: nat)
    requires Foreign(labels, me)
    ensures Others(labels + [l], me) == labels + if l.call == me then [] else [l]
  {
    OthersOfForeign(labels, me);
    assert (labels + [l])[..|labels|] == labels;
  }

  lemma OneMoreTurn(me: nat, mgr: nat, modifier: Modifier, env: nat -> Turn, versions: seq<Option<nat>>,
                    version: Option<nat>)
    ensures UpdateSteps(me, mgr, modifier, env, versions + [version]) ==
            UpdateSteps(me, mgr, modifier, env, versions) + Round(me, env(|versions|), version)
  {
    assert (versions + [version])[..|versions|] == versions;
  }

  /** What a round adds for the others: what came before the Get, and before the write if any. */
  lemma TurnsOfRound(env: nat -> Turn, versions: seq<Option<nat>>, version: Option<nat>)
    ensures Turns(env, versions + [version]) ==
            Turns(env, versions) +
              (env(|versions|).beforeGet + if version.Some? then env(|versions|).beforeWrite else [])
  {
    assert (versions + [version])[..|versions|] == versions;
  }

  lemma OthersOfRound(me: nat, turn: Turn, version: Option<nat>)
    requires ForeignTurn(turn, me)
    ensures Others(Round(me, turn, version), me) ==
            turn.beforeGet + if version.Some? then turn.beforeWrite else []
  {
    OthersOfOne(turn.beforeGet, Get(me, turn.getFault), me);
    if version.Some? {
      OthersOfOne(turn.beforeWrite, Write(me, version.value, turn.writeFault), me);
      OthersAppend(GetPart(me, turn), WritePart(me, turn, version.value), me);
    }
  }

  /** The steps of other calls in the trace of an UpdateVault call are what its environment did,
      in order. */
  lemma {:induction false} OthersOfUpdate(me: nat, mgr: nat, modifier: Modifier, env: nat -> Turn,
                                          versions: seq<Option<nat>>)
    requires forall attempt: nat :: ForeignTurn(env(attempt), me)
    ensures Others(UpdateSteps(me, mgr, modifier, env, versions), me) == Turns(env, versions)
    decreases versions
  {
    if versions == [] {
      OthersOfOne([], BeginUpdate(me, mgr, modifier), me);
      assert [BeginUpdate(me, mgr, modifier)] == [] + [BeginUpdate(me, mgr, modifier)];
    } else {
      var n := |versions| - 1;
      OthersOfUpdate(me, mgr, modifier, env, versions[..n]);
      OthersOfRound(me, env(n), versions[n]);
      OthersAppend(UpdateSteps(me, mgr, modifier, env, versions[..n]), Round(me, env(n), versions[n]), me);
    }
  }

  lemma OthersOfUnlock(me: nat, mgr: nat, parsed: Option<Identity>, env: Turn, stage: nat)
    requires ForeignTurn(env, me)
    ensures Others(UnlockSteps(me, mgr, parsed, env, stage), me) ==
            if stage == 0 then [] else if stage == 1 then env.beforeGet else env.beforeGet + env.beforeWrite
  {
    if stage == 0 {
      OthersOfOne([], BeginUnlock(me, mgr, parsed), me);
      assert [BeginUnlock(me, mgr, parsed)] == [] + [BeginUnlock(me, mgr, parsed)];
    } else if stage == 1 {
      OthersOfUnlock(me, mgr, parsed, env, 0);
      OthersOfOne(env.beforeGet, Verify(me, env.getFault), me);
      OthersAppend(UnlockSteps(me, mgr, parsed, env, 0), env.beforeGet + [Verify(me, env.getFault)], me);
    } else {
      OthersOfUnlock(me, mgr, parsed, env, 1);
      OthersOfOne(env.beforeWrite, Install(me), me);
      OthersAppend(UnlockSteps(me, mgr, parsed, env, 1), env.beforeWrite + [Install(me)], me);
    }
  }

  lemma OthersOfLoad(me: nat, mgr: nat, env: Turn)
    requires Foreign(env.beforeGet, me)
    ensures Others([BeginLoad(me, mgr)], me) == [] && Others(LoadSteps(me, mgr, env), me) == env.beforeGet
  {
    OthersOfOne([], BeginLoad(me, mgr), me);
    assert [BeginLoad(me, mgr)] == [] + [BeginLoad(me, mgr)];
    OthersOfOne(env.beforeGet, Read(me, env.getFault), me);
    OthersAppend([BeginLoad(me, mgr)], env.beforeGet + [Read(me, env.getFault)], me);
  }

  /** A holder of the key can decrypt what is stored, and the modifier accepts it. */
  predicate Succeeds(secret: Secret, key: Option<Identity>, modifier: Modifier) {
    key.Some? && TreeFor(secret, key.value).Some? && modifier(TreeFor(secret, key.value).value).Some?
  }

  /** An entry of a parsed master key; only native X25519 identities are usable. */
  datatype AgeIdentity = Native(identity: Identity) | Plugin

  function FirstNative(ids: seq<AgeIdentity>): Option<Identity> {
    if ids == [] then None else if ids[0].Native? then Some(ids[0].identity) else FirstNative(ids[1..])
  }

  /** Entry `i` is the first usable one. */
  ghost predicate FirstUsable(ids: seq<AgeIdentity>, i: nat) {
    i < |ids| && ids[i].Native? && forall j | 0 <= j < i :: ids[j].Plugin?
  }

  lemma {:induction false} FirstNativeIsFirst(ids: seq<AgeIdentity>, i: nat)
    requires FirstUsable(ids, i)
    ensures FirstNative(ids) == Some(ids[i].identity)
  {
    if i > 0 {
      assert ids[0].Plugin?;
      FirstNativeIsFirst(ids[1..], i - 1);
    }
  }

  lemma {:induction false} FirstNativeFound(ids: seq<AgeIdentity>) returns (i: nat)
    ensures FirstNative(ids).Some? ==> FirstUsable(ids, i)
    ensures FirstNative(ids).None? ==> forall j | 0 <= j < |ids| :: ids[j].Plugin?
  {
    i := 0;
    if ids != [] && ids[0].Plugin? {
      var rest := FirstNativeFound(ids[1..]);
      i := rest + 1;
    }
  }

  /** The key a master key gives: its first native entry, and none if it cannot be read or has
      plugin entries only. */
  lemma ParsedKeyExactly(masterKey: Option<seq<AgeIdentity>>)
    ensures masterKey.Some? ==> forall i: nat :: FirstUsable(masterKey.value, i) ==>
              ParsedKey(masterKey) == Some(masterKey.value[i].identity)
    ensures ParsedKey(masterKey).None? <==>
            masterKey.None? || forall j | 0 <= j < |masterKey.value| :: masterKey.value[j].Plugin?
  {
    if masterKey.Some? {
      var ids := masterKey.value;
      forall i: nat | FirstUsable(ids, i) ensures ParsedKey(masterKey) == Some(ids[i].identity) {
        FirstNativeIsFirst(ids, i);
      }
      var _ := FirstNativeFound(ids);
    }
  }

  /** The key a master key gives, if it can be read and has a usable entry. */
  function ParsedKey(masterKey: Option<seq<AgeIdentity>>): Option<Identity> {
    if masterKey.None? then None else FirstNative(masterKey.value)
  }

  class VaultManager {
    const id: nat
    const cluster: Cluster
    var identity: Option<Identity>
    var isLocked: bool

    ghost predicate Valid()
      reads this, cluster
    {
      cluster.Valid() && id in cluster.sys.managers && cluster.sys.managers[id] == Manager(identity, isLocked)
    }

    /** A manager starts locked. */
    constructor (id: nat, cluster: Cluster)
      requires cluster.Valid() && id in cluster.sys.managers && cluster.sys.managers[id] == Manager(None, true)
      ensures Valid() && this.id == id && this.cluster == cluster && isLocked && identity.None?
    {
      this.id, this.cluster := id, cluster;
      identity, isLocked := None, true;
    }

    /** Other goroutines and pods run; they may unlock this manager. */
    method Interleave(labels: seq<Label>, me: nat)
      requires Valid() && Foreign(labels, me)
      modifies this, cluster
      ensures Valid() && cluster.sys == Run(old(cluster.sys), labels)
      ensures me in cluster.sys.calls <==> me in old(cluster.sys).calls
      ensures me in cluster.sys.calls ==> cluster.sys.calls[me] == old(cluster.sys).calls[me]
      ensures labels == [] ==> cluster.sys == old(cluster.sys) && identity == old(identity) && isLocked == old(isLocked)
      ensures old(cluster.sys).log <= cluster.sys.log && (!old(isLocked) ==> !isLocked && identity == old(identity))
    {
      OthersLeaveCall(cluster.sys, labels, me);
      LaterReachable(cluster.sys, labels);
      PodConsistent(cluster.sys, id);
      cluster.OthersRun(labels);
      var m := cluster.sys.managers[id];
      identity, isLocked := m.identity, m.isLocked;
    }

    /** UpdateVault. The result says whether this call committed. The cluster moved by the steps of
        this call and exactly those its environment took in between; `versions` are the ones the
        API server offered, one for each round that came to a write. A call that fails leaves no
        mark: the others alone would have led to the same state. */
    method UpdateVault(me: nat, modifier: Modifier, env: nat -> Turn)
        returns (err: Option<Failure>, ghost versions: seq<Option<nat>>)
      requires Valid() && me !in cluster.sys.calls
      requires forall attempt: nat :: ForeignTurn(env(attempt), me)
      modifies this, cluster
      ensures Valid() && RoundsOk(versions)
      ensures cluster.sys == Run(old(cluster.sys), UpdateSteps(me, id, modifier, env, versions))
      ensures err.Some? ==> Forget(cluster.sys, me) == Run(old(cluster.sys), Turns(env, versions))
      ensures err == Some(VaultLocked) <==> old(isLocked)
      ensures old(isLocked) ==> versions == []
      ensures err != Some(Exhausted)
      ensures err.None? ==> CommittedOnce(old(cluster.sys), cluster.sys, me, modifier)
      ensures err.Some? ==> NotCommitted(cluster.sys, me)
      ensures Reports(cluster.sys, me, modifier, err)
      ensures Undisturbed(env(0)) && !old(isLocked) && Succeeds(old(cluster.secret), old(identity), modifier) ==>
                err.None?
    {
      ghost var start := cluster.sys;
      var current := EnterUpdate(me, modifier);
      RunOne(start, BeginUpdate(me, id, modifier));
      if current.None? {
        err, versions := Some(VaultLocked), [];
      } else {
        err, versions := Retry(me, current.value, modifier, env, start);
      }
      if err.Some? {
        FailureLeavesNoMark(start, me, id, modifier, env, versions, err);
      }
    }

    /** The loop of UpdateVault. */
    method Retry(me: nat, key: Identity, modifier: Modifier, env: nat -> Turn, ghost start: System)
        returns (err: Option<Failure>, ghost versions: seq<Option<nat>>)
      requires Valid() && AtGet(cluster.sys, me, id, key, modifier, |start.log|, 0)
      requires cluster.sys == Run(start, UpdateSteps(me, id, modifier, env, []))
      requires forall attempt: nat :: ForeignTurn(env(attempt), me)
      modifies this, cluster
      ensures Valid() && RoundsOk(versions)
      ensures cluster.sys == Run(start, UpdateSteps(me, id, modifier, env, versions))
      ensures err != Some(Exhausted) && err != Some(VaultLocked) && Reports(cluster.sys, me, modifier, err)
      ensures err.None? ==> CommittedOnce(start, cluster.sys, me, modifier)
      ensures err.Some? ==> NotCommitted(cluster.sys, me)
      ensures Undisturbed(env(0)) && Succeeds(old(cluster.secret), Some(key), modifier) ==> err.None?
    {
      versions := [];
      var attempt := 0;
      while attempt < MAX_RETRIES
        invariant attempt == 0 ==> cluster.secret == old(cluster.secret)
        invariant attempt > 0 ==> !(Undisturbed(env(0)) && Succeeds(old(cluster.secret), Some(key), modifier))
        invariant Valid() && attempt < MAX_RETRIES && AllWritten(versions, attempt)
        invariant AtGet(cluster.sys, me, id, key, modifier, |start.log|, attempt)
        invariant cluster.sys == Run(start, UpdateSteps(me, id, modifier, env, versions))
        decreases MAX_RETRIES - attempt
      {
        var again;
        again, err, versions := Attempt(me, key, modifier, attempt, env, start, versions);
        if !again {
          return;
        }
        attempt := attempt + 1;
      }
      return Some(Exhausted), versions;
    }

    /** One round of the loop: Get and modify, then write; `again` asks for another round. */
    method Attempt(me: nat, key: Identity, modifier: Modifier, attempt: nat, env: nat -> Turn, ghost start: System,
                   ghost versions: seq<Option<nat>>)
        returns (again: bool, err: Option<Failure>, ghost longer: seq<Option<nat>>)
      requires Valid() && attempt < MAX_RETRIES && AllWritten(versions, attempt) && ForeignTurn(env(attempt), me)
      requires AtGet(cluster.sys, me, id, key, modifier, |start.log|, attempt)
      requires cluster.sys == Run(start, UpdateSteps(me, id, modifier, env, versions))
      modifies this, cluster
      ensures Valid() && cluster.sys == Run(start, UpdateSteps(me, id, modifier, env, longer)) && RoundsOk(longer)
      ensures again ==> attempt + 1 < MAX_RETRIES && AllWritten(longer, attempt + 1) &&
                        AtGet(cluster.sys, me, id, key, modifier, |start.log|, attempt + 1)
      ensures !again ==> err != Some(Exhausted) && err != Some(VaultLocked) && Reports(cluster.sys, me, modifier, err)
      ensures Undisturbed(env(attempt)) && Succeeds(old(cluster.secret), Some(key), modifier) ==> !again && err.None?
      ensures !again && err.None? ==> CommittedOnce(start, cluster.sys, me, modifier)
      ensures !again && err.Some? ==> NotCommitted(cluster.sys, me)
    {
      ghost var written;
      again, err, written := TakeTurn(me, key, modifier, attempt, env(attempt), start);
      OneMoreRound(start, me, id, modifier, env, versions, written);
      longer := versions + [written];
    }

    method TakeTurn(me: nat, key: Identity, modifier: Modifier, attempt: nat, turn: Turn, ghost start: System)
        returns (again: bool, err: Option<Failure>, ghost written: Option<nat>)
      requires Valid() && attempt < MAX_RETRIES && ForeignTurn(turn, me)
      requires AtGet(cluster.sys, me, id, key, modifier, |start.log|, attempt)
      modifies this, cluster
      ensures Valid() && cluster.sys == Run(old(cluster.sys), Round(me, turn, written)) && (again ==> written.Some?)
      ensures again ==> attempt + 1 < MAX_RETRIES && AtGet(cluster.sys, me, id, key, modifier, |start.log|, attempt + 1)
      ensures !again ==> err != Some(Exhausted) && err != Some(VaultLocked) && Reports(cluster.sys, me, modifier, err)
      ensures Undisturbed(turn) && Succeeds(old(cluster.secret), Some(key), modifier) ==> !again && err.None?
      ensures !again && err.None? ==> CommittedOnce(start, cluster.sys, me, modifier)
      ensures !again && err.Some? ==> NotCommitted(cluster.sys, me)
    {
      ghost var before := cluster.sys;
      var prepared := GetTurn(me, key, modifier, |start.log|, attempt, turn);
      if prepared.Err? {
        return false, Some(prepared.error), None;
      }
      var (sec, ciphertext) := prepared.value;
      ghost var version;
      again, err, version := WriteTurn(me, key, sec, ciphertext, modifier, attempt, turn, start);
      written := Some(version);
      RunAppend(before, GetPart(me, turn), WritePart(me, turn, version));
    }

    /** The first half of a round: others move, then Get, decrypt, modify and encrypt. */
    method GetTurn(me: nat, key: Identity, modifier: Modifier, ghost begunAt: nat, ghost attempt: nat, turn: Turn)
        returns (prepared: Result<(Secret, Cipher), Failure>)
      requires Valid() && Foreign(turn.beforeGet, me)
      requires AtGet(cluster.sys, me, id, key, modifier, begunAt, attempt)
      modifies this, cluster
      ensures Valid() && cluster.sys == Run(old(cluster.sys), GetPart(me, turn))
      ensures prepared.Err? ==>
                && NotCommitted(cluster.sys, me) && Reports(cluster.sys, me, modifier, Some(prepared.error))
                && prepared.error != Exhausted && prepared.error != VaultLocked
      ensures prepared.Ok? ==>
                AtWrite(cluster.sys, me, id, key, modifier, begunAt, attempt, prepared.value.0, prepared.value.1)
      ensures turn.beforeGet == [] && turn.getFault == Healthy && Succeeds(old(cluster.secret), Some(key), modifier) ==>
                prepared.Ok? && prepared.value.0 == cluster.secret
    {
      RunSnoc(cluster.sys, turn.beforeGet, Get(me, turn.getFault));
      Interleave(turn.beforeGet, me);
      prepared := Prepare(me, key, modifier, begunAt, attempt, turn.getFault);
    }

    /** The second half: others move, then the write, whose reply decides how it goes on. */
    method WriteTurn(me: nat, key: Identity, sec: Secret, ciphertext: Cipher, ghost modifier: Modifier, attempt: nat,
                     turn: Turn, ghost start: System)
        returns (again: bool, err: Option<Failure>, ghost version: nat)
      requires Valid() && attempt < MAX_RETRIES && Foreign(turn.beforeWrite, me)
      requires AtWrite(cluster.sys, me, id, key, modifier, |start.log|, attempt, sec, ciphertext)
      modifies this, cluster
      ensures Valid() && cluster.sys == Run(old(cluster.sys), WritePart(me, turn, version))
      ensures again ==> attempt + 1 < MAX_RETRIES && AtGet(cluster.sys, me, id, key, modifier, |start.log|, attempt + 1)
      ensures !again ==> err != Some(Exhausted) && err != Some(VaultLocked) && Reports(cluster.sys, me, modifier, err)
      ensures !again && err.None? ==> CommittedOnce(start, cluster.sys, me, modifier)
      ensures !again && err.Some? ==> NotCommitted(cluster.sys, me)
      ensures turn.beforeWrite == [] && turn.writeFault == Healthy && sec == old(cluster.secret) ==> !again && err.None?
    {
      ghost var before := cluster.sys;
      Interleave(turn.beforeWrite, me);
      var reply, newVersion := Submit(me, key, sec, ciphertext, turn.writeFault, start, modifier, attempt);
      version := newVersion;
      RunSnoc(before, turn.beforeWrite, Write(me, version, turn.writeFault));
      again, err := false, None;
      match reply {
        case Stored =>
        case AlreadyExists => again := true;
        case VersionConflict =>
          if attempt < MAX_RETRIES - 1 {
            again := true;
          } else {
            err := Some(WriteConflict);
          }
        case RequestFailed => err := Some(ApiError);
      }
    }

    /** UpdateVault up to the loop: read the lock state once. */
    method EnterUpdate(me: nat, modifier: Modifier) returns (key: Option<Identity>)
      requires Valid() && me !in cluster.sys.calls
      modifies cluster
      ensures Valid() && cluster.sys == Next(old(cluster.sys), BeginUpdate(me, id, modifier))
      ensures key == (if isLocked then None else identity) && (isLocked <==> identity.None?)
      ensures cluster.secret == old(cluster.secret)
      ensures key.None? ==> NotCommitted(cluster.sys, me) && Reports(cluster.sys, me, modifier, Some(VaultLocked))
      ensures key.Some? ==> AtGet(cluster.sys, me, id, key.value, modifier, |old(cluster.sys).log|, 0)
    {
      key := if isLocked then None else identity;
      cluster.Record(BeginUpdate(me, id, modifier));
      NotYetCommitted(cluster.sys, me);
      PodConsistent(cluster.sys, id);
    }

    /** One attempt up to the write: Get, decrypt, modify, encrypt. */
    method Prepare(me: nat, key: Identity, modifier: Modifier, ghost begunAt: nat, ghost attempt: nat, fault: Fault)
        returns (prepared: Result<(Secret, Cipher), Failure>)
      requires Valid() && AtGet(cluster.sys, me, id, key, modifier, begunAt, attempt)
      modifies cluster
      ensures Valid() && cluster.sys == Next(old(cluster.sys), Get(me, fault)) && me in cluster.sys.calls
      ensures cluster.secret == old(cluster.secret)
      ensures prepared.Ok? <==> fault == Healthy && Succeeds(cluster.secret, Some(key), modifier)
      ensures prepared.Ok? ==> prepared.value.0 == cluster.secret
      ensures prepared.Err? ==>
                NotCommitted(cluster.sys, me) && prepared.error != Exhausted && prepared.error != VaultLocked
      ensures prepared.Err? ==> Reports(cluster.sys, me, modifier, Some(prepared.error))
      ensures prepared.Ok? ==>
                AtWrite(cluster.sys, me, id, key, modifier, begunAt, attempt, prepared.value.0, prepared.value.1)
    {
      var got := cluster.GetSecret(fault);
      cluster.Record(Get(me, fault));
      NotYetCommitted(cluster.sys, me);
      if got.Err? {
        return Err(got.error);
      }
      var sec := got.value;
      var tree: Nodes := map[];
      if sec.Present? && sec.cipher.Some? {
        var decrypted := Decrypt(sec.cipher.value, key);
        if decrypted.None? {
          return Err(CannotDecrypt);
        }
        tree := decrypted.value;
      }
      var modified := modifier(tree);
      if modified.None? {
        return Err(ModifierError);
      }
      var ciphertext := EncryptTree(modified.value, key, fault);
      if ciphertext.None? {
        return Err(EncryptError);
      }
      return Ok((sec, ciphertext.value));
    }

    /** The write of one attempt: Create when Get found nothing, Update otherwise. */
    method Submit(me: nat, key: Identity, sec: Secret, ciphertext: Cipher, fault: Fault,
                  ghost start: System, ghost modifier: Modifier, ghost attempt: nat)
        returns (reply: Reply, version: nat)
      requires Valid() && AtWrite(cluster.sys, me, id, key, modifier, |start.log|, attempt, sec, ciphertext)
      modifies cluster
      ensures Valid() && cluster.sys == Next(old(cluster.sys), Write(me, version, fault))
      ensures reply == Stored <==> fault != ApiFault && Accepts(old(cluster.secret), sec)
      ensures reply == Stored ==> CommittedOnce(start, cluster.sys, me, modifier)
      ensures reply != Stored ==> NotCommitted(cluster.sys, me)
      ensures reply == Stored ==> Reports(cluster.sys, me, modifier, None)
      ensures reply == RequestFailed ==> Reports(cluster.sys, me, modifier, Some(ApiError))
      ensures reply == VersionConflict && attempt == MAX_RETRIES - 1 ==>
                Reports(cluster.sys, me, modifier, Some(WriteConflict))
      ensures reply == AlreadyExists || (reply == VersionConflict && attempt < MAX_RETRIES - 1) ==>
                attempt + 1 < MAX_RETRIES && AtGet(cluster.sys, me, id, key, modifier, |start.log|, attempt + 1)
    {
      reply, version := cluster.WriteBack(sec, ciphertext, fault);
      ghost var before := cluster.sys;
      cluster.Record(Write(me, version, fault));
      AfterSubmit(before, cluster.sys, me, id, key, modifier, start, attempt, sec, ciphertext, version, fault);
    }

    /** Unlock. A pod that has a key keeps it; nil means this call installed its key, and any
        other call leaves the cluster to the others. */
    method Unlock(me: nat, masterKey: Option<seq<AgeIdentity>>, env: Turn)
        returns (err: Option<Failure>, ghost stage: nat)
      requires Valid() && me !in cluster.sys.calls && ForeignTurn(env, me)
      modifies this, cluster
      ensures Valid() && cluster.sys == Run(old(cluster.sys), UnlockSteps(me, id, ParsedKey(masterKey), env, stage))
      ensures !old(isLocked) || ParsedKey(masterKey).None? ==> stage == 0
      ensures err.Some? ==>
                Forget(cluster.sys, me) ==
                Run(old(cluster.sys),
                    if stage == 0 then [] else if stage == 1 then env.beforeGet else env.beforeGet + env.beforeWrite)
      ensures !old(isLocked) ==> err == Some(AlreadyUnlocked) && identity == old(identity) && !isLocked
      ensures err.None? ==> masterKey.Some? && identity == ParsedKey(masterKey) && !isLocked
      ensures me in cluster.sys.calls && (err.None? <==> Won(cluster.sys.calls[me]))
      ensures Answered(cluster.sys.calls[me], err)
      ensures old(isLocked) ==>
                (masterKey.None? || forall j | 0 <= j < |masterKey.value| :: masterKey.value[j].Plugin?) ==>
                  err == Some(InvalidKey)
      ensures masterKey.Some? ==> forall i: nat | FirstUsable(masterKey.value, i) ::
                var key := masterKey.value[i].identity;
                && (err.None? ==> identity == Some(key))
                && (old(isLocked) && Undisturbed(env) ==>
                      err == if TreeFor(old(cluster.secret), key).Some? then None else Some(InvalidKey))
    {
      ParsedKeyExactly(masterKey);
      ghost var start := cluster.sys;
      var parsed: Option<Identity> := None;
      if masterKey.Some? {
        parsed := ParseIdentity(masterKey.value);
      }
      stage := 0;
      err := EnterUnlock(me, parsed);
      RunOne(start, BeginUnlock(me, id, parsed));
      if err.None? {
        err, stage := CheckAndInstall(me, parsed.value, env, start);
      }
      if err.Some? {
        OthersOfUnlock(me, id, parsed, env, stage);
        QuietCallsInvisible(start, UnlockSteps(me, id, parsed, env, stage), me);
      }
    }

    /** Unlock after the first look at the lock: check the key, then install it. */
    method CheckAndInstall(me: nat, key: Identity, env: Turn, ghost start: System)
        returns (err: Option<Failure>, ghost stage: nat)
      requires Valid() && ForeignTurn(env, me)
      requires me in cluster.sys.calls && cluster.sys.calls[me] == UnlockCall(id, key, Verifying)
      requires cluster.sys == Run(start, UnlockSteps(me, id, Some(key), env, 0))
      modifies this, cluster
      ensures Valid() && cluster.sys == Run(start, UnlockSteps(me, id, Some(key), env, stage))
      ensures !old(isLocked) ==> err.Some? && identity == old(identity) && !isLocked
      ensures err.None? ==> identity == Some(key) && !isLocked
      ensures me in cluster.sys.calls && (err.None? <==> Won(cluster.sys.calls[me]))
      ensures err.Some? ==> Quiet(cluster.sys, me)
      ensures Answered(cluster.sys.calls[me], err)
      ensures old(isLocked) && Undisturbed(env) ==>
                err == if TreeFor(old(cluster.secret), key).Some? then None else Some(InvalidKey)
    {
      stage := 1;
      err := CheckKey(me, key, env);
      RunAppend(start, UnlockSteps(me, id, Some(key), env, 0), env.beforeGet + [Verify(me, env.getFault)]);
      if err.None? {
        stage := 2;
        ghost var checked := cluster.sys;
        Interleave(env.beforeWrite, me);
        err := InstallIdentity(me, key);
        RunSnoc(checked, env.beforeWrite, Install(me));
        RunAppend(start, UnlockSteps(me, id, Some(key), env, 1), env.beforeWrite + [Install(me)]);
      }
    }

    /** Unlock calls verifyIdentity with no lock held: others move first. */
    method CheckKey(me: nat, key: Identity, env: Turn) returns (err: Option<Failure>)
      requires Valid() && Foreign(env.beforeGet, me)
      requires me in cluster.sys.calls && cluster.sys.calls[me] == UnlockCall(id, key, Verifying)
      modifies this, cluster
      ensures Valid() && cluster.sys == Run(old(cluster.sys), env.beforeGet + [Verify(me, env.getFault)])
      ensures me in cluster.sys.calls && (!old(isLocked) ==> !isLocked && identity == old(identity))
      ensures err.Some? ==> Quiet(cluster.sys, me)
      ensures err.None? ==> cluster.sys.calls[me].UnlockCall? && cluster.sys.calls[me].unlockPc.Installing? &&
                            cluster.sys.calls[me].key == key && cluster.sys.calls[me].mgr == id
      ensures err.Some? ==> Answered(cluster.sys.calls[me], err)
      ensures env.beforeGet == [] && env.getFault == Healthy ==>
                isLocked == old(isLocked) &&
                err == if TreeFor(old(cluster.secret), key).Some? then None else Some(InvalidKey)
    {
      RunSnoc(cluster.sys, env.beforeGet, Verify(me, env.getFault));
      Interleave(env.beforeGet, me);
      err := VerifyIdentity(me, key, env.getFault);
    }

    method EnterUnlock(me: nat, parsed: Option<Identity>) returns (err: Option<Failure>)
      requires Valid() && me !in cluster.sys.calls
      modifies cluster
      ensures Valid() && cluster.sys == Next(old(cluster.sys), BeginUnlock(me, id, parsed)) && me in cluster.sys.calls
      ensures cluster.secret == old(cluster.secret)
      ensures err == if !isLocked then Some(AlreadyUnlocked) else if parsed.None? then Some(InvalidKey) else None
      ensures err.Some? ==> Quiet(cluster.sys, me) && Answered(cluster.sys.calls[me], err)
      ensures err.None? ==> cluster.sys.calls[me] == UnlockCall(id, parsed.value, Verifying)
    {
      cluster.Record(BeginUnlock(me, id, parsed));
      if !isLocked {
        return Some(AlreadyUnlocked);
      }
      if parsed.None? {
        return Some(InvalidKey);
      }
      return None;
    }

    /** The last part of Unlock, under the write lock: check again, then install the key. */
    method InstallIdentity(me: nat, key: Identity) returns (err: Option<Failure>)
      requires Valid() && me in cluster.sys.calls && cluster.sys.calls[me].UnlockCall?
      requires cluster.sys.calls[me].unlockPc.Installing? && cluster.sys.calls[me].key == key &&
               cluster.sys.calls[me].mgr == id
      modifies this, cluster
      ensures Valid() && cluster.sys == Next(old(cluster.sys), Install(me)) && me in cluster.sys.calls
      ensures err == if old(isLocked) then None else Some(AlreadyUnlocked)
      ensures identity == (if old(isLocked) then Some(key) else old(identity)) && !isLocked
      ensures err.None? <==> Won(cluster.sys.calls[me])
      ensures Answered(cluster.sys.calls[me], err)
      ensures err.Some? ==> Quiet(cluster.sys, me)
    {
      cluster.Record(Install(me));
      if !isLocked {
        return Some(AlreadyUnlocked);
      }
      identity := Some(key);
      isLocked := false;
      return None;
    }

    method ParseIdentity(ids: seq<AgeIdentity>) returns (key: Option<Identity>)
      ensures key == FirstNative(ids)
    {
      for i := 0 to |ids|
        invariant FirstNative(ids) == FirstNative(ids[i..])
      {
        if ids[i].Native? {
          return Some(ids[i].identity);
        }
      }
      return None;
    }

    /** verifyIdentity: the key must decrypt the stored vault, if there is one. */
    method VerifyIdentity(me: nat, key: Identity, fault: Fault) returns (err: Option<Failure>)
      requires Valid() && me in cluster.sys.calls && cluster.sys.calls[me] == UnlockCall(id, key, Verifying)
      modifies cluster
      ensures Valid() && cluster.sys == Next(old(cluster.sys), Verify(me, fault)) && me in cluster.sys.calls
      ensures err.None? <==> fault != ApiFault && TreeFor(cluster.secret, key).Some?
      ensures err.Some? ==> err == Some(if fault == ApiFault then ApiError else InvalidKey)
      ensures err.Some? ==> Quiet(cluster.sys, me) && Answered(cluster.sys.calls[me], err)
      ensures err.None? ==> cluster.sys.calls[me].UnlockCall? && cluster.sys.calls[me].unlockPc.Installing? &&
                            cluster.sys.calls[me].key == key && cluster.sys.calls[me].mgr == id
    {
      var got := cluster.GetSecret(fault);
      cluster.Record(Verify(me, fault));
      if got.Err? {
        return Some(got.error);
      }
      var sec := got.value;
      if sec.Absent? || sec.cipher.None? {
        return None;
      }
      if Decrypt(sec.cipher.value, key).None? {
        return Some(InvalidKey);
      }
      return None;
    }

    /** LoadAndDecrypt: the tree is the normalized replay of the commits up to some moment
        between the call and its return. The load writes nothing: but for its own record, the
        cluster is what the others made of it. */
    method LoadAndDecrypt(me: nat, env: Turn)
        returns (result: Result<Nodes, Failure>, ghost moment: nat, ghost order: seq<string>)
      requires Valid() && me !in cluster.sys.calls && ForeignTurn(env, me)
      modifies this, cluster
      ensures Valid()
      ensures cluster.sys ==
                Run(old(cluster.sys), if old(isLocked) then [BeginLoad(me, id)] else LoadSteps(me, id, env))
      ensures Forget(cluster.sys, me) == Run(old(cluster.sys), if old(isLocked) then [] else env.beforeGet)
      ensures old(isLocked) ==> result == Err(VaultLocked)
      ensures |old(cluster.sys).log| <= moment <= |cluster.sys.log|
      ensures !old(isLocked) ==> old(identity).Some? && (result.Ok? <==>
                env.getFault != ApiFault &&
                TreeFor(SecretAt(cluster.sys.origin, cluster.sys.log, moment), old(identity).value).Some?)
      ensures !old(isLocked) && result.Err? ==>
                result.error == if env.getFault == ApiFault then ApiError else CannotDecrypt
      ensures result.Ok? ==> SnapshotAt(cluster.sys, moment, order, result.value)
    {
      ghost var start := cluster.sys;
      var current := EnterLoad(me);
      moment, order := |cluster.sys.log|, [];
      RunOne(start, BeginLoad(me, id));
      OthersOfLoad(me, id, env);
      if current.None? {
        QuietCallsInvisible(start, [BeginLoad(me, id)], me);
        return Err(VaultLocked), moment, order;
      }
      var raw;
      raw, moment := ReadTurn(me, current.value, env);
      RunAppend(start, [BeginLoad(me, id)], env.beforeGet + [Read(me, env.getFault)]);
      QuietCallsInvisible(start, LoadSteps(me, id, env), me);
      if raw.Err? {
        return Err(raw.error), moment, order;
      }
      var nodes;
      nodes, order := NormalizedNodes(raw.value);
      result := Ok(nodes);
    }

    /** Others move, then Get and decrypt. */
    method ReadTurn(me: nat, key: Identity, env: Turn) returns (raw: Result<Nodes, Failure>, ghost moment: nat)
      requires Valid() && Foreign(env.beforeGet, me) && me in cluster.sys.calls && cluster.sys.calls[me].LoadCall?
      requires cluster.sys.calls[me].key == key && cluster.sys.calls[me].loadPc == Reading
      modifies this, cluster
      ensures Valid() && cluster.sys == Run(old(cluster.sys), env.beforeGet + [Read(me, env.getFault)])
      ensures Quiet(cluster.sys, me) && |old(cluster.sys).log| <= moment == |cluster.sys.log|
      ensures raw.Ok? <==> env.getFault != ApiFault &&
                           TreeFor(SecretAt(cluster.sys.origin, cluster.sys.log, moment), key).Some?
      ensures raw.Err? ==> raw.error == if env.getFault == ApiFault then ApiError else CannotDecrypt
      ensures raw.Ok? ==> Replay(StoredTree(cluster.sys.origin), cluster.sys.log[..moment]) == Some(raw.value)
    {
      RunSnoc(cluster.sys, env.beforeGet, Read(me, env.getFault));
      Interleave(env.beforeGet, me);
      moment := |cluster.sys.log|;
      raw := ReadTree(me, key, env.getFault);
      StoredIsReplay(cluster.sys);
    }

    method NormalizedNodes(raw: Nodes) returns (nodes: Nodes, ghost order: seq<string>)
      ensures IsOrder(order, raw.Keys) && nodes == NormalizeInOrder(raw, order)
    {
      var tree := new VaultTree(raw);
      order := tree.NormalizeKeys();
      nodes := tree.nodes;
    }

    method EnterLoad(me: nat) returns (key: Option<Identity>)
      requires Valid() && me !in cluster.sys.calls
      modifies cluster
      ensures Valid() && cluster.sys == Next(old(cluster.sys), BeginLoad(me, id))
      ensures isLocked <==> identity.None?
      ensures cluster.sys.log == old(cluster.sys).log && Quiet(cluster.sys, me)
      ensures key == (if isLocked then None else identity)
      ensures key.Some? ==>
                me in cluster.sys.calls && cluster.sys.calls[me] == LoadCall(id, key.value, |cluster.sys.log|, Reading)
    {
      key := if isLocked then None else identity;
      cluster.Record(BeginLoad(me, id));
      PodConsistent(cluster.sys, id);
    }

    /** Get and decrypt; a missing or empty vault reads as the empty tree. */
    method ReadTree(me: nat, key: Identity, fault: Fault) returns (raw: Result<Nodes, Failure>)
      requires Valid() && me in cluster.sys.calls && cluster.sys.calls[me].LoadCall?
      requires cluster.sys.calls[me].key == key && cluster.sys.calls[me].loadPc == Reading
      modifies cluster
      ensures Valid() && cluster.sys == Next(old(cluster.sys), Read(me, fault)) &&
              cluster.sys.log == old(cluster.sys).log
      ensures raw.Ok? <==> fault != ApiFault && TreeFor(cluster.secret, key).Some?
      ensures raw.Ok? ==> raw.value == StoredTree(cluster.secret)
      ensures raw.Err? ==> raw.error == if fault == ApiFault then ApiError else CannotDecrypt
      ensures Quiet(cluster.sys, me)
    {
      var got := cluster.GetSecret(fault);
      cluster.Record(Read(me, fault));
      if got.Err? {
        return Err(got.error);
      }
      var sec := got.value;
      if sec.Absent? || sec.cipher.None? {
        var empty: Nodes := map[];
        return Ok(empty);
      }
      var decrypted := Decrypt(sec.cipher.value, key);
      if decrypted.None? {
        return Err(CannotDecrypt);
      }
      return Ok(decrypted.value);
    }
  }

  /** The protocol's record of an Unlock agrees with what it returned. */
  predicate Answered(u: Call, err: Option<Failure>) {
    match u
    case Refused(_, reason) => err == Some(reason)
    case UnlockCall(_, _, pc) => pc.UnlockReturned? && pc.err == err
    case _ => false
  }

  /** The protocol's record of the call agrees with what UpdateVault returned. */
  ghost predicate Reports(s: System, me: nat, modifier: Modifier, err: Option<Failure>) {
    && me in s.calls
    && match s.calls[me]
       case Refused(_, reason) => err == Some(reason)
       case UpdateCall(_, _, m, _, _, pc, _) => m == modifier && pc == Returned(err)
       case _ => false
  }

  /** A call that returned an error is invisible to all others. */
  lemma FailureLeavesNoMark(start: System, me: nat, mgr: nat, modifier: Modifier, env: nat -> Turn,
                            versions: seq<Option<nat>>, err: Option<Failure>)
    requires me !in start.calls && err.Some? && forall attempt: nat :: ForeignTurn(env(attempt), me)
    requires Reports(Run(start, UpdateSteps(me, mgr, modifier, env, versions)), me, modifier, err)
    ensures Forget(Run(start, UpdateSteps(me, mgr, modifier, env, versions)), me) == Run(start, Turns(env, versions))
  {
    OthersOfUpdate(me, mgr, modifier, env, versions);
    QuietCallsInvisible(start, UpdateSteps(me, mgr, modifier, env, versions), me);
  }

  lemma OneMoreRound(start: System, me: nat, mgr: nat, modifier: Modifier, env: nat -> Turn,
                     versions: seq<Option<nat>>, version: Option<nat>)
    ensures Run(start, UpdateSteps(me, mgr, modifier, env, versions + [version])) ==
            Run(Run(start, UpdateSteps(me, mgr, modifier, env, versions)), Round(me, env(|versions|), version))
  {
    OneMoreTurn(me, mgr, modifier, env, versions, version);
    RunAppend(start, UpdateSteps(me, mgr, modifier, env, versions), Round(me, env(|versions|), version));
  }

  /** The call is about to Get, in the given attempt. */
  ghost predicate AtGet(s: System, me: nat, id: nat, key: Identity, modifier: Modifier, begunAt: nat, attempt: nat) {
    && me in s.calls && s.calls[me].UpdateCall? && s.calls[me].pc.Fetching?
    && s.calls[me].mgr == id && s.calls[me].key == key && s.calls[me].modifier == modifier
    && s.calls[me].begunAt == begunAt && s.calls[me].attempt == attempt
  }

  /** The call has read `sec` and is about to submit `ciphertext`. */
  ghost predicate AtWrite(s: System, me: nat, id: nat, key: Identity, modifier: Modifier, begunAt: nat, attempt: nat,
                          sec: Secret, ciphertext: Cipher) {
    && me in s.calls && s.calls[me].UpdateCall? && s.calls[me].pc.Writing?
    && s.calls[me].mgr == id && s.calls[me].key == key && s.calls[me].modifier == modifier
    && s.calls[me].begunAt == begunAt && s.calls[me].attempt == attempt
    && s.calls[me].pc.snapshot == sec && ciphertext == Enc(key, s.calls[me].pc.nodes)
  }

  lemma AfterSubmit(s: System, t: System, me: nat, id: nat, key: Identity, modifier: Modifier, start: System,
                    attempt: nat, sec: Secret, ciphertext: Cipher, version: nat, fault: Fault)
    requires AtWrite(s, me, id, key, modifier, |start.log|, attempt, sec, ciphertext) && Fresh(s, version)
    requires t == Next(s, Write(me, version, fault)) && Reachable(t)
    ensures fault != ApiFault && Accepts(s.secret, sec) ==>
              Reports(t, me, modifier, None) && CommittedOnce(start, t, me, modifier)
    ensures fault == ApiFault ==> Reports(t, me, modifier, Some(ApiError))
    ensures fault != ApiFault && !Accepts(s.secret, sec) && sec.Present? && attempt == MAX_RETRIES - 1 ==>
              Reports(t, me, modifier, Some(WriteConflict))
    ensures fault == ApiFault || !Accepts(s.secret, sec) ==> NotCommitted(t, me)
    ensures fault != ApiFault && !Accepts(s.secret, sec) && (sec.Absent? || attempt < MAX_RETRIES - 1) ==>
              attempt + 1 < MAX_RETRIES && AtGet(t, me, id, key, modifier, |start.log|, attempt + 1)
  {
    ReachableInv(t);
    NotExhausted(t, me);
    if fault == ApiFault || !Accepts(s.secret, sec) {
      FreshCallNotCommitted(t, me);
    } else {
      NilMeansCommitted(start, t, me, modifier);
    }
  }

  /** The call added exactly one entry, and its modifier succeeded on the tree that entry
      replaced, which is the replay of everything committed before it. */
  ghost predicate CommittedOnce(before: System, after: System, me: nat, modifier: Modifier) {
    && CommitsOf(after.log, me) == 1
    && exists i :: CommitAt(before, after, me, modifier, i)
  }

  ghost predicate CommitAt(before: System, after: System, me: nat, modifier: Modifier, i: nat) {
    && |before.log| <= i < |after.log| && after.log[i].call == me
    && Replay(StoredTree(after.origin), after.log[..i]).Some?
    && modifier(Replay(StoredTree(after.origin), after.log[..i]).value) == Some(after.log[i].after)
  }

  lemma NilMeansCommitted(start: System, s: System, me: nat, modifier: Modifier)
    requires Inv(s) && me in s.calls && s.calls[me].UpdateCall? && s.calls[me].pc == Returned(None)
    requires s.calls[me].modifier == modifier && s.calls[me].begunAt == |start.log|
    ensures CommittedOnce(start, s, me, modifier)
  {
    assert CallOk(s, me, s.calls[me]);
    var i :| 0 <= i < |s.log| && s.log[i].call == me;
    assert EntryOk(s, i);
    CommitsOfOne(s.log, me, i);
    ReplayIsStored(s, i);
    assert CommitAt(start, s, me, modifier, i);
  }

  lemma NotExhausted(s: System, me: nat)
    requires Inv(s) && me in s.calls && s.calls[me].UpdateCall?
    ensures s.calls[me].pc != Returned(Some(Exhausted))
  {
    assert CallOk(s, me, s.calls[me]);
  }

  ghost predicate SnapshotAt(s: System, moment: nat, order: seq<string>, nodes: Nodes)
    requires moment <= |s.log|
  {
    var raw := Replay(StoredTree(s.origin), s.log[..moment]);
    raw.Some? && IsOrder(order, raw.value.Keys) && nodes == NormalizeInOrder(raw.value, order)
  }

  lemma NotYetCommitted(s: System, me: nat)
    requires Reachable(s) && (me in s.calls ==> !(s.calls[me].UpdateCall? && s.calls[me].pc == Returned(None)))
    ensures NotCommitted(s, me)
  {
    ReachableInv(s);
    FreshCallNotCommitted(s, me);
  }

  /** A pod is locked iff it has no key. */
  lemma PodConsistent(s: System, mgr: nat)
    requires Reachable(s) && mgr in s.managers
    ensures s.managers[mgr].isLocked <==> s.managers[mgr].identity.None?
  {
    ReachableInv(s);
  }

  lemma LaterReachable(s: System, labels: seq<Label>)
    requires Reachable(s)
    ensures Later(s, Run(s, labels))
  {
    ReachableInv(s);
    LaterRun(s, labels);
  }

  lemma StoredIsReplay(s: System)
    requires Reachable(s)
    ensures s.secret == SecretAt(s.origin, s.log, |s.log|)
    ensures Replay(StoredTree(s.origin), s.log[..|s.log|]) == Some(StoredTree(s.secret))
  {
    ReachableInv(s);
    ReplayIsStored(s, |s.log|);
  }

  lemma RunSnoc(s: System, labels: seq<Label>, l: Label)
    ensures Run(s, labels + [l]) == Next(Run(s, labels), l)
  {
    RunAppend(s, labels, [l]);
    RunOne(Run(s, labels), l);
  }
}
