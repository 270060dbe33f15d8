/** What every run of the protocol guarantees. */
module Runs {
  import opened Protocol
  import opened VaultTrees
  import opened Wrappers

  lemma InvReachable(s0: System, labels: seq<Label>)
    requires Initial(s0)
    ensures Inv(Run(s0, labels))
  {
    InvInitial(s0);
    InvRun(s0, labels);
  }

  lemma {:induction false} RunAppend(s: System, first: seq<Label>, second: seq<Label>)
    ensures Run(s, first + second) == Run(Run(s, first), second)
    decreases second
  {
    if second == [] {
      assert first + second == first;
    } else {
      var n := |second| - 1;
      assert (first + second)[..|first + second| - 1] == first + second[..n];
      RunAppend(s, first, second[..n]);
    }
  }

  ghost predicate Reaches(s0: System, labels: seq<Label>, s: System) {
    Initial(s0) && s == Run(s0, labels)
  }

  /** The system is the outcome of some run. */
  ghost predicate Reachable(s: System) {
    exists s0, labels :: Reaches(s0, labels, s)
  }

  lemma ReachableInv(s: System)
    requires Reachable(s)
    ensures Inv(s)
  {
    var s0, labels :| Reaches(s0, labels, s);
    InvReachable(s0, labels);
  }

  lemma ReachableRun(s: System, more: seq<Label>)
    requires Reachable(s)
    ensures Reachable(Run(s, more))
  {
    var s0, labels :| Reaches(s0, labels, s);
    RunAppend(s0, labels, more);
    assert Reaches(s0, labels + more, Run(s, more));
  }

  lemma RunOne(s: System, l: Label)
    ensures Run(s, [l]) == Next(s, l)
  {
    assert [l][..0] == [];
  }

  // ---------- No lost updates ----------

  /** Apply the committed modifiers in commit order. */
  function Replay(nodes: Nodes, log: seq<Commit>): Option<Nodes>
    decreases log
  {
    if log == [] then Some(nodes)
    else
      var before := Replay(nodes, log[..|log| - 1]);
      if before.None? then None else log[|log| - 1].modifier(before.value)
  }

  lemma ReplayOneMore(nodes: Nodes, log: seq<Commit>, e: Commit)
    ensures Replay(nodes, []) == Some(nodes)
    ensures Replay(nodes, log + [e]) ==
            match Replay(nodes, log) case None => None case Some(before) => e.modifier(before)
  {
    assert (log + [e])[..|log|] == log;
  }

  lemma {:induction false} ReplayIsStored(s: System, i: nat)
    requires Inv(s) && i <= |s.log|
    ensures Replay(StoredTree(s.origin), s.log[..i]) == Some(StoredTree(SecretAt(s.origin, s.log, i)))
  {
    if i > 0 {
      ReplayIsStored(s, i - 1);
      assert s.log[..i][..i - 1] == s.log[..i - 1];
      assert EntryOk(s, i - 1);
    }
  }

  function CommitsOf(log: seq<Commit>, c: nat): nat
    decreases log
  {
    if log == [] then 0
    else CommitsOf(log[..|log| - 1], c) + if log[|log| - 1].call == c then 1 else 0
  }

  lemma {:induction false} CommitsOfNone(log: seq<Commit>, c: nat)
    requires forall i | 0 <= i < |log| :: log[i].call != c
    ensures CommitsOf(log, c) == 0
    decreases log
  {
    if log != [] {
      CommitsOfNone(log[..|log| - 1], c);
    }
  }

  lemma {:induction false} CommitsOfOne(log: seq<Commit>, c: nat, i: nat)
    requires i < |log| && log[i].call == c
    requires forall j, k | 0 <= j < k < |log| :: log[j].call != log[k].call
    ensures CommitsOf(log, c) == 1
    decreases log
  {
    var n := |log| - 1;
    if i == n {
      CommitsOfNone(log[..n], c);
    } else {
      CommitsOfOne(log[..n], c, i);
    }
  }

  /** Serializability. In every run the stored tree is the replay, in commit order, of the
      committed modifiers over the initial tree; each of them succeeded on the tree it
      replaced. */
  lemma NoLostUpdates(s0: System, labels: seq<Label>)
    requires Initial(s0)
    ensures var s := Run(s0, labels);
            && Replay(StoredTree(s0.secret), s.log) == Some(StoredTree(s.secret))
            && forall i | 0 <= i < |s.log| :: SucceededOnReplay(StoredTree(s0.secret), s.log, i)
  {
    InvReachable(s0, labels);
    LaterRun(s0, labels);
    Serializable(Run(s0, labels));
  }

  /** The modifier of entry `i` accepted the replay of everything before it. */
  ghost predicate SucceededOnReplay(initial: Nodes, log: seq<Commit>, i: nat)
    requires i < |log|
  {
    var before := Replay(initial, log[..i]);
    before.Some? && log[i].modifier(before.value) == Some(log[i].after)
  }

  lemma Serializable(s: System)
    requires Inv(s)
    ensures Replay(StoredTree(s.origin), s.log) == Some(StoredTree(s.secret))
    ensures forall i | 0 <= i < |s.log| :: SucceededOnReplay(StoredTree(s.origin), s.log, i)
  {
    ReplayIsStored(s, |s.log|);
    assert s.log[..|s.log|] == s.log;
    forall i | 0 <= i < |s.log| ensures SucceededOnReplay(StoredTree(s.origin), s.log, i) {
      ReplayIsStored(s, i);
      assert EntryOk(s, i);
    }
  }

  /** A call that returned nil committed exactly once, with its own modifier; a call that
      returned an error, was refused, or has not returned yet, never. */
  lemma {:induction false} ReturnTellsCommit(s0: System, labels: seq<Label>, c: nat)
    requires Initial(s0)
    ensures var s := Run(s0, labels);
            && CommitsOf(s.log, c) ==
                 (if c in s.calls && s.calls[c].UpdateCall? && s.calls[c].pc == Returned(None) then 1 else 0)
            && forall i | 0 <= i < |s.log| && s.log[i].call == c ::
                 c in s.calls && s.calls[c].UpdateCall? && s.log[i].modifier == s.calls[c].modifier &&
                 s.calls[c].begunAt <= i
  {
    InvReachable(s0, labels);
    CommitsAreReturns(Run(s0, labels), c);
  }

  lemma CommitsAreReturns(s: System, c: nat)
    requires Inv(s)
    ensures CommitsOf(s.log, c) ==
              (if c in s.calls && s.calls[c].UpdateCall? && s.calls[c].pc == Returned(None) then 1 else 0)
    ensures forall i | 0 <= i < |s.log| && s.log[i].call == c ::
              c in s.calls && s.calls[c].UpdateCall? && s.log[i].modifier == s.calls[c].modifier &&
              s.calls[c].begunAt <= i
  {
    forall i | 0 <= i < |s.log| && s.log[i].call == c ensures EntryOk(s, i) {
    }
    if c in s.calls && s.calls[c].UpdateCall? && s.calls[c].pc == Returned(None) {
      assert CallOk(s, c, s.calls[c]);
      var i :| 0 <= i < |s.log| && s.log[i].call == c;
      CommitsOfOne(s.log, c, i);
    } else {
      FreshCallNotCommitted(s, c);
      CommitsOfNone(s.log, c);
    }
  }

  // ---------- What time does not undo ----------

  predicate Finished(u: Call) {
    match u
    case UpdateCall(_, _, _, _, _, pc, _) => pc.Returned?
    case UnlockCall(_, _, pc) => pc.UnlockReturned?
    case LoadCall(_, _, _, pc) => pc.LoadReturned?
    case Refused(_, _) => true
  }

  function Begin(u: Call): nat {
    if u.UpdateCall? || u.LoadCall? then u.begunAt else 0
  }

  /** Commits stay, keys stay, returned calls stay, and calls that are new began later. */
  ghost predicate Later(s: System, t: System) {
    && s.origin == t.origin && s.log <= t.log && s.managers.Keys == t.managers.Keys
    && (forall m | m in s.managers && s.managers[m].identity.Some? :: t.managers[m] == s.managers[m])
    && (forall c | c in s.calls :: c in t.calls && Begin(t.calls[c]) == Begin(s.calls[c]) &&
                                   (t.calls[c].UpdateCall? <==> s.calls[c].UpdateCall?) &&
                                   (t.calls[c].LoadCall? <==> s.calls[c].LoadCall?))
    && (forall c | c in s.calls && Finished(s.calls[c]) :: t.calls[c] == s.calls[c])
    && (forall c | c in t.calls && c !in s.calls && (t.calls[c].UpdateCall? || t.calls[c].LoadCall?) ::
          |s.log| <= Begin(t.calls[c]))
  }

  lemma LaterSetCall(s: System, c: nat, u: Call)
    requires c in s.calls ==> !Finished(s.calls[c]) && Begin(u) == Begin(s.calls[c]) &&
                              (u.UpdateCall? <==> s.calls[c].UpdateCall?) && (u.LoadCall? <==> s.calls[c].LoadCall?)
    requires c !in s.calls && (u.UpdateCall? || u.LoadCall?) ==> Begin(u) == |s.log|
    ensures Later(s, SetCall(s, c, u))
  {
  }

  lemma LaterInstall(s: System, c: nat)
    requires c in s.calls && s.calls[c].UnlockCall? && s.calls[c].unlockPc.Installing? && s.calls[c].mgr in s.managers
    requires s.managers[s.calls[c].mgr].isLocked ==> s.managers[s.calls[c].mgr].identity.None?
    ensures Later(s, AfterInstall(s, c, s.calls[c]))
  {
  }

  lemma LaterAccepted(s: System, c: nat, version: nat)
    requires c in s.calls && s.calls[c].UpdateCall? && s.calls[c].pc.Writing?
    ensures Later(s, Accepted(s, c, s.calls[c], version))
  {
  }

  lemma LaterBegins(s: System, l: Label)
    requires l.BeginUpdate? || l.BeginUnlock? || l.BeginLoad?
    ensures Later(s, Next(s, l))
  {
    if l.call !in s.calls && l.mgr in s.managers {
      LaterSetCall(s, l.call, Next(s, l).calls[l.call]);
    }
  }

  lemma LaterReads(s: System, l: Label)
    requires l.Get? || l.Verify? || l.Read?
    ensures Later(s, Next(s, l))
  {
    if l.call in s.calls && !Finished(s.calls[l.call]) && Next(s, l) != s {
      LaterSetCall(s, l.call, Next(s, l).calls[l.call]);
    }
  }

  lemma LaterWrite(s: System, l: Label)
    requires l.Write?
    ensures Later(s, Next(s, l))
  {
    var c := l.call;
    if c in s.calls && s.calls[c].UpdateCall? && s.calls[c].pc.Writing? {
      LaterAccepted(s, c, l.version);
      LaterSetCall(s, c, Next(s, l).calls[c]);
    }
  }

  lemma LaterNext(s: System, l: Label)
    requires ManagersOk(s)
    ensures Later(s, Next(s, l))
  {
    match l
    case BeginUpdate(_, _, _) => LaterBegins(s, l);
    case BeginUnlock(_, _, _) => LaterBegins(s, l);
    case BeginLoad(_, _) => LaterBegins(s, l);
    case Get(_, _) => LaterReads(s, l);
    case Verify(_, _) => LaterReads(s, l);
    case Read(_, _) => LaterReads(s, l);
    case Write(_, _, _) => LaterWrite(s, l);
    case Install(c) =>
      if c in s.calls && s.calls[c].UnlockCall? && s.calls[c].unlockPc.Installing? && s.calls[c].mgr in s.managers {
        LaterInstall(s, c);
      }
  }

  lemma LaterTransitive(s: System, t: System, u: System)
    requires Later(s, t) && Later(t, u)
    ensures Later(s, u)
  {
  }

  lemma {:induction false} LaterRun(s: System, labels: seq<Label>)
    requires Inv(s) || Initial(s)
    ensures Later(s, Run(s, labels))
    decreases labels
  {
    if Initial(s) {
      InvInitial(s);
    }
    if labels != [] {
      var n := |labels| - 1;
      LaterRun(s, labels[..n]);
      InvRun(s, labels[..n]);
      LaterNext(Run(s, labels[..n]), labels[n]);
      LaterTransitive(s, Run(s, labels[..n]), Run(s, labels));
    }
  }

  // ---------- Contention ----------

  /** The calls whose commits refused the attempts of `u`, one per attempt. */
  function Rivals(s: System, u: Call): seq<nat>
    requires u.UpdateCall? && forall k | 0 <= k < |u.losses| :: u.losses[k].readAt < |s.log|
  {
    seq(|u.losses|, k requires 0 <= k < |u.losses| => s.log[u.losses[k].readAt].call)
  }

  /** Each refused attempt is matched by a commit of another call between its Get and its
      refusal; the matched calls are pairwise different, and all returned nil. */
  ghost predicate HasRivals(s: System, c: nat)
    requires c in s.calls && s.calls[c].UpdateCall?
  {
    var u := s.calls[c];
    && (forall k | 0 <= k < |u.losses| :: u.begunAt <= u.losses[k].readAt < u.losses[k].lostAt <= |s.log|)
    && (forall j, k | 0 <= j < k < |u.losses| ::
          u.losses[j].lostAt <= u.losses[k].readAt && Rivals(s, u)[j] != Rivals(s, u)[k])
    && (forall k | 0 <= k < |u.losses| :: Rivals(s, u)[k] != c && Rivals(s, u)[k] in Committed(s))
  }

  /** Every refused attempt of every call has a rival, whatever became of the call. */
  lemma LossesHaveRivals(s0: System, labels: seq<Label>, c: nat)
    requires Initial(s0) && c in Run(s0, labels).calls && Run(s0, labels).calls[c].UpdateCall?
    ensures HasRivals(Run(s0, labels), c)
  {
    InvReachable(s0, labels);
    RivalsExist(Run(s0, labels), c);
  }

  lemma RivalsExist(s: System, c: nat)
    requires Inv(s) && c in s.calls && s.calls[c].UpdateCall?
    ensures HasRivals(s, c)
  {
    var u := s.calls[c];
    LossesInOrder(s, c);
    forall k | 0 <= k < |u.losses| ensures Rivals(s, u)[k] != c && Rivals(s, u)[k] in Committed(s) {
      LossNotOwn(s, c, k);
    }
    forall j, k | 0 <= j < k < |u.losses| ensures Rivals(s, u)[j] != Rivals(s, u)[k] {
      DifferentEntries(s, u.losses[j].readAt, u.losses[k].readAt);
    }
  }

  lemma DifferentEntries(s: System, i: nat, j: nat)
    requires Inv(s) && i < j < |s.log|
    ensures s.log[i].call != s.log[j].call
  {
  }

  lemma LossesInOrder(s: System, c: nat)
    requires Inv(s) && c in s.calls && s.calls[c].UpdateCall?
    ensures LossesOk(s.calls[c].losses, s.calls[c].begunAt, |s.log|)
  {
    assert CallOk(s, c, s.calls[c]);
  }

  lemma LossNotOwn(s: System, c: nat, k: nat)
    requires Inv(s) && c in s.calls && s.calls[c].UpdateCall? && k < |s.calls[c].losses|
    requires s.calls[c].losses[k].readAt < |s.log|
    ensures var d := s.log[s.calls[c].losses[k].readAt].call; d != c && d in Committed(s)
  {
    var u := s.calls[c];
    assert CallOk(s, c, u) && EntryOk(s, u.losses[k].readAt);
    if u.pc == Returned(None) {
      var i :| 0 <= i < |s.log| && s.log[i].call == c && AllLostBy(u.losses, i);
      assert u.losses[k].readAt < u.losses[k].lostAt <= i;
    }
  }

  lemma {:induction false} DistinctCount(xs: seq<nat>, within: set<nat>)
    requires forall i, j | 0 <= i < j < |xs| :: xs[i] != xs[j]
    requires forall i | 0 <= i < |xs| :: xs[i] in within
    ensures |xs| <= |within|
    decreases xs
  {
    if xs != [] {
      var n := |xs| - 1;
      DistinctCount(xs[..n], within - {xs[n]});
    }
  }

  function Committed(s: System): set<nat> {
    set d | d in s.calls && s.calls[d].UpdateCall? && s.calls[d].pc == Returned(None)
  }

  function Updates(s: System): set<nat> {
    set d | d in s.calls && s.calls[d].UpdateCall?
  }

  /** The calls with an entry in the log from position `from` on. */
  function CommittersSince(log: seq<Commit>, from: nat): set<nat> {
    set i | from <= i < |log| :: log[i].call
  }

  /** A call that gives up because of conflicts was refused five times, and at least five
      different other calls committed after it began. */
  lemma GivingUpTakesFiveRivals(s0: System, labels: seq<Label>, c: nat)
    requires Initial(s0)
    requires var s := Run(s0, labels);
             c in s.calls && s.calls[c].UpdateCall? && s.calls[c].pc == Returned(Some(WriteConflict))
    ensures var s := Run(s0, labels);
            && |s.calls[c].losses| == 5
            && |CommittersSince(s.log, s.calls[c].begunAt) - {c}| >= 5
            && CommittersSince(s.log, s.calls[c].begunAt) <= Committed(s)
  {
    InvReachable(s0, labels);
    FiveRivals(Run(s0, labels), c);
  }

  lemma FiveRivals(s: System, c: nat)
    requires Inv(s) && c in s.calls && s.calls[c].UpdateCall? && s.calls[c].pc == Returned(Some(WriteConflict))
    ensures |s.calls[c].losses| == 5
    ensures |CommittersSince(s.log, s.calls[c].begunAt) - {c}| >= 5
    ensures CommittersSince(s.log, s.calls[c].begunAt) <= Committed(s)
  {
    var u := s.calls[c];
    assert CallOk(s, c, u);
    RivalsExist(s, c);
    DistinctCount(Rivals(s, u), CommittersSince(s.log, u.begunAt) - {c});
    CommittersCommitted(s, u.begunAt);
  }

  lemma CommittersCommitted(s: System, from: nat)
    requires Inv(s)
    ensures CommittersSince(s.log, from) <= Committed(s)
  {
    forall i | from <= i < |s.log| ensures s.log[i].call in Committed(s) {
      assert EntryOk(s, i);
    }
  }

  /** The error after the loop is never returned: a Create is refused at most once, since the
      Secret then exists for good, and a refused Update returns from inside the loop. */
  lemma ExhaustedUnreachable(s0: System, labels: seq<Label>, c: nat)
    requires Initial(s0) && c in Run(s0, labels).calls && Run(s0, labels).calls[c].UpdateCall?
    ensures Run(s0, labels).calls[c].pc != Returned(Some(Exhausted))
  {
    InvReachable(s0, labels);
    assert CallOk(Run(s0, labels), c, Run(s0, labels).calls[c]);
  }

  /** A write is refused exactly when another commit came between its Get and the write. */
  lemma RefusedIffOvertaken(s0: System, labels: seq<Label>, c: nat, version: nat)
    requires Initial(s0) && Fresh(Run(s0, labels), version)
    requires var s := Run(s0, labels); c in s.calls && s.calls[c].UpdateCall? && s.calls[c].pc.Writing?
    ensures var s := Run(s0, labels);
            && (Next(s, Write(c, version, Healthy)).calls[c].pc == Returned(None) <==> s.calls[c].pc.readAt == |s.log|)
            && (s.calls[c].pc.readAt < |s.log| ==> s.log[s.calls[c].pc.readAt].call != c)
  {
    InvReachable(s0, labels);
    OvertakenExactly(Run(s0, labels), c);
    FreshCallNotCommitted(Run(s0, labels), c);
  }

  lemma OvertakenExactly(s: System, c: nat)
    requires Inv(s) && c in s.calls && s.calls[c].UpdateCall? && s.calls[c].pc.Writing?
    ensures s.calls[c].pc.readAt <= |s.log|
    ensures Accepts(s.secret, s.calls[c].pc.snapshot) <==> s.calls[c].pc.readAt == |s.log|
  {
    assert CallOk(s, c, s.calls[c]);
    if Accepts(s.secret, s.calls[c].pc.snapshot) {
      AcceptedReadIsLatest(s, c);
    } else {
      RefusalSpansCommit(s, c);
    }
  }

  /** An error is always founded: the vault was sealed with another key, or the modifier
      refused the stored tree, at some moment between the start of the call and its return. */
  lemma ErrorsAreFounded(s0: System, labels: seq<Label>, c: nat)
    requires Initial(s0)
    requires var s := Run(s0, labels); c in s.calls && s.calls[c].UpdateCall? && s.calls[c].pc.Returned?
    ensures var s := Run(s0, labels);
            var u := s.calls[c];
            && (u.pc.err == Some(CannotDecrypt) ==>
                  exists i | u.begunAt <= i <= |s.log| :: TreeFor(SecretAt(s.origin, s.log, i), u.key).None?)
            && (u.pc.err == Some(ModifierError) ==>
                  exists i | u.begunAt <= i <= |s.log| :: u.modifier(StoredTree(SecretAt(s.origin, s.log, i))).None?)
  {
    InvReachable(s0, labels);
    FoundedErrors(Run(s0, labels), c);
  }

  lemma FoundedErrors(s: System, c: nat)
    requires Inv(s) && c in s.calls && s.calls[c].UpdateCall? && s.calls[c].pc.Returned?
    ensures s.calls[c].pc.err == Some(CannotDecrypt) ==>
              exists i | s.calls[c].begunAt <= i <= |s.log| ::
                TreeFor(SecretAt(s.origin, s.log, i), s.calls[c].key).None?
    ensures s.calls[c].pc.err == Some(ModifierError) ==>
              exists i | s.calls[c].begunAt <= i <= |s.log| ::
                s.calls[c].modifier(StoredTree(SecretAt(s.origin, s.log, i))).None?
  {
    var u := s.calls[c];
    assert CallOk(s, c, u);
    if u.pc.err == Some(CannotDecrypt) {
      var i :| u.begunAt <= i <= |s.log| && TreeFor(SecretAt(s.origin, s.log, i), u.key).None?;
    }
    if u.pc.err == Some(ModifierError) {
      var i :| u.begunAt <= i <= |s.log| && TreeFor(SecretAt(s.origin, s.log, i), u.key).Some? &&
               u.modifier(TreeFor(SecretAt(s.origin, s.log, i), u.key).value).None?;
      assert TreeFor(SecretAt(s.origin, s.log, i), u.key) == Some(StoredTree(SecretAt(s.origin, s.log, i)));
    }
  }

  /** A failed request and a failed encryption end the call with an error, and the vault stays. */
  lemma FaultsEndCall(s: System, c: nat, version: nat, fault: Fault)
    requires c in s.calls && s.calls[c].UpdateCall?
    ensures s.calls[c].pc.Fetching? && fault != Healthy ==>
              var t := Next(s, Get(c, fault));
              && t.calls[c].UpdateCall? && t.calls[c].pc.Returned? && t.calls[c].pc.err.Some? && t.secret == s.secret
              && (t.calls[c].pc.err == Some(ApiError) <==> fault == ApiFault)
    ensures s.calls[c].pc.Writing? ==>
              var t := Next(s, Write(c, version, ApiFault));
              t.calls[c].UpdateCall? && t.calls[c].pc == Returned(Some(ApiError)) && t.secret == s.secret
  {
  }

  predicate HealthyStep(l: Label) {
    l.Get? || l.Write? ==> l.fault == Healthy
  }

  predicate AllHealthy(labels: seq<Label>) {
    forall k | 0 <= k < |labels| :: HealthyStep(labels[k])
  }

  /** No request and no encryption of this call fails; other calls may fail as they like. */
  predicate OwnStepsHealthy(labels: seq<Label>, c: nat) {
    forall k | 0 <= k < |labels| && labels[k].call == c :: HealthyStep(labels[k])
  }

  const HEALTHY_ERRORS: set<Failure> := {CannotDecrypt, ModifierError, WriteConflict, Exhausted}

  predicate HealthyResult(s: System, c: nat) {
    c in s.calls && s.calls[c].UpdateCall? && s.calls[c].pc.Returned? && s.calls[c].pc.err.Some? ==>
      s.calls[c].pc.err.value in HEALTHY_ERRORS
  }

  lemma HealthyNext(s: System, l: Label, c: nat)
    requires (l.call == c ==> HealthyStep(l)) && HealthyResult(s, c)
    ensures HealthyResult(Next(s, l), c)
  {
  }

  /** Without faults the only errors are those of decryption, the modifier and conflicts. */
  lemma {:induction false} HealthyErrors(s0: System, labels: seq<Label>, c: nat)
    requires Initial(s0) && OwnStepsHealthy(labels, c)
    ensures HealthyResult(Run(s0, labels), c)
    decreases labels
  {
    if labels != [] {
      var n := |labels| - 1;
      HealthyErrors(s0, labels[..n], c);
      HealthyNext(Run(s0, labels[..n]), labels[n], c);
    }
  }

  /** The modifier of the call accepts every tree that is stored while the call is under way. */
  ghost predicate NeverRejected(s: System, c: nat)
    requires c in s.calls && s.calls[c].UpdateCall?
  {
    forall i | s.calls[c].begunAt <= i <= |s.log| ::
      s.calls[c].modifier(StoredTree(SecretAt(s.origin, s.log, i))).Some?
  }

  /** The converse of GivingUpTakesFiveRivals. A call that has returned, suffered no failure of
      its own and met no tree its modifier rejects has committed, exactly when its key reads the
      vault, as long as at most four other calls committed since it began. */
  lemma FewRivalsCommit(s0: System, labels: seq<Label>, c: nat)
    requires Initial(s0) && OwnStepsHealthy(labels, c)
    requires var s := Run(s0, labels);
             && c in s.calls && s.calls[c].UpdateCall? && s.calls[c].pc.Returned?
             && NeverRejected(s, c) && |CommittersSince(s.log, s.calls[c].begunAt) - {c}| <= 4
    ensures var s := Run(s0, labels);
            s.calls[c].pc == Returned(None) <==> TreeFor(s.secret, s.calls[c].key).Some?
  {
    InvReachable(s0, labels);
    HealthyErrors(s0, labels, c);
    FewRivals(Run(s0, labels), c);
  }

  lemma FewRivals(s: System, c: nat)
    requires Inv(s) && c in s.calls && s.calls[c].UpdateCall? && s.calls[c].pc.Returned? && HealthyResult(s, c)
    requires NeverRejected(s, c) && |CommittersSince(s.log, s.calls[c].begunAt) - {c}| <= 4
    ensures s.calls[c].pc == Returned(None) <==> TreeFor(s.secret, s.calls[c].key).Some?
  {
    var u := s.calls[c];
    assert CallOk(s, c, u);
    if u.pc == Returned(None) {
      CommitterReads(s, c);
    } else if TreeFor(s.secret, u.key).Some? {
      forall i | 0 <= i <= |s.log| ensures TreeFor(SecretAt(s.origin, s.log, i), u.key).Some? {
        ReadableThroughout(s, u.key, i);
      }
      FoundedErrors(s, c);
      if u.pc.err == Some(WriteConflict) {
        FiveRivals(s, c);
      }
    }
  }

  /** At most five concurrent updates never starve each other, whatever else the run does before
      them: if only calls of the batch commit while `c` is under way, `c` commits. */
  lemma BatchOfFiveCommits(s0: System, labels: seq<Label>, batch: set<nat>, c: nat)
    requires Initial(s0) && OwnStepsHealthy(labels, c) && c in batch && |batch| <= 5
    requires var s := Run(s0, labels);
             && c in s.calls && s.calls[c].UpdateCall? && s.calls[c].pc.Returned?
             && NeverRejected(s, c) && CommittersSince(s.log, s.calls[c].begunAt) <= batch
    ensures var s := Run(s0, labels);
            s.calls[c].pc == Returned(None) <==> TreeFor(s.secret, s.calls[c].key).Some?
  {
    var s := Run(s0, labels);
    FewerElements(CommittersSince(s.log, s.calls[c].begunAt) - {c}, batch - {c});
    FewRivalsCommit(s0, labels, c);
  }

  lemma {:induction false} FewerElements(a: set<nat>, b: set<nat>)
    requires a <= b
    ensures |a| <= |b|
    decreases a
  {
    if a != {} {
      var x :| x in a;
      FewerElements(a - {x}, b - {x});
    }
  }

  /** How many more steps of its own a call can take. */
  function StepsLeft(u: Call): int {
    if !u.UpdateCall? then 0
    else match u.pc
      case Fetching => 2 * (MAX_RETRIES - u.attempt)
      case Writing(_, _, _) => 2 * (MAX_RETRIES - u.attempt) - 1
      case Returned(_) => 0
  }

  function StepsLeftOf(s: System, c: nat): int {
    if c in s.calls then StepsLeft(s.calls[c]) else 0
  }

  lemma GetIsCloser(s: System, c: nat, fault: Fault)
    requires Inv(s) && c in s.calls && s.calls[c].UpdateCall? && s.calls[c].pc.Fetching?
    ensures StepsLeftOf(Next(s, Get(c, fault)), c) < StepsLeftOf(s, c)
  {
    assert CallOk(s, c, s.calls[c]);
  }

  lemma WriteIsCloser(s: System, c: nat, version: nat, fault: Fault)
    requires Inv(s) && c in s.calls && s.calls[c].UpdateCall? && s.calls[c].pc.Writing? && Fresh(s, version)
    ensures StepsLeftOf(Next(s, Write(c, version, fault)), c) < StepsLeftOf(s, c)
  {
    assert CallOk(s, c, s.calls[c]);
  }

  /** UpdateVault returns: every step of its own brings it closer, so ten always suffice. The
      only step that achieves nothing is a write whose version is not new. */
  lemma OwnStepsBounded(s: System, c: nat, version: nat, fault: Fault)
    requires Inv(s) && c in s.calls && s.calls[c].UpdateCall?
    ensures 0 <= StepsLeftOf(s, c) <= 10
    ensures s.calls[c].pc.Fetching? ==> StepsLeftOf(Next(s, Get(c, fault)), c) < StepsLeftOf(s, c)
    ensures s.calls[c].pc.Writing? && Fresh(s, version) ==>
              StepsLeftOf(Next(s, Write(c, version, fault)), c) < StepsLeftOf(s, c)
    ensures StepsLeftOf(s, c) == 0 <==> s.calls[c].pc.Returned?
  {
    assert CallOk(s, c, s.calls[c]);
    if s.calls[c].pc.Fetching? {
      GetIsCloser(s, c, fault);
    } else if s.calls[c].pc.Writing? && Fresh(s, version) {
      WriteIsCloser(s, c, version, fault);
    }
  }

  // ---------- Keys ----------

  predicate KeyFits(origin: Secret, log: seq<Commit>, i: nat)
    requires i < |log|
  {
    TreeFor(SecretAt(origin, log, i), log[i].key).Some?
  }

  /** Each commit was made with a key that read what it replaced. */
  ghost predicate KeysFit(origin: Secret, log: seq<Commit>) {
    forall i | 0 <= i < |log| :: KeyFits(origin, log, i)
  }

  lemma InvKeysFit(s: System)
    requires Inv(s)
    ensures KeysFit(s.origin, s.log) && s.secret == SecretAt(s.origin, s.log, |s.log|)
  {
    forall i | 0 <= i < |s.log| ensures KeyFits(s.origin, s.log, i) {
      assert EntryOk(s, i);
    }
  }

  predicate Sealed(secret: Secret, key: Identity) {
    secret.Present? && secret.cipher.Some? && secret.cipher.value.key == key
  }

  lemma {:induction false} SealedAt(origin: Secret, log: seq<Commit>, i: nat, j: nat, key: Identity)
    requires KeysFit(origin, log) && i <= j <= |log| && Sealed(SecretAt(origin, log, i), key)
    ensures Sealed(SecretAt(origin, log, j), key)
    ensures forall k | i <= k < j :: log[k].key == key
    decreases j
  {
    if i < j {
      SealedAt(origin, log, i, j - 1, key);
      assert KeyFits(origin, log, j - 1);
    }
  }

  /** Once a vault is stored its key never changes, whatever keys other pods hold: every later
      commit uses that key. */
  lemma KeyNeverChanges(s0: System, first: seq<Label>, second: seq<Label>, key: Identity)
    requires Initial(s0) && SealedBy(Run(s0, first), key)
    ensures var s, t := Run(s0, first), Run(s0, first + second);
            && SealedBy(t, key) && s.log <= t.log
            && forall k | |s.log| <= k < |t.log| :: t.log[k].key == key
  {
    var s, t := Run(s0, first), Run(s0, first + second);
    InvReachable(s0, first);
    InvReachable(s0, first + second);
    RunAppend(s0, first, second);
    LaterRun(s, second);
    SecretAtPrefix(s.origin, s.log, t.log[|s.log|..], |s.log|);
    assert t.log == s.log + t.log[|s.log|..];
    InvKeysFit(s);
    InvKeysFit(t);
    SealedAt(t.origin, t.log, |s.log|, |t.log|, key);
  }

  /** A pod whose Unlock was checked against a stored vault can decrypt it ever after. */
  lemma VerifiedUnlockDecryptsForever(s0: System, first: seq<Label>, second: seq<Label>, c: nat)
    requires Initial(s0) && c in Run(s0, first).calls
    requires Won(Run(s0, first).calls[c]) && Run(s0, first).calls[c].unlockPc.sawVault
    ensures var u, t := Run(s0, first).calls[c], Run(s0, first + second);
            && u.mgr in t.managers && t.managers[u.mgr] == Manager(Some(u.key), false)
            && TreeFor(t.secret, u.key) == Some(StoredTree(t.secret))
  {
    var s := Run(s0, first);
    var u := s.calls[c];
    InvReachable(s0, first);
    InvReachable(s0, first + second);
    assert CallOk(s, c, u);
    KeyNeverChanges(s0, first, second, u.key);
    RunAppend(s0, first, second);
    LaterRun(s, second);
  }

  /** All commits carry the key of the stored vault. */
  lemma OneKey(s: System, key: Identity, i: nat)
    requires Inv(s) && SealedBy(s, key) && i < |s.log|
    ensures s.log[i].key == key
  {
    InvKeysFit(s);
    SealedAt(s.origin, s.log, 1, |s.log|, s.log[0].key);
  }

  /** A key that reads the vault now could read it at any earlier time. */
  lemma ReadableThroughout(s: System, key: Identity, i: nat)
    requires Inv(s) && TreeFor(s.secret, key).Some? && i <= |s.log|
    ensures TreeFor(SecretAt(s.origin, s.log, i), key).Some?
  {
    if s.log != [] {
      OneKey(s, key, 0);
      assert EntryOk(s, 0);
      if i > 0 {
        OneKey(s, key, i - 1);
      }
    }
  }

  lemma CommitterReads(s: System, c: nat)
    requires Inv(s) && c in s.calls && s.calls[c].UpdateCall? && s.calls[c].pc == Returned(None)
    ensures SealedBy(s, s.calls[c].key)
  {
    assert CallOk(s, c, s.calls[c]);
    var i :| 0 <= i < |s.log| && s.log[i].call == c;
    assert EntryOk(s, i);
    OneKey(s, s.secret.cipher.value.key, i);
  }

  /** Whoever unlocks once a vault is stored holds its key: an Unlock that had not yet looked at
      the vault then can only win with that key. */
  lemma LaterUnlocksHoldTheKey(s0: System, first: seq<Label>, second: seq<Label>, key: Identity, c: nat)
    requires Initial(s0) && SealedBy(Run(s0, first), key)
    requires var s := Run(s0, first); c in s.calls ==> s.calls[c].UnlockCall? && s.calls[c].unlockPc.Verifying?
    requires var t := Run(s0, first + second); c in t.calls && Won(t.calls[c])
    ensures Run(s0, first + second).calls[c].key == key
  {
    var s, t := Run(s0, first), Run(s0, first + second);
    InvReachable(s0, first);
    InvReachable(s0, first + second);
    RunAppend(s0, first, second);
    KeyNeverChanges(s0, first, second, key);
    LooksAtVault(s, second, key, c);
    assert CallOk(t, c, t.calls[c]);
  }

  /** An Unlock that comes to the installation, or to success, saw a vault. */
  predicate SawVault(s: System, c: nat) {
    c in s.calls && s.calls[c].UnlockCall? ==>
      match s.calls[c].unlockPc
      case Verifying => true
      case Installing(sawVault) => sawVault
      case UnlockReturned(err, sawVault) => err.Some? || sawVault
  }

  lemma SawVaultNext(s: System, l: Label, key: Identity, c: nat)
    requires SealedBy(s, key) && SawVault(s, c)
    ensures SawVault(Next(s, l), c)
  {
  }

  lemma {:induction false} LooksAtVault(s: System, labels: seq<Label>, key: Identity, c: nat)
    requires Inv(s) && SealedBy(s, key) && SawVault(s, c)
    ensures SawVault(Run(s, labels), c) && SealedBy(Run(s, labels), key)
    decreases labels
  {
    if labels != [] {
      var n := |labels| - 1;
      LooksAtVault(s, labels[..n], key, c);
      InvRun(s, labels[..n]);
      SawVaultNext(Run(s, labels[..n]), labels[n], key, c);
      SealedNext(Run(s, labels[..n]), labels[n], key);
    }
  }

  lemma SealedNext(s: System, l: Label, key: Identity)
    requires Inv(s) && SealedBy(s, key)
    ensures SealedBy(Next(s, l), key)
  {
    if l.Write? && l.call in s.calls && s.calls[l.call].UpdateCall? && s.calls[l.call].pc.Writing? {
      assert CallOk(s, l.call, s.calls[l.call]);
      if Accepts(s.secret, s.calls[l.call].pc.snapshot) {
        AcceptedReadIsLatest(s, l.call);
      }
    }
  }

  /** A pod with another key never commits, not even a call that was already under way when
      the vault was first stored. */
  lemma WrongKeyNeverCommits(s0: System, first: seq<Label>, second: seq<Label>, key: Identity, c: nat)
    requires Initial(s0) && SealedBy(Run(s0, first), key)
    requires var t := Run(s0, first + second); c in t.calls && t.calls[c].UpdateCall? && t.calls[c].key != key
    ensures var t := Run(s0, first + second); CommitsOf(t.log, c) == 0 && t.calls[c].pc != Returned(None)
  {
    var t := Run(s0, first + second);
    InvReachable(s0, first + second);
    KeyNeverChanges(s0, first, second, key);
    if t.calls[c].pc == Returned(None) {
      CommitterReads(t, c);
    }
    CommitsAreReturns(t, c);
  }

  /** When there was no vault to begin with, the first commit fixes the key: from then on a
      pod reads the vault exactly when it holds that key. */
  lemma FirstCommitFixesKey(s0: System, labels: seq<Label>, key: Identity)
    requires Initial(s0) && (s0.secret.Present? ==> s0.secret.cipher.None?)
    ensures var s := Run(s0, labels);
            TreeFor(s.secret, key).Some? <==> s.log == [] || s.log[0].key == key
  {
    var s := Run(s0, labels);
    InvReachable(s0, labels);
    LaterRun(s0, labels);
    if s.log != [] {
      InvKeysFit(s);
      SealedAt(s.origin, s.log, 1, |s.log|, s.log[0].key);
    }
  }

  // ---------- Unlock ----------

  /** A pod is locked iff it has no key; at most one Unlock returns nil, its key is the pod's
      key, and both the key and the unlocked state last for the rest of the run. */
  lemma UnlockIsWriteOnce(s0: System, first: seq<Label>, second: seq<Label>, m: nat)
    requires Initial(s0) && m in s0.managers
    ensures var s, t := Run(s0, first), Run(s0, first + second);
            && m in s.managers && m in t.managers
            && (s.managers[m].isLocked <==> s.managers[m].identity.None?)
            && (!s.managers[m].isLocked ==> t.managers[m] == s.managers[m])
            && (!s.managers[m].isLocked <==> exists c :: c in s.calls && Won(s.calls[c]) && s.calls[c].mgr == m)
            && (forall c | c in s.calls && Won(s.calls[c]) && s.calls[c].mgr == m ::
                 s.managers[m].identity == Some(s.calls[c].key))
            && (forall c, d | c in s.calls && d in s.calls && Won(s.calls[c]) && Won(s.calls[d]) &&
                 s.calls[c].mgr == s.calls[d].mgr == m :: c == d)
  {
    var s := Run(s0, first);
    InvReachable(s0, first);
    RunAppend(s0, first, second);
    LaterRun(s0, first);
    LaterRun(s, second);
    if !s.managers[m].isLocked {
      assert HasWinner(s, m);
    }
    forall c | c in s.calls && Won(s.calls[c]) && s.calls[c].mgr == m
      ensures s.managers[m].identity == Some(s.calls[c].key)
    {
      assert CallOk(s, c, s.calls[c]);
    }
  }

  // ---------- Reads ----------

  /** A successful LoadAndDecrypt returns the replay of a prefix of the commits, and that
      prefix holds everything committed before the load began. */
  lemma LoadIsSnapshot(s0: System, labels: seq<Label>, c: nat)
    requires Initial(s0)
    requires var s := Run(s0, labels);
             c in s.calls && s.calls[c].LoadCall? && s.calls[c].loadPc.LoadReturned? && s.calls[c].loadPc.result.Ok?
    ensures var s := Run(s0, labels);
            var u := s.calls[c];
            && u.begunAt <= u.loadPc.readAt <= |s.log|
            && Replay(StoredTree(s0.secret), s.log[..u.loadPc.readAt]) == Some(u.loadPc.result.value)
  {
    var s := Run(s0, labels);
    InvReachable(s0, labels);
    LaterRun(s0, labels);
    assert CallOk(s, c, s.calls[c]);
    ReplayIsStored(s, s.calls[c].loadPc.readAt);
  }

  // ---------- Linearizability ----------

  /** Where in the commit log a successful call takes effect: an update is an entry, a load sees
      the first `seen` entries. */
  datatype Effect = Writes(index: nat) | Reads(seen: nat)

  function Position(e: Effect): nat {
    match e
    case Writes(index) => 2 * index + 1
    case Reads(seen) => 2 * seen
  }

  ghost predicate TakesEffect(s: System, c: nat, e: Effect) {
    match e
    case Writes(index) => index < |s.log| && s.log[index].call == c
    case Reads(seen) =>
      && c in s.calls && s.calls[c].LoadCall? && s.calls[c].loadPc.LoadReturned?
      && s.calls[c].loadPc.result.Ok? && s.calls[c].loadPc.readAt == seen
  }

  /** The call returned what it would have in the sequential execution of the log: an update's
      modifier turned the tree before its entry into the one after it, a load returned the tree
      at its position. */
  ghost predicate Legal(s: System, c: nat, e: Effect)
    requires TakesEffect(s, c, e)
  {
    var initial := StoredTree(s.origin);
    c in s.calls &&
    match e
    case Writes(index) =>
      && s.calls[c].UpdateCall? && s.calls[c].pc == Returned(None) && s.log[index].modifier == s.calls[c].modifier
      && SucceededOnReplay(initial, s.log, index)
    case Reads(seen) => seen <= |s.log| && Replay(initial, s.log[..seen]) == Some(s.calls[c].loadPc.result.value)
  }

  predicate Successful(u: Call) {
    (u.UpdateCall? && u.pc == Returned(None)) || (u.LoadCall? && u.loadPc.LoadReturned? && u.loadPc.result.Ok?)
  }

  lemma EffectIsLegal(s: System, c: nat, e: Effect)
    requires Inv(s) && TakesEffect(s, c, e)
    ensures Legal(s, c, e) && Successful(s.calls[c]) && Begin(s.calls[c]) <= Position(e) / 2
  {
    match e
    case Writes(index) =>
      assert EntryOk(s, index);
      Serializable(s);
    case Reads(seen) =>
      assert CallOk(s, c, s.calls[c]);
      ReplayIsStored(s, seen);
  }

  lemma SuccessHasEffect(s: System, c: nat) returns (e: Effect)
    requires Inv(s) && c in s.calls && Successful(s.calls[c])
    ensures TakesEffect(s, c, e)
    ensures forall other | TakesEffect(s, c, other) :: other == e
  {
    var u := s.calls[c];
    assert CallOk(s, c, u);
    if u.UpdateCall? {
      var i :| 0 <= i < |s.log| && s.log[i].call == c;
      e := Writes(i);
    } else {
      e := Reads(u.loadPc.readAt);
      forall i | 0 <= i < |s.log| ensures s.log[i].call != c {
        assert EntryOk(s, i);
      }
    }
  }

  /** What a finished call did lies within the log at that time. */
  lemma EffectBeforeEnd(s: System, t: System, c: nat, e: Effect)
    requires Inv(s) && Inv(t) && Later(s, t) && c in s.calls && Finished(s.calls[c]) && TakesEffect(t, c, e)
    ensures Position(e) <= 2 * |s.log| && (e.Writes? ==> Position(e) < 2 * |s.log|)
  {
    assert CallOk(s, c, s.calls[c]);
    if e.Writes? {
      assert EntryOk(t, e.index);
      var k :| 0 <= k < |s.log| && s.log[k].call == c;
      assert t.log[k] == s.log[k];
      assert k == e.index;
    }
  }

  /** Each call that succeeded takes effect at exactly one position of the commit log, not before
      it began, and returned what the sequential execution of the log returns there. */
  lemma SuccessTakesEffect(s0: System, labels: seq<Label>, c: nat) returns (e: Effect)
    requires Initial(s0) && c in Run(s0, labels).calls && Successful(Run(s0, labels).calls[c])
    ensures var s := Run(s0, labels);
            && TakesEffect(s, c, e) && Legal(s, c, e) && (forall other | TakesEffect(s, c, other) :: other == e)
            && Begin(s.calls[c]) <= Position(e) / 2
  {
    var s := Run(s0, labels);
    InvReachable(s0, labels);
    e := SuccessHasEffect(s, c);
    EffectIsLegal(s, c, e);
  }

  /** Updates and loads are linearizable. Every call that succeeded has its one position in the
      commit log (`SuccessTakesEffect`), where it returned what the sequential execution returns;
      and if one call had returned before another began, its position is not later, and strictly
      earlier unless both are loads. */
  lemma Linearizable(s0: System, first: seq<Label>, second: seq<Label>, a: nat, b: nat, ea: Effect, eb: Effect)
    requires Initial(s0)
    requires var s, t := Run(s0, first), Run(s0, first + second);
             && a in s.calls && Finished(s.calls[a]) && TakesEffect(t, a, ea)
             && b !in s.calls && TakesEffect(t, b, eb)
    ensures var t := Run(s0, first + second); Legal(t, a, ea) && Legal(t, b, eb)
    ensures Position(ea) <= Position(eb) && (ea.Writes? || eb.Writes? ==> Position(ea) < Position(eb))
  {
    var s, t := Run(s0, first), Run(s0, first + second);
    InvReachable(s0, first);
    InvReachable(s0, first + second);
    RunAppend(s0, first, second);
    LaterRun(s, second);
    EffectIsLegal(t, a, ea);
    EffectIsLegal(t, b, eb);
    EffectBeforeEnd(s, t, a, ea);
    assert |s.log| <= Begin(t.calls[b]);
  }

  /** Strictness: a call that began after another one returned nil comes after it in the log. */
  lemma RealTimeOrder(s0: System, first: seq<Label>, second: seq<Label>, c: nat, d: nat, i: nat, j: nat)
    requires Initial(s0)
    requires var s := Run(s0, first);
             c in s.calls && s.calls[c].UpdateCall? && s.calls[c].pc == Returned(None) && d !in s.calls
    requires var t := Run(s0, first + second); i < |t.log| && j < |t.log| && t.log[i].call == c && t.log[j].call == d
    ensures i < j
  {
    var s, t := Run(s0, first), Run(s0, first + second);
    InvReachable(s0, first);
    InvReachable(s0, first + second);
    RunAppend(s0, first, second);
    LaterRun(s, second);
    EffectBeforeEnd(s, t, c, Writes(i));
    EffectIsLegal(t, d, Writes(j));
  }

  // ---------- Calls that leave no mark ----------

  /** The steps of all calls but one. */
  function Others(labels: seq<Label>, c: nat): seq<Label>
    decreases labels
  {
    if labels == [] then []
    else
      var n := |labels| - 1;
      Others(labels[..n], c) + if labels[n].call == c then [] else [labels[n]]
  }

  function Forget(s: System, c: nat): System {
    s.(calls := s.calls - {c})
  }

  /** The call has neither committed nor unlocked its pod. */
  predicate Quiet(s: System, c: nat) {
    c in s.calls ==> !Won(s.calls[c]) && !(s.calls[c].UpdateCall? && s.calls[c].pc == Returned(None))
  }

  lemma ForgetSetCall(s: System, d: nat, u: Call, c: nat)
    ensures Forget(SetCall(s, d, u), c) == if d == c then Forget(s, c) else SetCall(Forget(s, c), d, u)
  {
    assert d != c ==> (s.calls - {c})[d := u] == s.calls[d := u] - {c};
    assert d == c ==> s.calls[d := u] - {c} == s.calls - {c};
  }

  lemma ForgetBegins(s: System, l: Label, c: nat)
    requires l.call != c && (l.BeginUpdate? || l.BeginUnlock? || l.BeginLoad?)
    ensures Forget(Next(s, l), c) == Next(Forget(s, c), l)
  {
    if l.call in Next(s, l).calls {
      ForgetSetCall(s, l.call, Next(s, l).calls[l.call], c);
    }
  }

  lemma ForgetReads(s: System, l: Label, c: nat)
    requires l.call != c && (l.Get? || l.Verify? || l.Read?)
    ensures Forget(Next(s, l), c) == Next(Forget(s, c), l)
  {
    if l.call in Next(s, l).calls {
      ForgetSetCall(s, l.call, Next(s, l).calls[l.call], c);
    }
  }

  lemma ForgetWrite(s: System, l: Label, c: nat)
    requires l.call != c && l.Write?
    ensures Forget(Next(s, l), c) == Next(Forget(s, c), l)
  {
    assert Fresh(s, l.version) == Fresh(Forget(s, c), l.version);
    if l.call in Next(s, l).calls {
      ForgetSetCall(s, l.call, Next(s, l).calls[l.call], c);
    }
  }

  lemma ForgetInstall(s: System, l: Label, c: nat)
    requires l.call != c && l.Install?
    ensures Forget(Next(s, l), c) == Next(Forget(s, c), l)
  {
    if l.call in Next(s, l).calls {
      ForgetSetCall(s, l.call, Next(s, l).calls[l.call], c);
    }
  }

  lemma ForgetNext(s: System, l: Label, c: nat)
    requires l.call != c
    ensures Forget(Next(s, l), c) == Next(Forget(s, c), l)
  {
    match l
    case BeginUpdate(_, _, _) => ForgetBegins(s, l, c);
    case BeginUnlock(_, _, _) => ForgetBegins(s, l, c);
    case BeginLoad(_, _) => ForgetBegins(s, l, c);
    case Get(_, _) => ForgetReads(s, l, c);
    case Verify(_, _) => ForgetReads(s, l, c);
    case Read(_, _) => ForgetReads(s, l, c);
    case Write(_, _, _) => ForgetWrite(s, l, c);
    case Install(_) => ForgetInstall(s, l, c);
  }

  lemma OwnStepQuiet(s: System, l: Label)
    requires Quiet(Next(s, l), l.call)
    ensures Forget(Next(s, l), l.call) == Forget(s, l.call)
  {
    if l.call in Next(s, l).calls {
      ForgetSetCall(s, l.call, Next(s, l).calls[l.call], l.call);
    }
  }

  lemma QuietBefore(s: System, l: Label, c: nat)
    requires Quiet(Next(s, l), c)
    ensures Quiet(s, c)
  {
  }

  /** An update that fails, a load, an Unlock that does not win and a call that has not yet come
      that far leave no mark: without their own record, the run is the run of the others. */
  lemma {:induction false} QuietCallsInvisible(s0: System, labels: seq<Label>, c: nat)
    requires c !in s0.calls && Quiet(Run(s0, labels), c)
    ensures Forget(Run(s0, labels), c) == Run(s0, Others(labels, c))
    decreases labels
  {
    if labels == [] {
      assert s0.calls - {c} == s0.calls;
    } else {
      var n := |labels| - 1;
      var s := Run(s0, labels[..n]);
      QuietBefore(s, labels[n], c);
      QuietCallsInvisible(s0, labels[..n], c);
      var before := Others(labels[..n], c);
      if labels[n].call == c {
        OwnStepQuiet(s, labels[n]);
        assert Others(labels, c) == before;
      } else {
        ForgetNext(s, labels[n], c);
        assert Others(labels, c) == before + [labels[n]];
        assert (before + [labels[n]])[..|before|] == before;
      }
    }
  }

  lemma {:induction false} OthersAppend(first: seq<Label>, second: seq<Label>, c: nat)
    ensures Others(first + second, c) == Others(first, c) + Others(second, c)
    decreases second
  {
    if second == [] {
      assert first + second == first;
    } else {
      var n := |second| - 1;
      assert (first + second)[..|first + second| - 1] == first + second[..n];
      OthersAppend(first, second[..n], c);
    }
  }

  lemma {:induction false} OthersOfForeign(labels: seq<Label>, c: nat)
    requires forall k | 0 <= k < |labels| :: labels[k].call != c
    ensures Others(labels, c) == labels
    decreases labels
  {
    if labels != [] {
      OthersOfForeign(labels[..|labels| - 1], c);
    }
  }

  // ---------- Invariants of the tree ----------

  lemma {:induction false} CallsFromLabels(s0: System, labels: seq<Label>, c: nat)
    requires Initial(s0) && c in Run(s0, labels).calls && Run(s0, labels).calls[c].UpdateCall?
    ensures exists k | 0 <= k < |labels| ::
              labels[k] == BeginUpdate(c, Run(s0, labels).calls[c].mgr, Run(s0, labels).calls[c].modifier)
    decreases labels
  {
    if labels != [] {
      var n := |labels| - 1;
      var s, t := Run(s0, labels[..n]), Run(s0, labels);
      if c in s.calls {
        assert s.calls[c].UpdateCall? && s.calls[c].mgr == t.calls[c].mgr && s.calls[c].modifier == t.calls[c].modifier;
        CallsFromLabels(s0, labels[..n], c);
        var k :| 0 <= k < n && labels[..n][k] == BeginUpdate(c, s.calls[c].mgr, s.calls[c].modifier);
        assert labels[k] == BeginUpdate(c, t.calls[c].mgr, t.calls[c].modifier);
      } else {
        assert labels[n] == BeginUpdate(c, t.calls[c].mgr, t.calls[c].modifier);
      }
    }
  }

  ghost predicate Keeps(modifier: Modifier, good: Nodes -> bool) {
    forall t | good(t) && modifier(t).Some? :: good(modifier(t).value)
  }

  /** Every commit goes back to the start of its call, and its modifier made the new tree out of
      the stored one. */
  lemma CommitFromLabel(s0: System, labels: seq<Label>, i: nat) returns (k: nat)
    requires Initial(s0) && i < |Run(s0, labels).log|
    ensures var e := Run(s0, labels).log[i];
            && k < |labels| && labels[k].BeginUpdate? && labels[k].call == e.call && labels[k].modifier == e.modifier
            && e.modifier(StoredTree(SecretAt(s0.secret, Run(s0, labels).log, i))) == Some(e.after)
  {
    var s := Run(s0, labels);
    InvReachable(s0, labels);
    LaterRun(s0, labels);
    assert EntryOk(s, i);
    var c := s.log[i].call;
    CallsFromLabels(s0, labels, c);
    k :| 0 <= k < |labels| && labels[k] == BeginUpdate(c, s.calls[c].mgr, s.calls[c].modifier);
    var before := SecretAt(s.origin, s.log, i);
    assert TreeFor(before, s.log[i].key) == Some(StoredTree(before));
  }

  /** If the property holds before entry `n` it holds after it. */
  ghost predicate KeptAt(origin: Secret, log: seq<Commit>, good: Nodes -> bool, n: nat)
    requires n < |log|
  {
    good(StoredTree(SecretAt(origin, log, n))) ==> good(log[n].after)
  }

  lemma {:induction false} KeptFrom(origin: Secret, log: seq<Commit>, good: Nodes -> bool, from: nat, i: nat)
    requires from <= i <= |log| && good(StoredTree(SecretAt(origin, log, from)))
    requires forall n | from <= n < |log| :: KeptAt(origin, log, good, n)
    ensures good(StoredTree(SecretAt(origin, log, i)))
    decreases i
  {
    if from < i {
      KeptFrom(origin, log, good, from, i - 1);
      assert KeptAt(origin, log, good, i - 1);
    }
  }

  /** A property of trees that every modifier of a run keeps holds of every tree the run ever
      stores, because each modifier is run again on the tree it is about to replace. */
  lemma {:induction false} TreePropertyHolds(s0: System, labels: seq<Label>, good: Nodes -> bool, i: nat)
    requires Initial(s0) && good(StoredTree(s0.secret))
    requires forall k | 0 <= k < |labels| && labels[k].BeginUpdate? :: Keeps(labels[k].modifier, good)
    requires i <= |Run(s0, labels).log|
    ensures good(StoredTree(SecretAt(s0.secret, Run(s0, labels).log, i)))
  {
    if i > 0 {
      TreePropertyHolds(s0, labels, good, i - 1);
      var k := CommitFromLabel(s0, labels, i - 1);
      assert Keeps(labels[k].modifier, good);
    }
  }
}
