/** Where the guarantees of the protocol end: concrete runs. */
module Limits {
  import opened Protocol
  import opened Runs
  import opened VaultTrees
  import opened Wrappers

  /** A run computed state by state. */
  lemma {:induction false} RunsThrough(states: seq<System>, labels: seq<Label>)
    requires |states| == |labels| + 1
    requires forall k | 0 <= k < |labels| :: Next(states[k], labels[k]) == states[k + 1]
    ensures Run(states[0], labels) == states[|labels|]
    decreases labels
  {
    if labels != [] {
      RunsThrough(states[..|labels|], labels[..|labels| - 1]);
    }
  }

  const KEEP: Modifier := (nodes: Nodes) => Some(nodes)

  // ---------- Five rivals suffice to starve a call ----------

  ghost predicate VersionsBelow(s: System, version: nat) {
    forall i | 0 <= i <= |s.log| && SecretAt(s.origin, s.log, i).Present? ::
      SecretAt(s.origin, s.log, i).version < version
  }

  /** The victim is about to Get; call ids from `rival` on and versions from `version` on are unused. */
  ghost predicate Racing(s: System, victim: nat, rival: nat, version: nat, key: Identity) {
    && LogOk(s) && VersionsBelow(s, version)
    && (forall c | c in s.calls :: c < rival)
    && 0 in s.managers && s.managers[0] == Manager(Some(key), false)
    && s.secret.Present? && TreeFor(s.secret, key).Some?
    && victim in s.calls && s.calls[victim].UpdateCall? && s.calls[victim].key == key
    && s.calls[victim].modifier == KEEP && s.calls[victim].pc.Fetching? && s.calls[victim].attempt < MAX_RETRIES
  }

  function Round(victim: nat, rival: nat, version: nat): seq<Label> {
    [Get(victim, Healthy), BeginUpdate(rival, 0, KEEP), Get(rival, Healthy), Write(rival, version, Healthy),
      Write(victim, version, Healthy)]
  }

  lemma RunRound(s: System, victim: nat, rival: nat, version: nat)
    ensures var r := Round(victim, rival, version);
            Run(s, r) == Next(Next(Next(Next(Next(s, r[0]), r[1]), r[2]), r[3]), r[4])
  {
    var r := Round(victim, rival, version);
    var s1 := Next(s, r[0]);
    var s2 := Next(s1, r[1]);
    var s3 := Next(s2, r[2]);
    var s4 := Next(s3, r[3]);
    RunsThrough([s, s1, s2, s3, s4, Next(s4, r[4])], r);
  }

  lemma RivalCommits(s: System, victim: nat, rival: nat, version: nat, key: Identity)
    requires Racing(s, victim, rival, version, key)
    ensures var a := Next(s, Get(victim, Healthy));
            var read := Next(Next(a, BeginUpdate(rival, 0, KEEP)), Get(rival, Healthy));
            var b := Next(read, Write(rival, version, Healthy));
            && b == Accepted(read, rival,
                             b.calls[rival].(pc := Writing(s.secret, TreeFor(s.secret, key).value, |s.log|)), version)
            && b.calls[victim] == s.calls[victim].(pc := Writing(s.secret, TreeFor(s.secret, key).value, |s.log|))
            && b.calls.Keys == s.calls.Keys + {rival} && b.managers == s.managers && b.origin == s.origin
            && b.calls[rival].UpdateCall?
            && |b.log| == |s.log| + 1 && b.log[..|s.log|] == s.log
            && (forall c | c in s.calls && c != victim :: b.calls[c] == s.calls[c])
            && b.secret == Present(version, Some(Enc(key, TreeFor(s.secret, key).value)))
  {
    var a := Next(s, Get(victim, Healthy));
    assert a.calls[victim].pc == Writing(s.secret, TreeFor(s.secret, key).value, |s.log|);
    var begun := Next(a, BeginUpdate(rival, 0, KEEP));
    assert begun.calls[rival] == UpdateCall(0, key, KEEP, |s.log|, 0, Fetching, []);
    var read := Next(begun, Get(rival, Healthy));
    assert read.calls[rival].pc == Writing(s.secret, TreeFor(s.secret, key).value, |s.log|);
    assert Fresh(read, version);
    assert Accepts(read.secret, s.secret);
  }

  lemma VictimRefused(s: System, b: System, victim: nat, rival: nat, version: nat, key: Identity)
    requires Racing(s, victim, rival, version, key)
    requires b.calls.Keys == s.calls.Keys + {rival} && b.managers == s.managers && b.origin == s.origin
    requires |b.log| == |s.log| + 1 && b.log[..|s.log|] == s.log && LogOk(b)
    requires b.calls[victim] == s.calls[victim].(pc := Writing(s.secret, TreeFor(s.secret, key).value, |s.log|))
    requires b.secret == Present(version, Some(Enc(key, TreeFor(s.secret, key).value)))
    ensures !Accepts(b.secret, s.secret)
    ensures VersionsBelow(b, version + 1)
  {
    assert SecretAt(s.origin, s.log, |s.log|) == s.secret;
    assert b.log == s.log + [b.log[|s.log|]];
    forall i | 0 <= i <= |b.log| && SecretAt(b.origin, b.log, i).Present?
      ensures SecretAt(b.origin, b.log, i).version < version + 1
    {
      if i <= |s.log| {
        SecretAtPrefix(s.origin, s.log, [b.log[|s.log|]], i);
      }
    }
  }

  function BeforeRefusal(s: System, victim: nat, rival: nat, version: nat): System {
    var r := Round(victim, rival, version);
    Next(Next(Next(Next(s, r[0]), r[1]), r[2]), r[3])
  }

  lemma RoundInv(s: System, victim: nat, rival: nat, version: nat)
    requires Inv(s)
    ensures var b := BeforeRefusal(s, victim, rival, version);
            LogOk(b) && Inv(Next(b, Write(victim, version, Healthy)))
  {
    var r := Round(victim, rival, version);
    InvNext(s, r[0]);
    InvNext(Next(s, r[0]), r[1]);
    InvNext(Next(Next(s, r[0]), r[1]), r[2]);
    InvNext(Next(Next(Next(s, r[0]), r[1]), r[2]), r[3]);
    InvNext(Next(Next(Next(Next(s, r[0]), r[1]), r[2]), r[3]), r[4]);
  }

  lemma RoundLost(s: System, victim: nat, rival: nat, version: nat, key: Identity, b: System, t: System)
    requires Racing(s, victim, rival, version, key)
    requires b == BeforeRefusal(s, victim, rival, version) && LogOk(b)
    requires t == Next(b, Write(victim, version, Healthy)) && LogOk(t)
    ensures |Updates(t)| == |Updates(s)| + 1
    ensures RoundOutcome(s, t, victim, rival, version, key)
  {
    RivalCommits(s, victim, rival, version, key);
    VictimRefused(s, b, victim, rival, version, key);
    AfterRefused(s, b, victim, rival, version, key);
    OneMoreUpdate(s, t, rival);
  }

  ghost predicate RoundOutcome(s: System, t: System, victim: nat, rival: nat, version: nat, key: Identity)
    requires victim in s.calls && s.calls[victim].UpdateCall?
  {
    && Stays(t, victim)
    && if s.calls[victim].attempt == MAX_RETRIES - 1 then t.calls[victim].pc == Returned(Some(WriteConflict))
       else t.calls[victim].attempt == s.calls[victim].attempt + 1 && Racing(t, victim, rival + 1, version + 1, key)
  }

  lemma AfterRefused(s: System, b: System, victim: nat, rival: nat, version: nat, key: Identity)
    requires Racing(s, victim, rival, version, key)
    requires b.calls.Keys == s.calls.Keys + {rival} && b.managers == s.managers && b.origin == s.origin
    requires b.calls[victim] == s.calls[victim].(pc := Writing(s.secret, TreeFor(s.secret, key).value, |s.log|))
    requires b.secret == Present(version, Some(Enc(key, TreeFor(s.secret, key).value)))
    requires !Accepts(b.secret, s.secret) && VersionsBelow(b, version + 1) && LogOk(b) &&
             LogOk(Next(b, Write(victim, version, Healthy)))
    ensures var t := Next(b, Write(victim, version, Healthy));
            && t == SetCall(b, victim, AfterRefusal(b, b.calls[victim]))
            && if s.calls[victim].attempt == MAX_RETRIES - 1 then t.calls[victim].pc == Returned(Some(WriteConflict))
               else
                 && t.calls[victim].attempt == s.calls[victim].attempt + 1
                 && Racing(t, victim, rival + 1, version + 1, key)
  {
  }

  lemma RoundPlayed(s: System, victim: nat, rival: nat, version: nat, key: Identity)
    requires Racing(s, victim, rival, version, key) && Inv(s)
    ensures var t := Run(s, Round(victim, rival, version));
            Inv(t) && |Updates(t)| == |Updates(s)| + 1 && RoundOutcome(s, t, victim, rival, version, key)
  {
    RunRound(s, victim, rival, version);
    RoundInv(s, victim, rival, version);
    RoundLost(s, victim, rival, version, key, BeforeRefusal(s, victim, rival, version),
      Run(s, Round(victim, rival, version)));
  }

  lemma RoundHealthy(victim: nat, rival: nat, version: nat) returns (round: seq<Label>)
    ensures round == Round(victim, rival, version) && AllHealthy(round)
  {
    round := Round(victim, rival, version);
  }

  lemma OneRound(s: System, victim: nat, rival: nat, version: nat, key: Identity) returns (round: seq<Label>)
    requires Racing(s, victim, rival, version, key) && Inv(s)
    ensures AllHealthy(round)
    ensures var t := Run(s, round);
            Inv(t) && |Updates(t)| == |Updates(s)| + 1 && RoundOutcome(s, t, victim, rival, version, key)
  {
    RoundPlayed(s, victim, rival, version, key);
    round := RoundHealthy(victim, rival, version);
  }

  lemma JoinHealthy(a: seq<Label>, b: seq<Label>)
    requires AllHealthy(a) && AllHealthy(b)
    ensures AllHealthy(a + b)
  {
  }

  /** The victim is still the same call, and its key still reads the vault. */
  ghost predicate Stays(t: System, victim: nat) {
    && victim in t.calls && t.calls[victim].UpdateCall? && t.calls[victim].modifier == KEEP
    && TreeFor(t.secret, t.calls[victim].key).Some?
  }

  ghost predicate Starved(t: System, victim: nat, updates: int) {
    Stays(t, victim) && t.calls[victim].pc == Returned(Some(WriteConflict)) && |Updates(t)| == updates
  }

  lemma {:induction false} StarveFrom(s: System, victim: nat, rival: nat, version: nat, key: Identity)
      returns (labels: seq<Label>)
    requires Racing(s, victim, rival, version, key) && Inv(s)
    ensures AllHealthy(labels)
    ensures Starved(Run(s, labels), victim, |Updates(s)| + MAX_RETRIES - s.calls[victim].attempt)
    decreases MAX_RETRIES - s.calls[victim].attempt
  {
    var round := OneRound(s, victim, rival, version, key);
    var t := Run(s, round);
    if s.calls[victim].attempt == MAX_RETRIES - 1 {
      labels := round;
    } else {
      var rest := StarveFrom(t, victim, rival + 1, version + 1, key);
      RunAppend(s, round, rest);
      JoinHealthy(round, rest);
      labels := round + rest;
    }
  }

  lemma OneMoreUpdate(s: System, t: System, rival: nat)
    requires rival !in s.calls && t.calls.Keys == s.calls.Keys + {rival} && t.calls[rival].UpdateCall?
    requires forall c | c in s.calls :: t.calls[c].UpdateCall? <==> s.calls[c].UpdateCall?
    ensures |Updates(t)| == |Updates(s)| + 1
  {
    assert Updates(t) == Updates(s) + {rival};
  }

  function OnePodUnlocked(key: Identity): System {
    System(Present(0, None), Present(0, None), map[0 := Manager(Some(key), false)],
           map[0 := UnlockCall(0, key, UnlockReturned(None, false)),
             1 := UpdateCall(0, key, KEEP, 0, 0, Fetching, [])], [])
  }

  lemma UnlockOnePod(key: Identity, s0: System, labels: seq<Label>)
    requires s0 == System(Present(0, None), Present(0, None), map[0 := Manager(None, true)], map[], [])
    requires labels == [BeginUnlock(0, 0, Some(key)), Verify(0, Healthy), Install(0), BeginUpdate(1, 0, KEEP)]
    ensures Run(s0, labels) == OnePodUnlocked(key)
  {
    var s1 := s0.(calls := map[0 := UnlockCall(0, key, Verifying)]);
    var s2 := s0.(calls := map[0 := UnlockCall(0, key, Installing(false))]);
    var s3 := s0.(calls := map[0 := UnlockCall(0, key, UnlockReturned(None, false))],
      managers := map[0 := Manager(Some(key), false)]);
    RunsThrough([s0, s1, s2, s3, OnePodUnlocked(key)], labels);
  }

  lemma OthersAllCommitted(t: System, victim: nat)
    requires Inv(t) && Starved(t, victim, 6)
    ensures |CommittersSince(t.log, t.calls[victim].begunAt) - {victim}| == 5
  {
    FiveRivals(t, victim);
    var others := CommittersSince(t.log, t.calls[victim].begunAt) - {victim};
    FewerElements(others, Updates(t) - {victim});
  }

  /** One unlocked pod, an empty vault, and a first update that is about to Get. */
  lemma StartRace(key: Identity) returns (s0: System, labels: seq<Label>, s: System)
    ensures Initial(s0) && TreeFor(s0.secret, key).Some? && AllHealthy(labels) && s == Run(s0, labels) && Inv(s)
    ensures Racing(s, 1, 2, 1, key) && s.calls[1].attempt == 0 && |Updates(s)| == 1
  {
    s0 := System(Present(0, None), Present(0, None), map[0 := Manager(None, true)], map[], []);
    labels := [BeginUnlock(0, 0, Some(key)), Verify(0, Healthy), Install(0), BeginUpdate(1, 0, KEEP)];
    UnlockOnePod(key, s0, labels);
    InvReachable(s0, labels);
    s := OnePodUnlocked(key);
    assert Updates(s) == {1};
    assert SecretAt(s.origin, s.log, 0) == s0.secret;
  }

  /** The bound of FewRivalsCommit is exact: six updates, no fault, one key, modifiers that
      always succeed, five commits of others, and still the sixth gives up with a conflict. */
  lemma SixthCanStarve(key: Identity) returns (s0: System, labels: seq<Label>, victim: nat)
    ensures Initial(s0) && TreeFor(s0.secret, key).Some?
    ensures AllHealthy(labels)
    ensures var t := Run(s0, labels);
            && |Updates(t)| == 6 && victim in Updates(t) && t.calls[victim].modifier == KEEP
            && TreeFor(t.secret, t.calls[victim].key).Some?
            && |CommittersSince(t.log, t.calls[victim].begunAt) - {victim}| == 5
            && t.calls[victim].pc == Returned(Some(WriteConflict))
  {
    var unlock, s;
    s0, unlock, s := StartRace(key);
    victim := 1;
    var rest := StarveFrom(s, victim, 2, 1, key);
    RunAppend(s0, unlock, rest);
    JoinHealthy(unlock, rest);
    labels := unlock + rest;
    InvRun(s, rest);
    OthersAllCommitted(Run(s, rest), victim);
  }

  // ---------- Two keys before the first write ----------

  function TwoPodsLocked(): System {
    System(Absent, Absent, map[0 := Manager(None, true), 1 := Manager(None, true)], map[], [])
  }

  function TwoPodsCalled(a: UnlockPc, b: UnlockPc, keyA: Identity, keyB: Identity): System {
    TwoPodsLocked().(calls := map[0 := UnlockCall(0, keyA, a), 1 := UnlockCall(1, keyB, b)])
  }

  function OnePodInstalled(a: Identity, b: Identity): System {
    TwoPodsCalled(UnlockReturned(None, false), Installing(false), a, b).(
      managers := map[0 := Manager(Some(a), false), 1 := Manager(None, true)])
  }

  function TwoPodsUnlocked(a: Identity, b: Identity): System {
    TwoPodsCalled(UnlockReturned(None, false), UnlockReturned(None, false), a, b).(
      managers := map[0 := Manager(Some(a), false), 1 := Manager(Some(b), false)])
  }

  function FirstPodWrote(a: Identity, b: Identity): System {
    var s := TwoPodsUnlocked(a, b);
    s.(secret := Present(0, Some(Enc(a, map[]))), log := [Commit(2, 0, a, KEEP, map[])],
       calls := s.calls[2 := UpdateCall(0, a, KEEP, 0, 0, Returned(None), [])])
  }

  function SecondPodFailed(a: Identity, b: Identity): System {
    SetCall(FirstPodWrote(a, b), 3, UpdateCall(1, b, KEEP, 1, 0, Returned(Some(CannotDecrypt)), []))
  }

  lemma BothBegin(a: Identity, b: Identity)
    ensures Run(TwoPodsLocked(), [BeginUnlock(0, 0, Some(a)), BeginUnlock(1, 1, Some(b))])
            == TwoPodsCalled(Verifying, Verifying, a, b)
  {
    TwoSteps(TwoPodsLocked(), BeginUnlock(0, 0, Some(a)), BeginUnlock(1, 1, Some(b)));
    assert Next(TwoPodsLocked(), BeginUnlock(0, 0, Some(a))) ==
           TwoPodsLocked().(calls := map[0 := UnlockCall(0, a, Verifying)]);
  }

  lemma BothCheck(a: Identity, b: Identity)
    ensures Run(TwoPodsCalled(Verifying, Verifying, a, b), [Verify(0, Healthy), Verify(1, Healthy)])
            == TwoPodsCalled(Installing(false), Installing(false), a, b)
  {
    TwoSteps(TwoPodsCalled(Verifying, Verifying, a, b), Verify(0, Healthy), Verify(1, Healthy));
    assert Next(TwoPodsCalled(Verifying, Verifying, a, b), Verify(0, Healthy)) ==
           TwoPodsCalled(Installing(false), Verifying, a, b);
  }

  lemma FirstInstalls(a: Identity, b: Identity)
    ensures Next(TwoPodsCalled(Installing(false), Installing(false), a, b), Install(0)) == OnePodInstalled(a, b)
  {
  }

  lemma SecondInstalls(a: Identity, b: Identity)
    ensures Next(OnePodInstalled(a, b), Install(1)) == TwoPodsUnlocked(a, b)
  {
  }

  lemma BothInstall(a: Identity, b: Identity, s: System)
    requires s == TwoPodsCalled(Installing(false), Installing(false), a, b)
    ensures Run(s, [Install(0), Install(1)]) == TwoPodsUnlocked(a, b)
  {
    FirstInstalls(a, b);
    SecondInstalls(a, b);
    TwoSteps(s, Install(0), Install(1));
  }

  lemma TwoSteps(s: System, l1: Label, l2: Label)
    ensures Run(s, [l1, l2]) == Next(Next(s, l1), l2)
  {
    RunsThrough([s, Next(s, l1), Next(Next(s, l1), l2)], [l1, l2]);
  }

  function FirstPodAbout(a: Identity, b: Identity): System {
    SetCall(TwoPodsUnlocked(a, b), 2, UpdateCall(0, a, KEEP, 0, 0, Writing(Absent, map[], 0), []))
  }

  lemma FirstGets(a: Identity, b: Identity)
    ensures Run(TwoPodsUnlocked(a, b), [BeginUpdate(2, 0, KEEP), Get(2, Healthy)]) == FirstPodAbout(a, b)
  {
    var s := TwoPodsUnlocked(a, b);
    TwoSteps(s, BeginUpdate(2, 0, KEEP), Get(2, Healthy));
    assert Next(s, BeginUpdate(2, 0, KEEP)) == SetCall(s, 2, UpdateCall(0, a, KEEP, 0, 0, Fetching, []));
  }

  lemma FirstWrites(a: Identity, b: Identity)
    ensures Run(FirstPodAbout(a, b), [Write(2, 0, Healthy)]) == FirstPodWrote(a, b)
  {
    RunOne(FirstPodAbout(a, b), Write(2, 0, Healthy));
  }

  lemma SecondFails(a: Identity, b: Identity)
    requires a != b
    ensures Run(FirstPodWrote(a, b), [BeginUpdate(3, 1, KEEP), Get(3, Healthy)]) ==
              SecondPodFailed(a, b)
  {
    var s0 := FirstPodWrote(a, b);
    var s1 := SetCall(s0, 3, UpdateCall(1, b, KEEP, 1, 0, Fetching, []));
    RunsThrough([s0, s1, SecondPodFailed(a, b)], [BeginUpdate(3, 1, KEEP), Get(3, Healthy)]);
  }

  /** What the four stages leave behind. */
  ghost predicate Split(t: System, a: Identity, b: Identity) {
    && {0, 1, 2, 3} <= t.calls.Keys
    && Won(t.calls[0]) && t.calls[0].key == a && t.calls[0].mgr == 0
    && Won(t.calls[1]) && t.calls[1].key == b && t.calls[1].mgr == 1
    && t.calls[2].UpdateCall? && t.calls[2].pc == Returned(None)
    && t.calls[3].UpdateCall? && t.calls[3].mgr == 1 && t.calls[3].pc == Returned(Some(CannotDecrypt))
    && TreeFor(t.secret, b) == None
  }

  lemma SecondPodShutOut(a: Identity, b: Identity)
    requires a != b
    ensures Split(SecondPodFailed(a, b), a, b)
  {
  }

  lemma FourStages(s0: System, s1: System, s2: System, s3: System, s4: System,
                   a: seq<Label>, b: seq<Label>, c: seq<Label>, d: seq<Label>)
    requires Run(s0, a) == s1 && Run(s1, b) == s2 && Run(s2, c) == s3 && Run(s3, d) == s4
    ensures Run(s0, a + b + c + d) == s4
  {
    RunAppend(s0, a, b);
    RunAppend(s0, a + b, c);
    RunAppend(s0, a + b + c, d);
  }

  /** Pods that unlock before any vault is stored may load different keys: both Unlock calls
      return nil, one pod's first write creates the vault, and the other pod can neither read
      nor update it. */
  lemma SplitBrain(a: Identity, b: Identity) returns (s0: System, labels: seq<Label>)
    requires a != b
    ensures Initial(s0)
    ensures Split(Run(s0, labels), a, b)
  {
    s0 := TwoPodsLocked();
    var begin := [BeginUnlock(0, 0, Some(a)), BeginUnlock(1, 1, Some(b))];
    var verify := [Verify(0, Healthy), Verify(1, Healthy)];
    var install := [Install(0), Install(1)];
    var get, write := [BeginUpdate(2, 0, KEEP), Get(2, Healthy)], [Write(2, 0, Healthy)];
    var again := [BeginUpdate(3, 1, KEEP), Get(3, Healthy)];
    BothBegin(a, b);
    BothCheck(a, b);
    BothInstall(a, b, TwoPodsCalled(Installing(false), Installing(false), a, b));
    FirstGets(a, b);
    FirstWrites(a, b);
    SecondFails(a, b);
    SecondPodShutOut(a, b);
    var checked := TwoPodsCalled(Installing(false), Installing(false), a, b);
    RunAppend(s0, begin, verify);
    RunAppend(TwoPodsUnlocked(a, b), get, write);
    FourStages(s0, checked, TwoPodsUnlocked(a, b), FirstPodWrote(a, b), SecondPodFailed(a, b),
               begin + verify, install, get + write, again);
    labels := begin + verify + install + (get + write) + again;
  }
}
