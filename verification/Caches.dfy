/** The two caches of permissions.go, each against a history of what was fetched or put. */
module KeyCaches {
  import opened Wrappers

  datatype PublicKey = PublicKey(modulus: nat, exponent: nat)

  /** A key set by `kid` (RFC 7517, sections 4.5 and 5). */
  type Keys = map<string, PublicKey>

  /** One fetch of the key set; None when it failed. */
  datatype Fetch = Fetch(started: int, ended: int, result: Option<Keys>)

  /** One pass through the section guarded by the write lock: the kid asked for, the time of
      the second check, and what a fetch would bring and when it would end. */
  datatype Visit = Visit(kid: string, now: int, fetched: Option<Keys>, ended: int)

  /** `history` and `clock` record what happened; they steer nothing. */
  datatype State = State(keys: Option<Keys>, lastFetch: int, history: seq<Fetch>, clock: int)

  /** jwksCache.cached */
  function Cached(s: State, refresh: int, kid: string, now: int): Option<PublicKey> {
    if refresh <= 0 then None
    else if s.keys.None? || now - s.lastFetch >= refresh then None
    else if kid in s.keys.value then Some(s.keys.value[kid]) else None
  }

  /** getKey from taking the write lock to its return. */
  function AfterVisit(s: State, refresh: int, v: Visit): State {
    if Cached(s, refresh, v.kid, v.now).Some? then s.(clock := v.now)
    else
      var history := s.history + [Fetch(v.now, v.ended, v.fetched)];
      if v.fetched.None? then s.(history := history, clock := v.ended)
      else State(v.fetched, v.ended, history, v.ended)
  }

  function Answer(s: State, refresh: int, v: Visit): Option<PublicKey> {
    var hit := Cached(s, refresh, v.kid, v.now);
    if hit.Some? then hit
    else
      var keys := if v.fetched.Some? then v.fetched else s.keys;
      if keys.Some? && v.kid in keys.value then Some(keys.value[v.kid]) else None
  }

  function AfterVisits(s: State, refresh: int, visits: seq<Visit>): State
    decreases visits
  {
    if visits == [] then s
    else AfterVisit(AfterVisits(s, refresh, visits[..|visits| - 1]), refresh, visits[|visits| - 1])
  }

  /** The write lock admits one visit at a time, and the clock does not run backwards. */
  predicate InOrder(visits: seq<Visit>, from: int) {
    && (forall i | 0 <= i < |visits| :: from <= visits[i].now <= visits[i].ended)
    && (forall i, j | 0 <= i < j < |visits| :: visits[i].ended <= visits[j].now)
  }

  const EMPTY: State := State(None, 0, [], 0)

  function LastSuccess(history: seq<Fetch>): (last: Option<Fetch>)
    ensures last.Some? ==> last.value.result.Some?
    decreases history
  {
    if history == [] then None
    else if history[|history| - 1].result.Some? then Some(history[|history| - 1])
    else LastSuccess(history[..|history| - 1])
  }

  /** The cache is exactly the most recent successful fetch. */
  ghost predicate Refines(s: State) {
    && s.keys == (match LastSuccess(s.history) case None => None case Some(f) => f.result)
    && (s.keys.Some? ==> s.lastFetch == LastSuccess(s.history).value.ended)
    && (forall i | 0 <= i < |s.history| :: s.history[i].started <= s.history[i].ended <= s.clock)
  }

  lemma RefinesVisit(s: State, refresh: int, v: Visit)
    requires Refines(s) && s.clock <= v.now <= v.ended
    ensures Refines(AfterVisit(s, refresh, v)) && s.clock <= AfterVisit(s, refresh, v).clock <= v.ended
  {
    var t := AfterVisit(s, refresh, v);
    if t.history != s.history {
      assert t.history[..|s.history|] == s.history;
    }
  }

  lemma {:induction false} RefinesVisits(s: State, refresh: int, visits: seq<Visit>)
    requires Refines(s) && InOrder(visits, s.clock)
    ensures var t := AfterVisits(s, refresh, visits);
            Refines(t) && s.clock <= t.clock && (visits != [] ==> t.clock <= visits[|visits| - 1].ended) &&
              (visits == [] ==> t == s)
    decreases visits
  {
    if visits != [] {
      var n := |visits| - 1;
      RefinesVisits(s, refresh, visits[..n]);
      RefinesVisit(AfterVisits(s, refresh, visits[..n]), refresh, visits[n]);
    }
  }

  /** Entry `i` is the last one that succeeded. */
  ghost predicate IsLastSuccess(history: seq<Fetch>, i: nat)
    requires i < |history|
  {
    history[i].result.Some? && forall j | i < j < |history| :: history[j].result.None?
  }

  lemma {:induction false} LastSuccessIsLast(history: seq<Fetch>) returns (i: nat)
    ensures LastSuccess(history).Some? ==>
              i < |history| && history[i] == LastSuccess(history).value && IsLastSuccess(history, i)
    ensures LastSuccess(history).None? ==> forall j | 0 <= j < |history| :: history[j].result.None?
    decreases history
  {
    i := 0;
    if history != [] {
      var n := |history| - 1;
      if history[n].result.Some? {
        i := n;
      } else {
        i := LastSuccessIsLast(history[..n]);
      }
    }
  }

  /** Whatever visits came before, a key is found without the lock exactly when it is in the most
      recent successful fetch, which ended less than `refresh` ago. */
  lemma {:induction false} FastHitIsFresh(refresh: int, visits: seq<Visit>, kid: string, now: int)
    requires InOrder(visits, 0)
    ensures var s := AfterVisits(EMPTY, refresh, visits);
            var last := LastSuccess(s.history);
            Cached(s, refresh, kid, now) ==
              if 0 < refresh && last.Some? && now - last.value.ended < refresh && kid in last.value.result.value
              then Some(last.value.result.value[kid]) else None
  {
    RefinesVisits(EMPTY, refresh, visits);
  }

  function KeyIn(fetch: Option<Fetch>, kid: string): Option<PublicKey>
    requires fetch.Some? ==> fetch.value.result.Some?
  {
    if fetch.Some? && kid in fetch.value.result.value then Some(fetch.value.result.value[kid]) else None
  }

  /** A visit answers exactly what the most recent successful fetch says, its own included; that
      it fell back on an older one does not matter. */
  lemma VisitAnswersLatest(s: State, refresh: int, v: Visit)
    requires Refines(s) && s.clock <= v.now <= v.ended
    ensures var last := LastSuccess(AfterVisit(s, refresh, v).history);
            Answer(s, refresh, v) == KeyIn(last, v.kid)
  {
    RefinesVisit(s, refresh, v);
  }

  /** Under the lock a key is returned exactly when it is in the most recent successful fetch;
      that snapshot is younger than `refresh`, or this call fetched it, or this call tried to
      fetch and failed. */
  lemma AnswerIsLatest(refresh: int, visits: seq<Visit>, v: Visit)
    requires InOrder(visits + [v], 0)
    ensures var s, t := AfterVisits(EMPTY, refresh, visits), AfterVisits(EMPTY, refresh, visits + [v]);
            var last := LastSuccess(t.history);
            && (Answer(s, refresh, v).Some? <==> last.Some? && v.kid in last.value.result.value)
            && (Answer(s, refresh, v).Some? ==>
                  && Answer(s, refresh, v).value == last.value.result.value[v.kid]
                  && (|| (t.history == s.history && v.now - last.value.ended < refresh)
                      || t.history == s.history + [Fetch(v.now, v.ended, v.fetched)]))
  {
    var s := AfterVisits(EMPTY, refresh, visits);
    assert (visits + [v])[..|visits|] == visits;
    assert forall i | 0 <= i < |visits| :: (visits + [v])[i] == visits[i];
    assert (visits + [v])[|visits|] == v;
    RefinesVisits(EMPTY, refresh, visits);
    var t := AfterVisits(EMPTY, refresh, visits + [v]);
    assert t == AfterVisit(s, refresh, v);
    assert s.clock <= v.now;
    RefinesVisit(s, refresh, v);
    VisitAnswersLatest(s, refresh, v);
  }

  /** When a visit fetches: nothing cached yet, the snapshot is `refresh` old (always, when
      refreshing is off), or the kid is unknown. */
  lemma FetchesExactlyWhen(s: State, refresh: int, v: Visit)
    requires Refines(s)
    ensures var last := LastSuccess(s.history);
            AfterVisit(s, refresh, v).history != s.history <==>
              (refresh <= 0 || last.None? || v.now - last.value.ended >= refresh || v.kid !in last.value.result.value)
  {
    var _ := LastSuccessIsLast(s.history);
  }

  /** No fetch starts within `refresh` of the end of an earlier successful one. */
  ghost predicate Spaced(history: seq<Fetch>, refresh: int) {
    forall i, j | 0 <= i < j < |history| && history[i].result.Some? :: history[j].started - history[i].ended >= refresh
  }

  /** If every requested kid is in every key set the endpoint serves, fetches are spaced by
      `refresh`; only unknown kids can make the cache fetch more often. */
  lemma {:induction false} FetchesAreSpaced(refresh: int, visits: seq<Visit>)
    requires InOrder(visits, 0)
    requires forall i, j | 0 <= i < |visits| && 0 <= j < |visits| && visits[j].fetched.Some? ::
               visits[i].kid in visits[j].fetched.value
    ensures Spaced(AfterVisits(EMPTY, refresh, visits).history, refresh)
    decreases visits
  {
    if visits != [] {
      var n := |visits| - 1;
      var v := visits[n];
      FetchesAreSpaced(refresh, visits[..n]);
      RefinesVisits(EMPTY, refresh, visits[..n]);
      FetchedByVisit(EMPTY, refresh, visits[..n]);
      var s := AfterVisits(EMPTY, refresh, visits[..n]);
      forall i | 0 <= i < |s.history| && s.history[i].result.Some? ensures v.kid in s.history[i].result.value {
        assert BroughtBy(s.history[i], visits[..n]);
        var j :| 0 <= j < n && visits[..n][j].fetched == s.history[i].result;
        assert visits[j].fetched == s.history[i].result;
      }
      SpacedVisit(s, refresh, v);
    }
  }

  lemma SpacedVisit(s: State, refresh: int, v: Visit)
    requires Refines(s) && Sequential(s.history) && Spaced(s.history, refresh) && s.clock <= v.now <= v.ended
    requires forall i | 0 <= i < |s.history| && s.history[i].result.Some? :: v.kid in s.history[i].result.value
    ensures Spaced(AfterVisit(s, refresh, v).history, refresh)
  {
    if AfterVisit(s, refresh, v).history != s.history {
      var _ := LastSuccessIsLast(s.history);
      FetchesExactlyWhen(s, refresh, v);
      forall i | 0 <= i < |s.history| && s.history[i].result.Some? ensures v.now - s.history[i].ended >= refresh {
        EarlierSuccess(s, i);
      }
    }
  }

  /** Earlier successes ended no later than the most recent one. */
  lemma EarlierSuccess(s: State, i: nat)
    requires Refines(s) && i < |s.history| && s.history[i].result.Some? && Sequential(s.history)
    ensures LastSuccess(s.history).Some? && s.history[i].ended <= LastSuccess(s.history).value.ended
  {
    var _ := LastSuccessIsLast(s.history);
    var k :| 0 <= k < |s.history| && s.history[k] == LastSuccess(s.history).value && s.history[k].result.Some? &&
             forall j | k < j < |s.history| :: s.history[j].result.None?;
    assert i <= k;
  }

  predicate Sequential(history: seq<Fetch>) {
    forall i, j | 0 <= i < j < |history| :: history[i].ended <= history[j].started <= history[j].ended
  }

  ghost predicate BroughtBy(f: Fetch, visits: seq<Visit>) {
    exists j :: 0 <= j < |visits| && visits[j].fetched == f.result
  }

  /** Every fetch of the history was brought by one of the visits, one after the other. */
  lemma {:induction false} FetchedByVisit(s: State, refresh: int, visits: seq<Visit>)
    requires Refines(s) && InOrder(visits, s.clock) && s.history == []
    ensures Sequential(AfterVisits(s, refresh, visits).history)
    ensures forall f | f in AfterVisits(s, refresh, visits).history :: BroughtBy(f, visits)
    decreases visits
  {
    if visits != [] {
      var n := |visits| - 1;
      FetchedByVisit(s, refresh, visits[..n]);
      RefinesVisits(s, refresh, visits[..n]);
      var before := AfterVisits(s, refresh, visits[..n]);
      SequentialVisit(before, refresh, visits[n]);
      forall f | f in before.history ensures BroughtBy(f, visits) {
        BroughtByEarlier(f, visits, n);
      }
      assert BroughtBy(Fetch(visits[n].now, visits[n].ended, visits[n].fetched), visits);
    }
  }

  lemma BroughtByEarlier(f: Fetch, visits: seq<Visit>, n: nat)
    requires n <= |visits| && BroughtBy(f, visits[..n])
    ensures BroughtBy(f, visits)
  {
    var j :| 0 <= j < n && visits[..n][j].fetched == f.result;
    assert visits[j].fetched == f.result;
  }

  lemma SequentialVisit(s: State, refresh: int, v: Visit)
    requires Refines(s) && Sequential(s.history) && s.clock <= v.now <= v.ended
    ensures var t := AfterVisit(s, refresh, v);
            Sequential(t.history) &&
            (t.history == s.history || t.history == s.history + [Fetch(v.now, v.ended, v.fetched)])
  {
  }

  /** The cache object. Between the two looks of getKey other calls may hold the write lock. */
  class JwksCache {
    const refresh: int
    var keys: Option<Keys>
    var lastFetch: int
    ghost var history: seq<Fetch>
    ghost var clock: int

    ghost function Abstract(): State
      reads this
    {
      State(keys, lastFetch, history, clock)
    }

    ghost predicate Valid()
      reads this
    {
      Refines(Abstract())
    }

    constructor (refresh: int)
      ensures Valid() && this.refresh == refresh && Abstract() == EMPTY
    {
      this.refresh := refresh;
      keys, lastFetch, history, clock := None, 0, [], 0;
    }

    method Lookup(kid: string, now: int) returns (pub: Option<PublicKey>)
      ensures pub == Cached(Abstract(), refresh, kid, now)
    {
      if refresh <= 0 {
        return None;
      }
      if keys.None? || now - lastFetch >= refresh {
        return None;
      }
      pub := if kid in keys.value then Some(keys.value[kid]) else None;
    }

    /** getKey: look under the read lock, let others pass, then look again and fetch under the
        write lock. */
    method GetKey(firstLook: int, others: seq<Visit>, own: Visit) returns (pub: Option<PublicKey>)
      requires Valid() && clock <= firstLook && InOrder(others + [own], firstLook)
      modifies this
      ensures Valid() && clock >= old(clock)
      ensures old(Cached(Abstract(), refresh, own.kid, firstLook)).Some? ==>
                Abstract() == old(Abstract()) && pub == old(Cached(Abstract(), refresh, own.kid, firstLook))
      ensures old(Cached(Abstract(), refresh, own.kid, firstLook)).None? ==>
                && pub == Answer(AfterVisits(old(Abstract()), refresh, others), refresh, own)
                && Abstract() == AfterVisits(old(Abstract()), refresh, others + [own])
                && pub == KeyIn(LastSuccess(history), own.kid)
    {
      pub := Lookup(own.kid, firstLook);
      if pub.Some? {
        return;
      }
      assert (others + [own])[..|others|] == others && (others + [own])[|others|] == own;
      assert forall i | 0 <= i < |others| :: (others + [own])[i] == others[i];
      ghost var start := Abstract();
      for i := 0 to |others|
        invariant Valid() && old(clock) <= clock && Abstract() == AfterVisits(start, refresh, others[..i])
        invariant i < |others| ==> clock <= others[i].now
        invariant i == |others| ==> clock <= own.now
      {
        assert others[..i + 1][..i] == others[..i];
        var _ := UnderLock(others[i]);
      }
      assert others[..|others|] == others;
      pub := UnderLock(own);
    }

    /** getKey while it holds the write lock. */
    method UnderLock(v: Visit) returns (pub: Option<PublicKey>)
      requires Valid() && clock <= v.now <= v.ended
      modifies this
      ensures Valid() && Abstract() == AfterVisit(old(Abstract()), refresh, v)
      ensures pub == Answer(old(Abstract()), refresh, v) && old(clock) <= clock <= v.ended
      ensures pub == KeyIn(LastSuccess(history), v.kid)
    {
      RefinesVisit(Abstract(), refresh, v);
      VisitAnswersLatest(Abstract(), refresh, v);
      pub := LookupOrFetch(v);
    }

    method LookupOrFetch(v: Visit) returns (pub: Option<PublicKey>)
      modifies this
      ensures Abstract() == AfterVisit(old(Abstract()), refresh, v)
      ensures pub == Answer(old(Abstract()), refresh, v)
    {
      pub := Lookup(v.kid, v.now);
      if pub.Some? {
        clock := v.now;
        return;
      }
      history := history + [Fetch(v.now, v.ended, v.fetched)];
      clock := v.ended;
      if v.fetched.None? {
        if keys.Some? && v.kid in keys.value {
          return Some(keys.value[v.kid]);
        }
        return None;
      }
      keys := v.fetched;
      lastFetch := v.ended;
      pub := if v.kid in v.fetched.value then Some(v.fetched.value[v.kid]) else None;
    }
  }
}

module UserInfoCaches {
  import opened Wrappers

  datatype Entry = Entry(username: string, expires: int)

  type Entries = map<string, Entry>

  /** One use of the cache; under its mutex uses happen one after the other. */
  datatype Op = Get(key: string, at: int) | Put(key: string, username: string, at: int)

  function AfterOp(entries: Entries, ttl: int, op: Op): Entries {
    match op
    case Get(key, at) => if key in entries && at > entries[key].expires then entries - {key} else entries
    case Put(key, username, at) => entries[key := Entry(username, at + ttl)]
  }

  function Reply(entries: Entries, op: Op): Option<string> {
    match op
    case Get(key, at) => if key in entries && at <= entries[key].expires then Some(entries[key].username) else None
    case Put(_, _, _) => None
  }

  function AfterOps(ttl: int, ops: seq<Op>): Entries
    decreases ops
  {
    if ops == [] then map[] else AfterOp(AfterOps(ttl, ops[..|ops| - 1]), ttl, ops[|ops| - 1])
  }

  /** The last put on a key. */
  function LastPut(ops: seq<Op>, key: string): Option<Op>
    decreases ops
  {
    if ops == [] then None
    else
      var op := ops[|ops| - 1];
      if op.Put? && op.key == key then Some(op) else LastPut(ops[..|ops| - 1], key)
  }

  /** What a cache with unbounded memory answers: the last put, while it is not too old. */
  function Remembered(ops: seq<Op>, ttl: int, key: string, at: int): Option<string> {
    match LastPut(ops, key)
    case Some(Put(_, username, t)) => if at <= t + ttl then Some(username) else None
    case _ => None
  }

  predicate Monotone(ops: seq<Op>) {
    forall i, j | 0 <= i < j < |ops| :: ops[i].at <= ops[j].at
  }

  /** An entry is the last put on its key; a key without entry has no put that could still
      answer from `now` on. */
  ghost predicate Faithful(entries: Entries, ops: seq<Op>, ttl: int, now: int) {
    forall key ::
      && (LastPut(ops, key).Some? ==> LastPut(ops, key).value.Put?)
      && (key in entries ==>
            LastPut(ops, key).Some? &&
            entries[key] == Entry(LastPut(ops, key).value.username, LastPut(ops, key).value.at + ttl))
      && (key !in entries && LastPut(ops, key).Some? ==> LastPut(ops, key).value.at + ttl < now)
  }

  lemma FaithfulStep(entries: Entries, ops: seq<Op>, ttl: int, now: int, op: Op)
    requires Faithful(entries, ops, ttl, now) && now <= op.at
    ensures Faithful(AfterOp(entries, ttl, op), ops + [op], ttl, op.at)
  {
    assert (ops + [op])[..|ops|] == ops;
    forall key
      ensures LastPut(ops + [op], key) == if op.Put? && op.key == key then Some(op) else LastPut(ops, key)
    {
    }
  }

  lemma {:induction false} FaithfulRun(ttl: int, ops: seq<Op>, now: int)
    requires Monotone(ops) && (ops != [] ==> ops[|ops| - 1].at <= now)
    ensures Faithful(AfterOps(ttl, ops), ops, ttl, now)
    decreases ops
  {
    if ops != [] {
      var n := |ops| - 1;
      FaithfulRun(ttl, ops[..n], ops[n].at);
      FaithfulStep(AfterOps(ttl, ops[..n]), ops[..n], ttl, ops[n].at, ops[n]);
      assert ops[..n] + [ops[n]] == ops;
    }
  }

  lemma {:induction false} LastPutIsPut(ops: seq<Op>, key: string)
    ensures var last := LastPut(ops, key); last.Some? ==> last.value.Put? && last.value.key == key
    decreases ops
  {
    if ops != [] {
      LastPutIsPut(ops[..|ops| - 1], key);
    }
  }

  /** After any sequence of gets and puts, `get` answers u exactly when the last put on the key
      stored u no more than `ttl` ago. */
  lemma {:induction false} GetAnswersLastPut(ttl: int, ops: seq<Op>, key: string, at: int)
    requires Monotone(ops) && (ops != [] ==> ops[|ops| - 1].at <= at)
    ensures Reply(AfterOps(ttl, ops), Get(key, at)) == Remembered(ops, ttl, key, at)
  {
    FaithfulRun(ttl, ops, at);
    LastPutIsPut(ops, key);
  }

  /** Operation `i` is the last put on the key. */
  ghost predicate IsLastPut(ops: seq<Op>, key: string, i: nat) {
    && i < |ops| && ops[i].Put? && ops[i].key == key
    && forall j | i < j < |ops| :: !(ops[j].Put? && ops[j].key == key)
  }

  lemma {:induction false} LastPutFound(ops: seq<Op>, key: string) returns (i: nat)
    ensures LastPut(ops, key).Some? ==> IsLastPut(ops, key, i) && LastPut(ops, key) == Some(ops[i])
    ensures LastPut(ops, key).None? ==> forall j | 0 <= j < |ops| :: !(ops[j].Put? && ops[j].key == key)
    decreases ops
  {
    i := 0;
    if ops != [] {
      var n := |ops| - 1;
      if ops[n].Put? && ops[n].key == key {
        i := n;
      } else {
        i := LastPutFound(ops[..n], key);
      }
    }
  }

  /** The same without reference to the model of the cache: `get` answers u exactly when some put
      on the key, not followed by another one, stored u at a time no more than `ttl` ago. */
  lemma RememberedExactly(ttl: int, ops: seq<Op>, key: string, at: int, username: string)
    ensures Remembered(ops, ttl, key, at) == Some(username) <==>
            exists i: nat :: IsLastPut(ops, key, i) && ops[i].username == username && at <= ops[i].at + ttl
  {
    var k := LastPutFound(ops, key);
    forall i: nat | IsLastPut(ops, key, i) ensures LastPut(ops, key) == Some(ops[i]) {
      assert LastPut(ops, key).Some?;
      assert i == k;
    }
  }

  lemma RememberedIsLastPut(ttl: int, ops: seq<Op>, key: string, at: int)
    ensures var u := Remembered(ops, ttl, key, at);
            && (u.Some? ==>
                  exists i: nat :: IsLastPut(ops, key, i) && ops[i].username == u.value && at <= ops[i].at + ttl)
            && (u.None? ==> forall i: nat | IsLastPut(ops, key, i) :: at > ops[i].at + ttl)
  {
    var u := Remembered(ops, ttl, key, at);
    if u.Some? {
      RememberedExactly(ttl, ops, key, at, u.value);
    }
    forall i: nat | u.None? && IsLastPut(ops, key, i) ensures at > ops[i].at + ttl {
      RememberedExactly(ttl, ops, key, at, ops[i].username);
    }
  }

  /** The gets of a history, and so the evictions they made, never change a later answer. */
  lemma EvictionInvisible(ttl: int, ops: seq<Op>, key: string, at: int)
    requires Monotone(ops) && (ops != [] ==> ops[|ops| - 1].at <= at)
    ensures Reply(AfterOps(ttl, ops), Get(key, at)) == Reply(AfterOps(ttl, PutsOf(ops)), Get(key, at))
  {
    PutsInOrder(ops);
    SameLastPut(ops, key);
    GetAnswersLastPut(ttl, ops, key, at);
    GetAnswersLastPut(ttl, PutsOf(ops), key, at);
  }

  function PutsOf(ops: seq<Op>): seq<Op>
    decreases ops
  {
    if ops == [] then []
    else PutsOf(ops[..|ops| - 1]) + if ops[|ops| - 1].Put? then [ops[|ops| - 1]] else []
  }

  lemma {:induction false} SameLastPut(ops: seq<Op>, key: string)
    ensures LastPut(PutsOf(ops), key) == LastPut(ops, key)
    decreases ops
  {
    if ops != [] {
      var n := |ops| - 1;
      SameLastPut(ops[..n], key);
      if ops[n].Put? {
        assert PutsOf(ops) == PutsOf(ops[..n]) + [ops[n]];
        assert PutsOf(ops)[..|PutsOf(ops)| - 1] == PutsOf(ops[..n]);
      } else {
        assert PutsOf(ops) == PutsOf(ops[..n]);
      }
    }
  }

  lemma {:induction false} PutsInOrder(ops: seq<Op>)
    requires Monotone(ops)
    ensures Monotone(PutsOf(ops))
    ensures forall p | p in PutsOf(ops) :: p in ops
    ensures PutsOf(ops) != [] ==> PutsOf(ops)[|PutsOf(ops)| - 1].at <= ops[|ops| - 1].at
    decreases ops
  {
    if ops != [] {
      var n := |ops| - 1;
      PutsInOrder(ops[..n]);
      forall p | p in PutsOf(ops[..n]) ensures p.at <= ops[n].at && p in ops {
        assert p in ops[..n];
        var i :| 0 <= i < n && ops[..n][i] == p;
        assert ops[i] == p;
      }
    }
  }

  class UserInfoCache {
    const ttl: int
    var entries: Entries
    ghost var ops: seq<Op>

    ghost predicate Valid()
      reads this
    {
      Monotone(ops) && entries == AfterOps(ttl, ops)
    }

    ghost predicate NotBefore(now: int)
      reads this
    {
      ops != [] ==> ops[|ops| - 1].at <= now
    }

    /** A non-positive ttl means five minutes (in nanoseconds). */
    constructor (ttl: int)
      ensures Valid() && ops == [] && this.ttl == if ttl <= 0 then 300_000_000_000 else ttl
    {
      this.ttl := if ttl <= 0 then 300_000_000_000 else ttl;
      entries, ops := map[], [];
    }

    /** The answer is the last put on the key if it has not expired. */
    method Fetch(key: string, now: int) returns (username: Option<string>)
      requires Valid() && NotBefore(now)
      modifies this
      ensures Valid() && ops == old(ops) + [Get(key, now)]
      ensures username == Remembered(old(ops), ttl, key, now)
      ensures username.Some? ==> exists i: nat ::
                IsLastPut(old(ops), key, i) && old(ops)[i].username == username.value && now <= old(ops)[i].at + ttl
      ensures username.None? ==> forall i: nat | IsLastPut(old(ops), key, i) :: now > old(ops)[i].at + ttl
    {
      GetAnswersLastPut(ttl, ops, key, now);
      RememberedIsLastPut(ttl, ops, key, now);
      Append(Get(key, now));
      if key !in entries {
        return None;
      }
      var entry := entries[key];
      if now > entry.expires {
        entries := entries - {key};
        return None;
      }
      return Some(entry.username);
    }

    method Store(key: string, username: string, now: int)
      requires Valid() && NotBefore(now)
      modifies this
      ensures Valid() && ops == old(ops) + [Put(key, username, now)]
    {
      Append(Put(key, username, now));
      entries := entries[key := Entry(username, now + ttl)];
    }

    ghost method Append(op: Op)
      requires Monotone(ops) && NotBefore(op.at)
      modifies this`ops
      ensures Monotone(ops) && ops == old(ops) + [op]
      ensures AfterOps(ttl, ops) == AfterOp(AfterOps(ttl, old(ops)), ttl, op)
    {
      assert (ops + [op])[..|ops|] == ops;
      ops := ops + [op];
    }
  }
}
