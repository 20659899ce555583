/** The Kubernetes capability store: one object per key, written by compare-and-swap retry loops
    (crates/center-adapter-kubernetes/src/cloud_capability_store.rs). Every stored version is one step
    of the fenced register from the version it replaced. */
module KubeCapabilities {
  import opened Basics
  import opened ApiServer
  import opened CapabilityRegister

  const MAX_CONFLICT_RETRIES := 8

  datatype Status = Status(lastEpoch: nat, authority: Option<Fence>, snapshot: Option<Snapshot>)

  /** The object of one key; it is created without a status. */
  datatype Resource = Resource(status: Option<Status>)

  datatype Refusal = EpochExhausted | CommittedDifferently | Contended

  datatype Write = Kept | FenceLost

  /** States the code itself can write: the authority is the latest epoch. */
  predicate WellFormed(res: Resource) {
    res.status.Some? && res.status.value.authority.Some? ==>
      res.status.value.authority.value.epoch == res.status.value.lastEpoch
  }

  function Abstract(res: Option<Resource>): Register {
    if res.None? || res.value.status.None? then Empty
    else Register(res.value.status.value.lastEpoch, res.value.status.value.authority, res.value.status.value.snapshot)
  }

  /** The register after the first n versions. */
  function After(log: seq<Entry<Resource>>, n: nat): Register
    requires n <= |log|
  {
    Abstract(if n == 0 then None else Some(log[n - 1].value))
  }

  ghost predicate AllWellFormed(log: seq<Entry<Resource>>) {
    forall i :: 0 <= i < |log| ==> WellFormed(log[i].value)
  }

  ghost predicate Sound(env: Schedule<Resource>, me: nat) {
    forall k: nat :: AllWellFormed(env(k)) && forall e :: e in env(k) ==> e.writer != me
  }

  /** All that `me` stored since version `from` is object creation, except that the last version may
      be the register step `done`. */
  ghost predicate Did(log: seq<Entry<Resource>>, from: nat, me: nat, done: Event) {
    && from <= |log|
    && (forall i :: from <= i < |log| && log[i].writer == me && (done.Idle? || i < |log| - 1) ==>
          Next(After(log, i), Idle, After(log, i + 1)))
    && (!done.Idle? ==>
          |log| > from && log[|log| - 1].writer == me && Next(After(log, |log| - 1), done, After(log, |log|)))
  }

  lemma DidJoins(mid: seq<Entry<Resource>>, log: seq<Entry<Resource>>, from: nat, me: nat)
    requires mid <= log && Did(mid, from, me, Idle) && Did(log, |mid|, me, Idle)
    ensures Did(log, from, me, Idle)
  {
    forall i | 0 <= i <= |mid| ensures After(log, i) == After(mid, i) {
    }
  }

  lemma DidStep(held: seq<Entry<Resource>>, log: seq<Entry<Resource>>, from: nat, me: nat, next: Resource, done: Event)
    requires log == held + [Entry(next, me)] && Did(held, from, me, Idle)
    requires Next(After(held, |held|), done, Abstract(Some(next))) && !done.Idle?
    ensures Did(log, from, me, done) && After(log, |log| - 1) == After(held, |held|)
  {
    forall i | 0 <= i <= |held| ensures After(log, i) == After(held, i) {
    }
  }

  class KubernetesCapabilityStore {

    /** Reads the object, creating it first if need be; None if another creation came first. */
    static method LoadOrCreate(api: Object<Resource>, read: seq<Entry<Resource>>, write: seq<Entry<Resource>>, me: nat)
      returns (version: nat, found: Option<Resource>)
      requires AllWellFormed(api.log) && AllWellFormed(read) && AllWellFormed(write)
      requires (forall e :: e in read ==> e.writer != me) && (forall e :: e in write ==> e.writer != me)
      modifies api
      ensures old(api.log) <= api.log && AllWellFormed(api.log)
      ensures Did(api.log, |old(api.log)|, me, Idle)
      ensures found.Some? ==> version == |api.log| > 0 && found.value == api.log[|api.log| - 1].value
      ensures found.None? ==> write != []
    {
      version, found := api.Get(read);
      if found.None? {
        var created := Resource(None);
        var stored := api.Put(write, me, version, created);
        version := version + 1;
        found := if stored then Some(created) else None;
      }
    }

    /** `begin_discovery`: a returned fence was begun by the last version stored, which keeps the
        committed snapshot of the version it replaced. */
    static method BeginDiscovery(api: Object<Resource>, env: Schedule<Resource>, me: nat,
                                 generation: nat, revision: Option<string>, tokens: nat -> string)
      returns (r: Result<Fence, Refusal>, ghost k: nat)
      requires AllWellFormed(api.log) && Sound(env, me)
      modifies api
      ensures old(api.log) <= api.log && AllWellFormed(api.log)
      ensures Did(api.log, |old(api.log)|, me, if r.Ok? then Begun(r.value) else Idle)
      ensures r.Ok? ==>
        && k < MAX_CONFLICT_RETRIES && r.value.token == tokens(k)
        && (forall a: nat :: a < k ==> Disturbed(env, a, 3))
        && Pair(r.value, generation, revision)
        && After(api.log, |api.log|).active == Some(r.value)
        && After(api.log, |api.log|).committed == After(api.log, |api.log| - 1).committed
      ensures r == Err(EpochExhausted) ==> After(api.log, |api.log|).epoch >= I64_MAX
      ensures r.Err? && r.error != EpochExhausted ==>
        r.error == Contended && forall a: nat :: a < MAX_CONFLICT_RETRIES ==> Disturbed(env, a, 3)
    {
      ghost var start := api.log;
      var attempt := 0;
      while attempt < MAX_CONFLICT_RETRIES
        invariant 0 <= attempt <= MAX_CONFLICT_RETRIES
        invariant start <= api.log && AllWellFormed(api.log)
        invariant Did(api.log, |start|, me, Idle)
        invariant forall a: nat :: a < attempt ==> Disturbed(env, a, 3)
      {
        ghost var mid := api.log;
        var version, found := LoadOrCreate(api, env(3 * attempt), env(3 * attempt + 1), me);
        DidJoins(mid, api.log, |start|, me);
        if found.Some? {
          var last := if found.value.status.Some? then found.value.status.value.lastEpoch else 0;
          if last >= I64_MAX {
            return Err(EpochExhausted), attempt;
          }
          var fence := Fence(generation, revision, last + 1, tokens(attempt));
          var committed := if found.value.status.Some? then found.value.status.value.snapshot else None;
          var next := Resource(Some(Status(last + 1, Some(fence), committed)));
          ghost var held := api.log;
          var others := env(3 * attempt + 2);
          var stored := api.Put(others, me, version, next);
          if stored {
            DidStep(held, api.log, |start|, me, next, Begun(fence));
            return Ok(fence), attempt;
          }
          DidJoins(held, api.log, |start|, me);
        }
        attempt := attempt + 1;
      }
      r, k := Err(Contended), attempt;
    }

    /** `put_if_current`: Kept (`Stored`) means the snapshot is committed under the still active fence, and
        FenceLost that another fence, or none, is active. */
    static method PutIfCurrent(api: Object<Resource>, env: Schedule<Resource>, me: nat, snapshot: Snapshot)
      returns (r: Result<Write, Refusal>)
      requires AllWellFormed(api.log) && Sound(env, me)
      modifies api
      ensures old(api.log) <= api.log && AllWellFormed(api.log)
      ensures Did(api.log, |old(api.log)|, me, Idle)
              || (r == Ok(Kept) && Did(api.log, |old(api.log)|, me, Stored(snapshot)))
      ensures var now := After(api.log, |api.log|);
        && (r == Ok(Kept) ==> now.active == Some(snapshot.fence) && now.committed == Some(snapshot))
        && (r == Ok(FenceLost) ==> now.active != Some(snapshot.fence))
        && (r == Err(CommittedDifferently) ==>
              && now.active == Some(snapshot.fence) && now.committed.Some?
              && now.committed.value.fence == snapshot.fence && now.committed.value != snapshot)
      ensures r.Err? && r.error != CommittedDifferently ==>
        r.error == Contended && forall a: nat :: a < MAX_CONFLICT_RETRIES ==> Disturbed(env, a, 2)
    {
      ghost var start := api.log;
      var attempt := 0;
      while attempt < MAX_CONFLICT_RETRIES
        invariant 0 <= attempt <= MAX_CONFLICT_RETRIES
        invariant start <= api.log && AllWellFormed(api.log)
        invariant Did(api.log, |start|, me, Idle)
        invariant forall a: nat :: a < attempt ==> Disturbed(env, a, 2)
      {
        ghost var mid := api.log;
        var version, found := api.Get(env(2 * attempt));
        DidJoins(mid, api.log, |start|, me);
        if found.None? || found.value.status.None? {
          return Ok(FenceLost);
        }
        var status := found.value.status.value;
        if status.authority != Some(snapshot.fence) {
          return Ok(FenceLost);
        }
        if status.snapshot.Some? && status.snapshot.value.fence == snapshot.fence {
          if status.snapshot.value == snapshot {
            return Ok(Kept);
          }
          return Err(CommittedDifferently);
        }
        var next := Resource(Some(status.(snapshot := Some(snapshot))));
        ghost var held := api.log;
        var others := env(2 * attempt + 1);
        var stored := api.Put(others, me, version, next);
        if stored {
          DidStep(held, api.log, |start|, me, next, Stored(snapshot));
          return Ok(Kept);
        }
        DidJoins(held, api.log, |start|, me);
        attempt := attempt + 1;
      }
      r := Err(Contended);
    }

    /** The edit of `invalidate_key`: None when the pair is neither active nor committed, otherwise the
        exact revocation of the pair. */
    static method Revoke(was: Status, generation: nat, revision: Option<string>)
      returns (r: Result<Option<Status>, Refusal>)
      ensures var before := Abstract(Some(Resource(Some(was))));
        && (r == Ok(None) <==>
              !ActivePair(before, generation, revision) && !CommittedPair(before, generation, revision))
        && (r.Err? <==> ActivePair(before, generation, revision) && was.lastEpoch >= I64_MAX)
        && (r.Err? ==> r.error == EpochExhausted)
        && (r.Ok? && r.value.Some? ==>
              var after := Abstract(Some(Resource(r.value)));
              && Next(before, Revoked(generation, revision), after)
              && !ActivePair(after, generation, revision) && !CommittedPair(after, generation, revision)
              && (WellFormed(Resource(Some(was))) ==> WellFormed(Resource(r.value))))
    {
      var status := was;
      var activeMatches := status.authority.Some? && Pair(status.authority.value, generation, revision);
      var snapshotMatches := status.snapshot.Some? && Pair(status.snapshot.value.fence, generation, revision);
      if !activeMatches && !snapshotMatches {
        return Ok(None);
      }
      if activeMatches {
        if status.lastEpoch >= I64_MAX {
          return Err(EpochExhausted);
        }
        status := status.(authority := None);
        status := status.(lastEpoch := status.lastEpoch + 1);
      }
      if snapshotMatches {
        status := status.(snapshot := None);
      }
      r := Ok(Some(status));
    }

    /** `invalidate_key`: once it returns Ok the pair is neither active nor committed, and the only
        version it may store is the exact revocation of that pair. */
    static method InvalidateKey(api: Object<Resource>, env: Schedule<Resource>, me: nat, generation: nat,
                                revision: Option<string>)
      returns (r: Result<bool, Refusal>)
      requires AllWellFormed(api.log) && Sound(env, me)
      modifies api
      ensures old(api.log) <= api.log && AllWellFormed(api.log)
      ensures Did(api.log, |old(api.log)|, me, if r == Ok(true) then Revoked(generation, revision) else Idle)
      ensures r.Ok? ==>
        && !ActivePair(After(api.log, |api.log|), generation, revision)
        && !CommittedPair(After(api.log, |api.log|), generation, revision)
      ensures r == Err(EpochExhausted) ==>
        ActivePair(After(api.log, |api.log|), generation, revision) && After(api.log, |api.log|).epoch >= I64_MAX
      ensures r.Err? && r.error != EpochExhausted ==>
        r.error == Contended && forall a: nat :: a < MAX_CONFLICT_RETRIES ==> Disturbed(env, a, 2)
    {
      ghost var start := api.log;
      var attempt := 0;
      while attempt < MAX_CONFLICT_RETRIES
        invariant 0 <= attempt <= MAX_CONFLICT_RETRIES
        invariant start <= api.log && AllWellFormed(api.log)
        invariant Did(api.log, |start|, me, Idle)
        invariant forall a: nat :: a < attempt ==> Disturbed(env, a, 2)
      {
        ghost var mid := api.log;
        var version, found := api.Get(env(2 * attempt));
        DidJoins(mid, api.log, |start|, me);
        if found.None? || found.value.status.None? {
          return Ok(false);
        }
        var next := Revoke(found.value.status.value, generation, revision);
        if next.Err? {
          return Err(next.error);
        }
        if next.value.None? {
          return Ok(false);
        }
        ghost var held := api.log;
        var others := env(2 * attempt + 1);
        var stored := api.Put(others, me, version, Resource(next.value));
        if stored {
          DidStep(held, api.log, |start|, me, Resource(next.value), Revoked(generation, revision));
          return Ok(true);
        }
        DidJoins(held, api.log, |start|, me);
        attempt := attempt + 1;
      }
      r := Err(Contended);
    }
  }

  // ---------------------------------------------------------------- all calls together

  /** One call on the object: the versions it found when it began and when it returned, and the
      register step it made, as the contracts above say. */
  datatype Call = Call(from: nat, to: nat, done: Event)

  /** A history of the object: every version was stored by some call of the store. Calls may
      overlap in any way; a writer is one call. */
  ghost predicate IsHistory(log: seq<Entry<Resource>>, calls: map<nat, Call>) {
    && (forall me :: me in calls ==>
          calls[me].from <= calls[me].to <= |log| && Did(log[..calls[me].to], calls[me].from, me, calls[me].done))
    && (forall i :: 0 <= i < |log| ==> log[i].writer in calls && Within(calls[log[i].writer], i))
  }

  predicate Within(c: Call, i: int) {
    c.from <= i < c.to
  }

  /** What the i-th version did: its call's step if it is the last one of that call, else nothing. */
  function EventOf(log: seq<Entry<Resource>>, calls: map<nat, Call>, i: nat): Event
    requires i < |log| && log[i].writer in calls
  {
    var c := calls[log[i].writer];
    if i == c.to - 1 then c.done else Idle
  }

  lemma VersionIsStep(log: seq<Entry<Resource>>, calls: map<nat, Call>, i: nat)
    requires IsHistory(log, calls) && i < |log|
    ensures log[i].writer in calls && Next(After(log, i), EventOf(log, calls, i), After(log, i + 1))
  {
    var me := log[i].writer;
    var c := calls[me];
    assert Within(c, i);
    var known := log[..c.to];
    assert known[i] == log[i] && After(known, i) == After(log, i) && After(known, i + 1) == After(log, i + 1);
  }

  /** A call's own step, at the version just before it returned. */
  lemma CallMadeStep(log: seq<Entry<Resource>>, calls: map<nat, Call>, me: nat)
    requires IsHistory(log, calls) && me in calls && !calls[me].done.Idle?
    ensures 0 < calls[me].to <= |log| && log[calls[me].to - 1].writer == me
    ensures EventOf(log, calls, calls[me].to - 1) == calls[me].done
  {
    var known := log[..calls[me].to];
    assert known[|known| - 1] == log[calls[me].to - 1];
  }

  ghost function States(log: seq<Entry<Resource>>): seq<Register> {
    seq(|log| + 1, i requires 0 <= i <= |log| => After(log, i))
  }

  ghost function Events(log: seq<Entry<Resource>>, calls: map<nat, Call>): seq<Event>
    requires IsHistory(log, calls)
  {
    seq(|log|, i requires 0 <= i < |log| => EventOf(log, calls, i))
  }

  /** Every history of interleaved calls is a run of the fenced register, whose events are just the
      steps that the calls made. */
  lemma HistoryRefinesRegister(log: seq<Entry<Resource>>, calls: map<nat, Call>)
    requires IsHistory(log, calls)
    ensures CapabilityRegister.IsRun(States(log), Events(log, calls))
  {
    var rs, es := States(log), Events(log, calls);
    forall i: nat | i < |es| ensures CapabilityRegister.StepAt(rs, es, i) {
      VersionIsStep(log, calls, i);
    }
  }

  /** Events and calls match: a call's step is the event of the version it returned with, and every
      event is some call's step. */
  ghost predicate Traced(es: seq<Event>, calls: map<nat, Call>) {
    && (forall me {:trigger MadeAt(es, calls[me])} :: me in calls && !calls[me].done.Idle? ==> MadeAt(es, calls[me]))
    && (forall i: nat {:trigger HasCall(es, calls, i)} :: i < |es| && !es[i].Idle? ==> HasCall(es, calls, i))
  }

  ghost predicate HasCall(es: seq<Event>, calls: map<nat, Call>, i: nat)
    requires i < |es|
  {
    exists me :: me in calls && calls[me].to == i + 1 && calls[me].done == es[i]
  }

  predicate MadeAt(es: seq<Event>, c: Call) {
    0 < c.to <= |es| && es[c.to - 1] == c.done
  }

  lemma HistoryTraced(log: seq<Entry<Resource>>, calls: map<nat, Call>)
    requires IsHistory(log, calls)
    ensures Traced(Events(log, calls), calls)
  {
    var es := Events(log, calls);
    forall me | me in calls && !calls[me].done.Idle? ensures MadeAt(es, calls[me]) {
      CallMadeStep(log, calls, me);
    }
    forall i: nat | i < |es| && !es[i].Idle? ensures HasCall(es, calls, i) {
      assert log[i].writer in calls && Within(calls[log[i].writer], i);
    }
  }

  lemma EventHasCall(es: seq<Event>, calls: map<nat, Call>, i: nat) returns (me: nat)
    requires Traced(es, calls) && i < |es| && !es[i].Idle?
    ensures me in calls && calls[me].to == i + 1 && calls[me].done == es[i]
  {
    assert HasCall(es, calls, i);
    me :| me in calls && calls[me].to == i + 1 && calls[me].done == es[i];
  }

  /** A step that neither begins a fence nor revokes the pair of `f`. */
  predicate Harmless(e: Event, f: Fence) {
    !e.Begun? && !(e.Revoked? && Pair(f, e.generation, e.revision))
  }

  /** The begin call of the fence that a put stored under, and only harmless calls in between. */
  ghost predicate LatestBegin(calls: map<nat, Call>, begin: nat, put: nat)
    requires put in calls && calls[put].done.Stored?
  {
    && begin in calls && calls[begin].done == Begun(calls[put].done.snapshot.fence) && calls[begin].to < calls[put].to
    && (forall c :: c in calls && calls[begin].to < calls[c].to < calls[put].to ==>
          Harmless(calls[c].done, calls[put].done.snapshot.fence))
  }

  lemma LatestBeginOf(rs: seq<Register>, es: seq<Event>, calls: map<nat, Call>, put: nat) returns (begin: nat)
    requires CapabilityRegister.IsRun(rs, es) && Traced(es, calls) && put in calls && calls[put].done.Stored?
    ensures LatestBegin(calls, begin, put)
  {
    var f := calls[put].done.snapshot.fence;
    assert MadeAt(es, calls[put]);
    var i := OnlyLatestUnrevokedStores(rs, es, calls[put].to - 1);
    begin := EventHasCall(es, calls, i);
    forall c | c in calls && calls[begin].to < calls[c].to < calls[put].to ensures Harmless(calls[c].done, f) {
      if !calls[c].done.Idle? {
        assert MadeAt(es, calls[c]);
      }
    }
  }

  /** Only the latest fence that was not revoked can store: a put that stored under a fence follows
      the begin call of that fence, and no begin and no revocation of its pair came in between. */
  lemma OnlyLatestUnrevokedPuts(log: seq<Entry<Resource>>, calls: map<nat, Call>, put: nat) returns (begin: nat)
    requires IsHistory(log, calls) && put in calls && calls[put].done.Stored?
    ensures LatestBegin(calls, begin, put)
  {
    HistoryRefinesRegister(log, calls);
    HistoryTraced(log, calls);
    begin := LatestBeginOf(States(log), Events(log, calls), calls, put);
  }

  /** Two puts that returned `Stored` under one fence, whether they wrote or found it written, had the
      same snapshot. `to` is the length of the log when the put returned. */
  lemma FenceCommitsOneSnapshot(log: seq<Entry<Resource>>, calls: map<nat, Call>, to: nat, later: nat, s: Snapshot,
                                t: Snapshot)
    requires IsHistory(log, calls) && to <= |log| && later <= |log| && s.fence == t.fence
    requires Holds(After(log, to), s) && Holds(After(log, later), t)
    ensures s == t
  {
    HistoryRefinesRegister(log, calls);
    if to <= later {
      OneSnapshotPerFence(States(log), Events(log, calls), to, later, s, t);
    } else {
      OneSnapshotPerFence(States(log), Events(log, calls), later, to, t, s);
    }
  }

  lemma TracedEpochsIncrease(rs: seq<Register>, es: seq<Event>, calls: map<nat, Call>, a: nat, b: nat)
    requires CapabilityRegister.IsRun(rs, es) && Traced(es, calls)
    requires a in calls && b in calls && calls[a].done.Begun? && calls[b].done.Begun? && calls[a].to < calls[b].to
    ensures calls[a].done.fence.epoch < calls[b].done.fence.epoch
  {
    assert MadeAt(es, calls[a]) && MadeAt(es, calls[b]);
    IssuedEpochsIncrease(rs, es, calls[a].to - 1, calls[b].to - 1);
  }

  /** Issued epochs are distinct and increase in the order in which the begin calls stored. */
  lemma BegunEpochsIncrease(log: seq<Entry<Resource>>, calls: map<nat, Call>, a: nat, b: nat)
    requires IsHistory(log, calls) && a in calls && b in calls && calls[a].done.Begun? && calls[b].done.Begun?
    requires calls[a].to < calls[b].to
    ensures calls[a].done.fence.epoch < calls[b].done.fence.epoch
  {
    HistoryRefinesRegister(log, calls);
    HistoryTraced(log, calls);
    TracedEpochsIncrease(States(log), Events(log, calls), calls, a, b);
  }

  lemma TracedPutBegunAfter(rs: seq<Register>, es: seq<Event>, calls: map<nat, Call>, returned: nat,
                            generation: nat, revision: Option<string>, put: nat) returns (begin: nat)
    requires CapabilityRegister.IsRun(rs, es) && Traced(es, calls) && returned < |rs|
    requires !ActivePair(rs[returned], generation, revision)
    requires put in calls && calls[put].done.Stored? && returned < calls[put].to
    requires Pair(calls[put].done.snapshot.fence, generation, revision)
    ensures begin in calls && calls[begin].done == Begun(calls[put].done.snapshot.fence)
    ensures returned < calls[begin].to < calls[put].to
  {
    assert MadeAt(es, calls[put]);
    var j := calls[put].to - 1;
    assert CapabilityRegister.StepAt(rs, es, j);
    var k := PairBegunAgain(rs, es, returned, j, generation, revision);
    begin := EventHasCall(es, calls, k);
  }

  /** Exact revocation. Once an invalidation of a pair has returned (the pair is then neither active nor
      committed), a put under a fence of that pair stores only if the fence was begun afterwards. */
  lemma RevokedFencesNeverPut(log: seq<Entry<Resource>>, calls: map<nat, Call>, returned: nat, generation: nat,
                              revision: Option<string>, put: nat)
    returns (begin: nat)
    requires IsHistory(log, calls) && returned <= |log| && !ActivePair(After(log, returned), generation, revision)
    requires put in calls && calls[put].done.Stored? && returned < calls[put].to
    requires Pair(calls[put].done.snapshot.fence, generation, revision)
    ensures begin in calls && calls[begin].done == Begun(calls[put].done.snapshot.fence)
    ensures returned < calls[begin].to < calls[put].to
  {
    HistoryRefinesRegister(log, calls);
    HistoryTraced(log, calls);
    begin := TracedPutBegunAfter(States(log), Events(log, calls), calls, returned, generation, revision, put);
  }

  /** And no snapshot of the pair is readable again before a put of that very snapshot has stored it. */
  lemma RevokedSnapshotsStayHidden(log: seq<Entry<Resource>>, calls: map<nat, Call>, returned: nat, generation: nat,
                                   revision: Option<string>, read: nat)
    returns (put: nat)
    requires IsHistory(log, calls) && returned <= read <= |log|
    requires !CommittedPair(After(log, returned), generation, revision)
    requires CommittedPair(After(log, read), generation, revision)
    ensures put in calls && calls[put].done == Stored(After(log, read).committed.value)
    ensures returned < calls[put].to <= read
  {
    HistoryRefinesRegister(log, calls);
    HistoryTraced(log, calls);
    var k := PairStoredAgain(States(log), Events(log, calls), returned, read, generation, revision);
    put := EventHasCall(Events(log, calls), calls, k);
  }

  /** The invalidation itself leaves authority and snapshot of every other pair as they were. */
  lemma RevocationIsExact(log: seq<Entry<Resource>>, calls: map<nat, Call>, me: nat)
    requires IsHistory(log, calls) && me in calls && calls[me].done.Revoked?
    ensures 0 < calls[me].to <= |log|
    ensures var c := calls[me]; var before, after := After(log, c.to - 1), After(log, c.to);
      && (!ActivePair(before, c.done.generation, c.done.revision) ==> after.active == before.active)
      && (!CommittedPair(before, c.done.generation, c.done.revision) ==> after.committed == before.committed)
      && !ActivePair(after, c.done.generation, c.done.revision)
      && !CommittedPair(after, c.done.generation, c.done.revision)
  {
    CallMadeStep(log, calls, me);
    VersionIsStep(log, calls, calls[me].to - 1);
  }
}
