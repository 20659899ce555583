/** Every interleaving of acquire, renew, release and owner lookup by any number of replicas on one
    Lease object, with real time. Each clock sample, read, expiry judgement and compare-and-swap is
    its own step. A replica's monotonic clock is real time less a constant, which cancels in every
    difference the code takes, so clock readings are real times here.
    (crates/center-adapter-kubernetes/src/lease.rs, owner_locator.rs) */
module LeaseMachine {
  import opened Basics
  import opened Leases

  datatype Replica = Replica(holder: string, seconds: nat)

  /** A stored version and the moment it was stored. */
  datatype Stored = Stored(lease: Lease, at: nat)

  /** Calls in flight. A snapshot is remembered by its version. */
  datatype Call =
    | Sampled(who: Replica, role: string, token: string, at: nat)
    | Fetched(who: Replica, role: string, token: string, at: nat, version: nat)
    | Cleared(who: Replica, role: string, token: string, at: nat, version: nat)
    | Owning(who: Replica, claim: Leadership, releasing: bool, version: nat)
    | Looking(who: Replica, version: nat)
    | Timed(who: Replica, version: nat, at: nat)

  datatype State = State(
    now: nat,
    log: seq<Stored>,
    fences: seq<Leadership>,       // leaderships whose acquire was stored, in that order
    seen: map<string, Sighting>,   // each coordinator's `observations`
    located: map<string, Sighting>,// each owner locator's `observations`
    calls: map<nat, Call>)

  datatype Event =
    | Tick(ticks: nat)
    | Sample(id: nat, who: Replica, role: string, token: string)  // acquire: clock and fresh token
    | Fetch(id: nat)                                              // acquire: the read is served
    | Judge(id: nat)                                              // acquire: role, expiry and epoch checks
    | Acquire(id: nat)                                            // acquire: the swap succeeds
    | Check(id: nat, who: Replica, claim: Leadership, releasing: bool) // renew, release: read shows ownership
    | Keep(id: nat)                                               // renew, release: the swap succeeds
    | Look(id: nat, who: Replica)                                 // locate: the read is served
    | Time(id: nat)                                               // locate: the clock is sampled
    | Route(id: nat)                                              // locate: expiry is judged
    | Drop(id: nat)                                               // refused swap, crash or lost answer
    | Restart(holder: string)                                     // a replica loses what it remembered

  const Init := State(0, [], [], map[], map[], map[])

  function At(s: State, version: nat): Option<Lease>
    requires version <= |s.log|
  {
    if version == 0 then None else Some(s.log[version - 1].lease)
  }

  function Current(s: State): Option<Lease> {
    At(s, |s.log|)
  }

  function SightingOf(seen: map<string, Sighting>, holder: string): Option<Sighting> {
    if holder in seen then Some(seen[holder]) else None
  }

  predicate Enabled(s: State, e: Event) {
    match e
    case Tick(_) => true
    case Sample(id, who, _, _) => id !in s.calls && who.holder != "" && 3 <= who.seconds <= I32_MAX
    case Fetch(id) => id in s.calls && s.calls[id].Sampled?
    case Judge(id) => id in s.calls && s.calls[id].Fetched? && s.calls[id].version <= |s.log|
    case Acquire(id) => id in s.calls && s.calls[id].Cleared? && s.calls[id].version == |s.log|
    case Check(id, who, claim, _) =>
      && id !in s.calls && 3 <= who.seconds <= I32_MAX && claim.holder == who.holder
      && |s.log| > 0 && Current(s).value.role == claim.role && Owns(Current(s).value, claim)
    case Keep(id) => id in s.calls && s.calls[id].Owning? && |s.log| > 0 && s.calls[id].version == |s.log|
    case Look(id, _) => id !in s.calls && |s.log| > 0
    case Time(id) => id in s.calls && s.calls[id].Looking?
    case Route(id) => id in s.calls && s.calls[id].Timed? && 1 <= s.calls[id].version <= |s.log|
    case Drop(id) => id in s.calls
    case Restart(_) => true
  }

  function Put(s: State, id: nat, c: Call): State {
    s.(calls := s.calls[id := c])
  }

  function End(s: State, id: nat): State {
    s.(calls := s.calls - {id})
  }

  /** The sighting that judges a fetched version. */
  function First(s: State, c: Call): Sighting
    requires c.Fetched?
  {
    Observe(SightingOf(s.seen, c.who.holder), c.version, c.at)
  }

  function JudgeStep(s: State, id: nat): State
    requires Enabled(s, Judge(id))
  {
    var c := s.calls[id];
    var cleared := Cleared(c.who, c.role, c.token, c.at, c.version);
    if c.version == 0 then Put(s, id, cleared) else
    var lease := At(s, c.version).value;
    if lease.role != c.role then End(s, id) else
    var noted := if Watchable(lease) then s.(seen := s.seen[c.who.holder := First(s, c)]) else s;
    if Watchable(lease) && Unexpired(lease, First(s, c), c.at) && HeldByOther(lease, c.who.holder) then End(noted, id)
    else if lease.epoch >= U64_MAX then End(noted, id)
    else Put(noted, id, cleared)
  }

  function AcquireStep(s: State, id: nat): State
    requires Enabled(s, Acquire(id))
  {
    var c := s.calls[id];
    var lease := Acquired(Current(s), c.role, c.who.holder, c.token, c.who.seconds);
    End(s.(log := s.log + [Stored(lease, s.now)],
           fences := s.fences + [Leadership(c.role, c.who.holder, c.token, lease.epoch)]), id)
  }

  function KeepStep(s: State, id: nat): State
    requires Enabled(s, Keep(id))
  {
    var c := s.calls[id];
    var was := Current(s).value;
    var lease := if c.releasing then Released(was) else Renewed(was, c.who.seconds);
    End(s.(log := s.log + [Stored(lease, s.now)]), id)
  }

  function RouteFirst(s: State, c: Call): Sighting
    requires c.Timed?
  {
    Observe(SightingOf(s.located, c.who.holder), c.version, c.at)
  }

  /** `active_owner`: the locator reports no owner for a Lease it still sees a holder in. */
  predicate JudgedExpired(s: State, id: nat)
    requires Enabled(s, Route(id))
  {
    var c := s.calls[id];
    var lease := s.log[c.version - 1].lease;
    Watchable(lease) && SatSub(c.at, RouteFirst(s, c).at) >= lease.seconds * TICKS_PER_SECOND
  }

  function RouteStep(s: State, id: nat): State
    requires Enabled(s, Route(id))
  {
    var c := s.calls[id];
    End(if Watchable(s.log[c.version - 1].lease)
        then s.(located := s.located[c.who.holder := RouteFirst(s, c)]) else s, id)
  }

  function Apply(s: State, e: Event): State
    requires Enabled(s, e)
  {
    match e
    case Tick(ticks) => s.(now := s.now + ticks)
    case Sample(id, who, role, token) => Put(s, id, Sampled(who, role, token, s.now))
    case Fetch(id) =>
      var c := s.calls[id];
      Put(s, id, Fetched(c.who, c.role, c.token, c.at, |s.log|))
    case Judge(id) => JudgeStep(s, id)
    case Acquire(id) => AcquireStep(s, id)
    case Check(id, who, claim, releasing) => Put(s, id, Owning(who, claim, releasing, |s.log|))
    case Keep(id) => KeepStep(s, id)
    case Look(id, who) => Put(s, id, Looking(who, |s.log|))
    case Time(id) => Put(s, id, Timed(s.calls[id].who, s.calls[id].version, s.now))
    case Route(id) => RouteStep(s, id)
    case Drop(id) => End(s, id)
    case Restart(holder) => s.(seen := s.seen - {holder}, located := s.located - {holder})
  }

  /** A judged call goes on under exactly the condition under which `LeaseCoordinator.Assess` lets one. */
  lemma JudgesAsAcquireDoes(s: State, id: nat)
    requires Enabled(s, Judge(id))
    ensures var c, t := s.calls[id], JudgeStep(s, id);
      && (id in t.calls ==> t.calls[id] == Cleared(c.who, c.role, c.token, c.at, c.version))
      && (id in t.calls <==>
            && Fits(At(s, c.version), c.role)
            && MayReplace(At(s, c.version), c.version, t.seen, c.who.holder, c.who.holder, c.at))
  {
  }

  // ---------------------------------------------------------------- runs

  predicate StepAt(ss: seq<State>, es: seq<Event>, i: nat)
    requires |ss| == |es| + 1 && i < |es|
  {
    Enabled(ss[i], es[i]) && ss[i + 1] == Apply(ss[i], es[i])
  }

  ghost predicate IsRun(ss: seq<State>, es: seq<Event>) {
    |ss| == |es| + 1 && ss[0] == Init && forall i: nat :: i < |es| ==> StepAt(ss, es, i)
  }

  // ---------------------------------------------------------------- fencing

  /** The fences are numbered 1, 2, 3, ... and all carry the role of the Lease. */
  ghost predicate Numbered(s: State) {
    forall i :: 0 <= i < |s.fences| ==>
      && s.fences[i].epoch == i + 1
      && |s.log| > 0 && s.fences[i].role == s.log[0].lease.role
  }

  /** The current version carries the last fence, or its epoch alone once released. */
  ghost predicate CurrentFenced(s: State) {
    if |s.log| == 0 then s.fences == [] else
    && |s.fences| > 0
    && var l, f := Current(s).value, s.fences[|s.fences| - 1];
    && l.role == s.log[0].lease.role
    && l.epoch == |s.fences|
    && ((l.holder == Some(f.holder) && l.token == Some(f.token)) || (l.holder.None? && l.token.None?))
  }

  ghost predicate CallOk(s: State, c: Call) {
    match c
    case Sampled(who, _, _, at) => who.holder != "" && at <= s.now
    case Fetched(who, _, _, at, version) => who.holder != "" && at <= s.now && version <= |s.log|
    case Cleared(who, role, _, at, version) =>
      && who.holder != "" && at <= s.now && version <= |s.log|
      && (version > 0 ==> s.log[version - 1].lease.role == role)
    case Owning(who, claim, _, version) =>
      && 1 <= version <= |s.log| && claim.holder == who.holder
      && s.log[version - 1].lease.role == claim.role && Owns(s.log[version - 1].lease, claim)
    case Looking(_, version) => 1 <= version <= |s.log|
    case Timed(_, version, at) => 1 <= version <= |s.log| && at <= s.now
  }

  ghost predicate Inv(s: State) {
    && Numbered(s)
    && CurrentFenced(s)
    && (forall v :: 0 <= v < |s.log| ==> s.log[v].at <= s.now)
    && (forall id :: id in s.calls ==> CallOk(s, s.calls[id]))
  }

  ghost predicate Extends(s: State, t: State) {
    s.now <= t.now && s.log <= t.log && s.fences <= t.fences
  }

  lemma StepExtends(s: State, e: Event)
    requires Enabled(s, e)
    ensures Extends(s, Apply(s, e))
  {
  }

  lemma CallsStayOk(s: State, t: State)
    requires Extends(s, t) && (forall id :: id in s.calls ==> CallOk(s, s.calls[id]))
    ensures forall id :: id in s.calls ==> CallOk(t, s.calls[id])
  {
  }

  /** An event that stores nothing and replaces at most its own call. */
  lemma QuietKeepsInv(s: State, t: State, id: nat)
    requires Inv(s) && t.log == s.log && t.fences == s.fences && s.now <= t.now
    requires forall other :: other in t.calls && other != id ==> other in s.calls && t.calls[other] == s.calls[other]
    requires id in t.calls ==> CallOk(t, t.calls[id])
    ensures Inv(t)
  {
    CallsStayOk(s, t);
  }

  lemma AcquireKeepsInv(s: State, id: nat)
    requires Inv(s) && Enabled(s, Acquire(id))
    ensures Inv(AcquireStep(s, id))
  {
    CallsStayOk(s, AcquireStep(s, id));
    assert CallOk(s, s.calls[id]);
  }

  lemma KeepKeepsInv(s: State, id: nat)
    requires Inv(s) && Enabled(s, Keep(id))
    ensures Inv(KeepStep(s, id))
  {
    CallsStayOk(s, KeepStep(s, id));
    assert CallOk(s, s.calls[id]);
  }

  lemma JudgeKeepsInv(s: State, id: nat)
    requires Inv(s) && Enabled(s, Judge(id))
    ensures Inv(JudgeStep(s, id))
  {
    assert CallOk(s, s.calls[id]);
    QuietKeepsInv(s, JudgeStep(s, id), id);
  }

  lemma StepKeepsInv(s: State, e: Event)
    requires Inv(s) && Enabled(s, e)
    ensures Inv(Apply(s, e))
  {
    if e.Judge? {
      JudgeKeepsInv(s, e.id);
    } else if e.Acquire? {
      AcquireKeepsInv(s, e.id);
    } else if e.Keep? {
      KeepKeepsInv(s, e.id);
    } else if e.Tick? || e.Restart? {
      CallsStayOk(s, Apply(s, e));
    } else {
      assert e.id in s.calls ==> CallOk(s, s.calls[e.id]);
      QuietKeepsInv(s, Apply(s, e), e.id);
    }
  }

  lemma AppendStep(ss: seq<State>, es: seq<Event>, e: Event)
    requires IsRun(ss, es) && Enabled(ss[|es|], e)
    ensures IsRun(ss + [Apply(ss[|es|], e)], es + [e])
  {
    var ts, ds := ss + [Apply(ss[|es|], e)], es + [e];
    forall i: nat | i < |ds| ensures StepAt(ts, ds, i) {
      if i < |es| {
        assert StepAt(ss, es, i);
      }
    }
  }

  lemma {:induction false} InvAt(ss: seq<State>, es: seq<Event>, i: nat)
    requires IsRun(ss, es) && i < |ss|
    ensures Inv(ss[i])
  {
    if i > 0 {
      InvAt(ss, es, i - 1);
      assert StepAt(ss, es, i - 1);
      StepKeepsInv(ss[i - 1], es[i - 1]);
    }
  }

  lemma {:induction false} ExtendsBetween(ss: seq<State>, es: seq<Event>, i: nat, j: nat)
    requires IsRun(ss, es) && i <= j < |ss|
    ensures Extends(ss[i], ss[j])
    decreases j
  {
    if i < j {
      ExtendsBetween(ss, es, i, j - 1);
      assert StepAt(ss, es, j - 1);
      StepExtends(ss[j - 1], es[j - 1]);
    }
  }

  /** Over every run, across renewals and releases: the n-th stored acquire carries epoch n, all
      under one role, and a stored fence stays in the history for ever. */
  lemma EpochsNeverReused(ss: seq<State>, es: seq<Event>, i: nat, j: nat, a: nat, b: nat)
    requires IsRun(ss, es) && i <= j < |ss|
    requires a < |ss[i].fences| && b < |ss[j].fences|
    ensures a < |ss[j].fences| && ss[j].fences[a] == ss[i].fences[a] && ss[i].fences[a].epoch == a + 1
    ensures a != b ==> ss[i].fences[a].epoch != ss[j].fences[b].epoch
    ensures ss[i].fences[a].role == ss[j].fences[b].role
  {
    InvAt(ss, es, i);
    InvAt(ss, es, j);
    ExtendsBetween(ss, es, i, j);
  }

  /** An acquire is the only step that issues a fence, and it issues exactly the next epoch. */
  lemma AcquireIssuesNextEpoch(ss: seq<State>, es: seq<Event>, i: nat)
    requires IsRun(ss, es) && i < |es|
    ensures es[i].Acquire? ==>
      && |ss[i + 1].fences| == |ss[i].fences| + 1
      && ss[i + 1].fences[|ss[i].fences|].epoch == |ss[i].fences| + 1
      && |ss[i + 1].log| > 0 && Owns(Current(ss[i + 1]).value, ss[i + 1].fences[|ss[i].fences|])
    ensures !es[i].Acquire? ==> ss[i + 1].fences == ss[i].fences
  {
    assert StepAt(ss, es, i);
    InvAt(ss, es, i);
  }

  /** The leadership on whose behalf a renew or release swap succeeds is the newest one. */
  lemma KeepIsNewest(ss: seq<State>, es: seq<Event>, j: nat)
    requires IsRun(ss, es) && j < |es| && es[j].Keep?
    ensures es[j].id in ss[j].calls && ss[j].calls[es[j].id].Owning?
    ensures |ss[j].fences| > 0 && ss[j].fences[|ss[j].fences| - 1] == ss[j].calls[es[j].id].claim
  {
    assert StepAt(ss, es, j);
    InvAt(ss, es, j);
    assert CallOk(ss[j], ss[j].calls[es[j].id]);
  }

  /** Once a later acquire is stored, no renew or release of an earlier leadership ever stores a
      version again. */
  lemma SupersededNeverWrites(ss: seq<State>, es: seq<Event>, i: nat, j: nat)
    requires IsRun(ss, es) && i < j < |es| && es[i].Acquire? && es[j].Keep?
    ensures es[j].id in ss[j].calls && ss[j].calls[es[j].id].Owning?
    ensures ss[j].calls[es[j].id].claim.epoch >= |ss[i + 1].fences| == |ss[i].fences| + 1
  {
    KeepIsNewest(ss, es, j);
    AcquireIssuesNextEpoch(ss, es, i);
    InvAt(ss, es, j);
    ExtendsBetween(ss, es, i + 1, j);
  }

  /** A released leadership stays released: afterwards only newer leaderships store anything. */
  lemma {:induction false} ReleasedNeverWrites(ss: seq<State>, es: seq<Event>, i: nat, j: nat)
    requires IsRun(ss, es) && i < j < |ss| && es[i].Keep?
    requires es[i].id in ss[i].calls && ss[i].calls[es[i].id].Owning? && ss[i].calls[es[i].id].releasing
    ensures |ss[j].fences| > |ss[i].fences| || IsReleased(ss[j])
    ensures j < |es| && es[j].Keep? ==>
      && es[j].id in ss[j].calls && ss[j].calls[es[j].id].Owning?
      && ss[j].calls[es[j].id].claim.epoch > |ss[i].fences|
    decreases j
  {
    assert StepAt(ss, es, j - 1);
    if j > i + 1 {
      ReleasedNeverWrites(ss, es, i, j - 1);
      ExtendsBetween(ss, es, i, j - 1);
      InvAt(ss, es, j - 1);
      ReleasedUntilAcquired(ss[j - 1], es[j - 1]);
    }
    if j < |es| && es[j].Keep? {
      KeepIsNewest(ss, es, j);
      InvAt(ss, es, j);
      assert StepAt(ss, es, j);
      OwnedNotReleased(ss[j], es[j].id);
    }
  }

  ghost predicate IsReleased(s: State) {
    |s.log| > 0 && Current(s).value.token.None?
  }

  lemma OwnedNotReleased(s: State, id: nat)
    requires Inv(s) && Enabled(s, Keep(id))
    ensures !IsReleased(s)
  {
    assert CallOk(s, s.calls[id]);
  }

  lemma ReleasedUntilAcquired(s: State, e: Event)
    requires Inv(s) && Enabled(s, e)
    ensures |Apply(s, e).fences| >= |s.fences|
    ensures IsReleased(s) ==> IsReleased(Apply(s, e)) || |Apply(s, e).fences| > |s.fences|
  {
    if e.Keep? {
      OwnedNotReleased(s, e.id);
    }
  }

  /** What each kind of write leaves behind: an acquire names its replica, under that replica's duration; a
      renewal sets the duration and touches nothing else; a release clears holder and token only. */
  lemma StoredVersions(ss: seq<State>, es: seq<Event>, i: nat)
    requires IsRun(ss, es) && i < |es|
    ensures es[i].Acquire? ==>
      && es[i].id in ss[i].calls && ss[i].calls[es[i].id].Cleared? && |ss[i + 1].log| == |ss[i].log| + 1
      && var c, l := ss[i].calls[es[i].id], Current(ss[i + 1]).value;
      && l.role == c.role && l.holder == Some(c.who.holder) && l.token == Some(c.token) && l.seconds == c.who.seconds
    ensures es[i].Keep? ==>
      && es[i].id in ss[i].calls && ss[i].calls[es[i].id].Owning? && |ss[i + 1].log| == |ss[i].log| + 1 > 1
      && var c, was, l := ss[i].calls[es[i].id], Current(ss[i]).value, Current(ss[i + 1]).value;
      && l.role == was.role && l.epoch == was.epoch && l.transitions == was.transitions
      && (c.releasing ==> l.holder.None? && l.token.None? && l.seconds == was.seconds)
      && (!c.releasing ==> l.holder == was.holder && l.token == was.token && l.seconds == c.who.seconds)
    ensures !es[i].Acquire? && !es[i].Keep? ==> ss[i + 1].log == ss[i].log
  {
    assert StepAt(ss, es, i);
    InvAt(ss, es, i);
  }

  // ---------------------------------------------------------------- durations

  /** Replicas have a name and a duration of at least three seconds, and so have the versions they store,
      whose epochs fit 64 bits. */
  predicate SturdyReplica(who: Replica) {
    who.holder != "" && 3 <= who.seconds <= I32_MAX
  }

  ghost predicate SturdyCall(c: Call) {
    match c
    case Sampled(who, _, _, _) => SturdyReplica(who)
    case Fetched(who, _, _, _, _) => SturdyReplica(who)
    case Cleared(who, _, _, _, _) => SturdyReplica(who)
    case Owning(who, _, _, _) => 3 <= who.seconds <= I32_MAX
    case _ => true
  }

  ghost predicate Sturdy(s: State) {
    && (forall id :: id in s.calls ==> SturdyCall(s.calls[id]))
    && (forall v :: 0 <= v < |s.log| ==> SturdyLease(s.log[v].lease))
    && (forall id :: id in s.calls && s.calls[id].Cleared? ==> RoomAbove(s, s.calls[id].version))
  }

  predicate SturdyLease(lease: Lease) {
    3 <= lease.seconds <= I32_MAX && lease.holder != Some("") && lease.epoch <= U64_MAX
  }

  /** The epoch of that version can still be raised. */
  predicate RoomAbove(s: State, version: nat) {
    version <= |s.log| && (version > 0 ==> s.log[version - 1].lease.epoch < U64_MAX)
  }

  lemma QuietKeepsSturdy(s: State, t: State, id: nat)
    requires Sturdy(s) && t.log == s.log
    requires forall other :: other in t.calls && other != id ==> other in s.calls && t.calls[other] == s.calls[other]
    requires id in t.calls ==> SturdyCall(t.calls[id]) && (t.calls[id].Cleared? ==> RoomAbove(t, t.calls[id].version))
    ensures Sturdy(t)
  {
    forall other | other in t.calls && other != id && t.calls[other].Cleared?
      ensures RoomAbove(t, t.calls[other].version)
    {
      assert RoomAbove(s, s.calls[other].version);
    }
  }

  lemma StoreKeepsSturdy(s: State, t: State, stored: Stored)
    requires Sturdy(s) && t.log == s.log + [stored] && SturdyLease(stored.lease)
    requires forall id :: id in t.calls ==> id in s.calls && t.calls[id] == s.calls[id]
    ensures Sturdy(t)
  {
    forall id | id in t.calls && t.calls[id].Cleared? ensures RoomAbove(t, t.calls[id].version) {
      assert RoomAbove(s, s.calls[id].version);
    }
  }

  lemma StepKeepsSturdy(s: State, e: Event)
    requires Sturdy(s) && Enabled(s, e)
    ensures Sturdy(Apply(s, e))
  {
    if e.Acquire? || e.Keep? {
      assert SturdyCall(s.calls[e.id]);
      if |s.log| > 0 {
        assert SturdyLease(s.log[|s.log| - 1].lease);
      }
      if e.Acquire? {
        assert RoomAbove(s, s.calls[e.id].version);
      }
      StoreKeepsSturdy(s, Apply(s, e), Apply(s, e).log[|s.log|]);
    } else if e.Judge? {
      JudgeKeepsSturdy(s, e.id);
    } else if e.Tick? || e.Restart? {
      assert 0 in s.calls ==> SturdyCall(s.calls[0]);
      QuietKeepsSturdy(s, Apply(s, e), 0);
    } else {
      assert e.id in s.calls ==> SturdyCall(s.calls[e.id]);
      QuietKeepsSturdy(s, Apply(s, e), e.id);
    }
  }

  lemma JudgeKeepsSturdy(s: State, id: nat)
    requires Sturdy(s) && Enabled(s, Judge(id))
    ensures Sturdy(JudgeStep(s, id))
  {
    assert SturdyCall(s.calls[id]);
    QuietKeepsSturdy(s, JudgeStep(s, id), id);
  }

  // The transition count of the Lease.

  /** How often, up to version n, the Lease passed from one holder straight to another. */
  ghost function Moves(log: seq<Stored>, n: nat): nat
    requires n < |log|
  {
    if n == 0 then 0
    else
      var was, now := log[n - 1].lease.holder, log[n].lease.holder;
      Moves(log, n - 1) + if was.Some? && now.Some? && was != now then 1 else 0
  }

  ghost predicate Counted(log: seq<Stored>) {
    forall n: nat :: n < |log| ==> CountedAt(log, n)
  }

  ghost predicate CountedAt(log: seq<Stored>, n: nat)
    requires n < |log|
  {
    log[n].lease.transitions == if Moves(log, n) <= I32_MAX then Moves(log, n) else I32_MAX
  }

  lemma {:induction false} MovesOfPrefix(log: seq<Stored>, longer: seq<Stored>, n: nat)
    requires log <= longer && n < |log|
    ensures Moves(longer, n) == Moves(log, n)
  {
    if n > 0 {
      MovesOfPrefix(log, longer, n - 1);
    }
  }

  lemma CountOneMore(log: seq<Stored>, s: Stored)
    requires Counted(log)
    requires |log| == 0 ==> s.lease.transitions == 0
    requires |log| > 0 ==>
      var was := log[|log| - 1].lease;
      var moved := was.holder.Some? && s.lease.holder.Some? && was.holder != s.lease.holder;
      s.lease.transitions == if moved && was.transitions < I32_MAX then was.transitions + 1 else was.transitions
    ensures Counted(log + [s])
  {
    var longer := log + [s];
    forall n: nat | n < |longer| ensures CountedAt(longer, n) {
      if n < |log| {
        MovesOfPrefix(log, longer, n);
        assert CountedAt(log, n);
      } else if n > 0 {
        MovesOfPrefix(log, longer, n - 1);
        assert CountedAt(log, n - 1);
      }
    }
  }

  /** In every run the transition count of each version is the number of direct changes of holder, saturated. */
  lemma {:induction false} TransitionsCountMoves(ss: seq<State>, es: seq<Event>, i: nat)
    requires IsRun(ss, es) && i < |ss|
    ensures Counted(ss[i].log)
  {
    if i > 0 {
      TransitionsCountMoves(ss, es, i - 1);
      assert StepAt(ss, es, i - 1);
      var s, e := ss[i - 1], es[i - 1];
      if e.Acquire? || e.Keep? {
        CountOneMore(s.log, ss[i].log[|s.log|]);
      }
    }
  }

  /** The locators' sightings lie in the past, in every run. */
  lemma {:induction false} LocatedInThePast(ss: seq<State>, es: seq<Event>, i: nat)
    requires IsRun(ss, es) && i < |ss|
    ensures forall h :: h in ss[i].located ==> ss[i].located[h].at <= ss[i].now
  {
    if i > 0 {
      LocatedInThePast(ss, es, i - 1);
      InvAt(ss, es, i - 1);
      assert StepAt(ss, es, i - 1);
      if es[i - 1].Route? {
        assert CallOk(ss[i - 1], ss[i - 1].calls[es[i - 1].id]);
      }
    }
  }

  /** So a held Lease is watchable, in every run. */
  lemma {:induction false} SturdyAt(ss: seq<State>, es: seq<Event>, i: nat)
    requires IsRun(ss, es) && i < |ss|
    ensures Sturdy(ss[i])
    ensures |ss[i].log| > 0 && Current(ss[i]).value.holder.Some? ==> Watchable(Current(ss[i]).value)
  {
    if i > 0 {
      SturdyAt(ss, es, i - 1);
      assert StepAt(ss, es, i - 1);
      StepKeepsSturdy(ss[i - 1], es[i - 1]);
    }
    if |ss[i].log| > 0 {
      assert SturdyLease(ss[i].log[|ss[i].log| - 1].lease);
    }
  }

  // ---------------------------------------------------------------- time

  /** Every acquire of `holder` had its read served within `delay` of sampling its clock. */
  ghost predicate Prompt(ss: seq<State>, es: seq<Event>, holder: string, delay: nat)
    requires IsRun(ss, es)
  {
    forall i: nat :: i < |es| && es[i].Fetch? ==> PromptRead(ss[i], es[i].id, holder, delay)
  }

  predicate PromptRead(s: State, id: nat, holder: string, delay: nat) {
    id in s.calls && s.calls[id].Sampled? && (s.calls[id].who.holder == holder ==> s.now <= s.calls[id].at + delay)
  }

  /** Version `v` was stored at most `delay` after `t`. */
  predicate StoredBy(s: State, v: nat, t: nat, delay: nat) {
    1 <= v <= |s.log| && s.log[v - 1].at <= t + delay
  }

  /** What promptness of `holder` secures for its own calls; the locator samples after its read. */
  ghost predicate CallTimely(s: State, c: Call, holder: string, delay: nat) {
    match c
    case Fetched(who, _, _, at, version) => who.holder == holder && version > 0 ==> StoredBy(s, version, at, delay)
    case Cleared(who, _, _, at, version) =>
      who.holder == holder && version > 0 ==>
        && version <= |s.log|
        && var l := s.log[version - 1].lease;
        (Watchable(l) && HeldByOther(l, who.holder) ==>
          s.log[version - 1].at + l.seconds * TICKS_PER_SECOND <= at + delay)
    case Timed(_, version, at) => StoredBy(s, version, at, 0)
    case _ => true
  }

  ghost predicate Timely(s: State, holder: string, delay: nat) {
    && (forall id :: id in s.calls ==> CallTimely(s, s.calls[id], holder, delay))
    && (holder in s.seen ==> StoredBy(s, s.seen[holder].version, s.seen[holder].at, delay))
    && (forall h :: h in s.located ==> StoredBy(s, s.located[h].version, s.located[h].at, 0))
  }

  lemma TimelyExtends(s: State, t: State, holder: string, delay: nat)
    requires Timely(s, holder, delay) && Extends(s, t)
    ensures forall id :: id in s.calls ==> CallTimely(t, s.calls[id], holder, delay)
    ensures holder in s.seen ==> StoredBy(t, s.seen[holder].version, s.seen[holder].at, delay)
    ensures forall h :: h in s.located ==> StoredBy(t, s.located[h].version, s.located[h].at, 0)
  {
  }

  /** An event that leaves the sightings alone and replaces at most its own call. */
  lemma PlainKeepsTimely(s: State, t: State, id: nat, holder: string, delay: nat)
    requires Timely(s, holder, delay) && Extends(s, t) && t.seen == s.seen && t.located == s.located
    requires forall other :: other in t.calls && other != id ==> other in s.calls && t.calls[other] == s.calls[other]
    requires id in t.calls ==> CallTimely(t, t.calls[id], holder, delay)
    ensures Timely(t, holder, delay)
  {
    TimelyExtends(s, t, holder, delay);
  }

  /** Judging notes the sighting of a watchable Lease; the call ends or goes on. */
  ghost function Noted(s: State, c: Call): State
    requires c.Fetched? && c.version <= |s.log|
  {
    if c.version > 0 && At(s, c.version).value.role == c.role && Watchable(At(s, c.version).value)
    then s.(seen := s.seen[c.who.holder := First(s, c)]) else s
  }

  /** The fetched version is another replica's and has not been seen for its whole duration. */
  predicate StillHeld(s: State, c: Call)
    requires c.Fetched? && 0 < c.version <= |s.log|
  {
    var l := At(s, c.version).value;
    Watchable(l) && Unexpired(l, First(s, c), c.at) && HeldByOther(l, c.who.holder)
  }

  lemma JudgeNotes(s: State, id: nat)
    requires Enabled(s, Judge(id))
    ensures var c, t := s.calls[id], JudgeStep(s, id);
      && t == Noted(s, c).(calls := t.calls)
      && (t.calls == s.calls - {id} || t.calls == s.calls[id := Cleared(c.who, c.role, c.token, c.at, c.version)])
      && (id in t.calls && c.version > 0 ==>
            !StillHeld(s, c))
  {
  }

  lemma JudgeKeepsTimely(s: State, id: nat, holder: string, delay: nat)
    requires Timely(s, holder, delay) && Enabled(s, Judge(id))
    ensures Timely(JudgeStep(s, id), holder, delay)
  {
    var c := s.calls[id];
    assert CallTimely(s, c, holder, delay);
    JudgeNotes(s, id);
    if c.version > 0 && c.who.holder == holder {
      FirstStored(s, c, holder, delay);
      if id in JudgeStep(s, id).calls {
        ClearedTimely(s, c, holder, delay);
      }
    }
    if Noted(s, c) != s {
      NotedTimely(s, Noted(s, c), c.who.holder, holder, delay);
    }
    EndsTimely(Noted(s, c), JudgeStep(s, id), id, holder, delay);
  }

  lemma EndsTimely(s: State, t: State, id: nat, holder: string, delay: nat)
    requires Timely(s, holder, delay) && t == s.(calls := t.calls)
    requires
      || t.calls == s.calls - {id}
      || (id in t.calls && t.calls == s.calls[id := t.calls[id]] && CallTimely(s, t.calls[id], holder, delay))
    ensures Timely(t, holder, delay)
  {
    PlainKeepsTimely(s, t, id, holder, delay);
  }

  lemma NotedTimely(s: State, t: State, who: string, holder: string, delay: nat)
    requires Timely(s, holder, delay) && t == s.(seen := t.seen) && who in t.seen
    requires t.seen == s.seen[who := t.seen[who]]
    requires who == holder ==> StoredBy(s, t.seen[who].version, t.seen[who].at, delay)
    ensures Timely(t, holder, delay)
  {
    TimelyExtends(s, t, holder, delay);
  }

  lemma FirstStored(s: State, c: Call, holder: string, delay: nat)
    requires Timely(s, holder, delay) && c.Fetched? && c.who.holder == holder && 0 < c.version <= |s.log|
    requires CallTimely(s, c, holder, delay)
    ensures First(s, c).version == c.version && StoredBy(s, c.version, First(s, c).at, delay)
  {
  }

  lemma ClearedTimely(s: State, c: Call, holder: string, delay: nat)
    requires c.Fetched? && 0 < c.version <= |s.log| && StoredBy(s, c.version, First(s, c).at, delay)
    requires CallTimely(s, c, holder, delay)
    requires !StillHeld(s, c)
    ensures CallTimely(s, Cleared(c.who, c.role, c.token, c.at, c.version), holder, delay)
  {
  }

  lemma RouteKeepsTimely(s: State, id: nat, holder: string, delay: nat)
    requires Timely(s, holder, delay) && Enabled(s, Route(id))
    ensures Timely(RouteStep(s, id), holder, delay)
  {
    var c := s.calls[id];
    assert CallTimely(s, c, holder, delay);
    assert StoredBy(s, c.version, RouteFirst(s, c).at, 0) && RouteFirst(s, c).version == c.version;
    TimelyExtends(s, RouteStep(s, id), holder, delay);
  }

  lemma StepKeepsTimely(s: State, e: Event, holder: string, delay: nat)
    requires Inv(s) && Timely(s, holder, delay) && Enabled(s, e)
    requires e.Fetch? ==> PromptRead(s, e.id, holder, delay)
    ensures Timely(Apply(s, e), holder, delay)
  {
    StepExtends(s, e);
    if e.Judge? {
      JudgeKeepsTimely(s, e.id, holder, delay);
    } else if e.Route? {
      RouteKeepsTimely(s, e.id, holder, delay);
    } else if e.Tick? || e.Restart? {
      TimelyExtends(s, Apply(s, e), holder, delay);
    } else {
      assert e.id in s.calls ==> CallOk(s, s.calls[e.id]);
      PlainKeepsTimely(s, Apply(s, e), e.id, holder, delay);
    }
  }

  lemma {:induction false} TimelyAt(ss: seq<State>, es: seq<Event>, holder: string, delay: nat, i: nat)
    requires IsRun(ss, es) && Prompt(ss, es, holder, delay) && i < |ss|
    ensures Timely(ss[i], holder, delay)
  {
    if i > 0 {
      TimelyAt(ss, es, holder, delay, i - 1);
      InvAt(ss, es, i - 1);
      assert StepAt(ss, es, i - 1);
      StepKeepsTimely(ss[i - 1], es[i - 1], holder, delay);
    }
  }

  /** Takeover bound: a swap that takes a Lease from another holder that has not released it lands
      at least its duration, less the read delay of the replica that takes it, after the replaced
      version was stored. Nothing is asked of the other replicas' reads. */
  lemma TakeoverWaits(ss: seq<State>, es: seq<Event>, delay: nat, i: nat)
    requires IsRun(ss, es)
    requires i < |es| && es[i].Acquire? && Enabled(ss[i], es[i]) && |ss[i].log| > 0
    requires Prompt(ss, es, ss[i].calls[es[i].id].who.holder, delay)
    requires Watchable(Current(ss[i]).value) && HeldByOther(Current(ss[i]).value, ss[i].calls[es[i].id].who.holder)
    ensures ss[i].log[|ss[i].log| - 1].at + Current(ss[i]).value.seconds * TICKS_PER_SECOND <= ss[i].now + delay
  {
    var c := ss[i].calls[es[i].id];
    TimelyAt(ss, es, c.who.holder, delay, i);
    InvAt(ss, es, i);
    assert CallTimely(ss[i], c, c.who.holder, delay) && CallOk(ss[i], c);
  }

  /** The owner locator, which samples its clock after the read, never judges a version expired
      before its full duration has passed since it was stored, however slow the reads are. */
  lemma LocatorWaitsFully(ss: seq<State>, es: seq<Event>, i: nat)
    requires IsRun(ss, es) && i < |es| && es[i].Route? && Enabled(ss[i], es[i]) && JudgedExpired(ss[i], es[i].id)
    ensures var v := ss[i].calls[es[i].id].version;
      ss[i].log[v - 1].at + ss[i].log[v - 1].lease.seconds * TICKS_PER_SECOND <= ss[i].now
  {
    var delay := LongestDelay(ss, es, "");
    TimelyAt(ss, es, "", delay, i);
    InvAt(ss, es, i);
    var c := ss[i].calls[es[i].id];
    assert CallTimely(ss[i], c, "", delay) && CallOk(ss[i], c);
  }

  /** Every run is prompt for some delay: the length of the run in time. */
  lemma LongestDelay(ss: seq<State>, es: seq<Event>, holder: string) returns (delay: nat)
    requires IsRun(ss, es)
    ensures Prompt(ss, es, holder, delay)
  {
    delay := ss[|es|].now;
    forall i: nat | i < |es| && es[i].Fetch? ensures PromptRead(ss[i], es[i].id, holder, delay) {
      assert StepAt(ss, es, i);
      ExtendsBetween(ss, es, i, |es|);
    }
  }

  // ---------------------------------------------------------------- the bound is tight

  // A contender samples its clock at 0 and has its first read served `delay` later, when the owner has
  // just stored the Lease. It samples again when the duration has passed since its first sample.

  function Owner(seconds: nat): Replica { Replica("center-0", seconds) }

  function Contender(seconds: nat): Replica { Replica("center-1", seconds) }

  function StoryStart(i: nat, seconds: nat, delay: nat): (State, Event) {
    var o, c := Owner(seconds), Contender(seconds);
    var slow := Sampled(c, "role", "tb", 0);
    if i == 0 then (Init, Sample(1, c, "role", "tb"))
    else if i == 1 then (State(0, [], [], map[], map[], map[1 := slow]), Tick(delay))
    else if i == 2 then (State(delay, [], [], map[], map[], map[1 := slow]), Sample(2, o, "role", "ta"))
    else if i == 3 then
      (State(delay, [], [], map[], map[], map[1 := slow, 2 := Sampled(o, "role", "ta", delay)]), Fetch(2))
    else if i == 4 then
      (State(delay, [], [], map[], map[], map[1 := slow, 2 := Fetched(o, "role", "ta", delay, 0)]), Judge(2))
    else (State(delay, [], [], map[], map[], map[1 := slow, 2 := Cleared(o, "role", "ta", delay, 0)]), Acquire(2))
  }

  function StoryEnd(i: nat, seconds: nat, delay: nat): (State, Event)
    requires delay <= seconds * TICKS_PER_SECOND
  {
    var c, full := Contender(seconds), seconds * TICKS_PER_SECOND;
    var log := [Stored(Lease("role", Some("center-0"), Some("ta"), 1, seconds, 0), delay)];
    var fences := [Leadership("role", "center-0", "ta", 1)];
    var seen := map["center-1" := Sighting(1, 0)];
    if i <= 6 then (State(delay, log, fences, map[], map[], map[1 := Sampled(c, "role", "tb", 0)]), Fetch(1))
    else if i == 7 then (State(delay, log, fences, map[], map[], map[1 := Fetched(c, "role", "tb", 0, 1)]), Judge(1))
    else if i == 8 then (State(delay, log, fences, seen, map[], map[]), Tick(full - delay))
    else if i == 9 then (State(full, log, fences, seen, map[], map[]), Sample(3, c, "role", "tc"))
    else if i == 10 then (State(full, log, fences, seen, map[], map[3 := Sampled(c, "role", "tc", full)]), Fetch(3))
    else if i == 11 then (State(full, log, fences, seen, map[], map[3 := Fetched(c, "role", "tc", full, 1)]), Judge(3))
    else (State(full, log, fences, seen, map[], map[3 := Cleared(c, "role", "tc", full, 1)]), Acquire(3))
  }

  function Story(i: nat, seconds: nat, delay: nat): (State, Event)
    requires delay <= seconds * TICKS_PER_SECOND
  {
    if i < 6 then StoryStart(i, seconds, delay) else StoryEnd(i, seconds, delay)
  }

  lemma StoryStarts(i: nat, seconds: nat, delay: nat)
    requires i < 6 && 3 <= seconds <= I32_MAX && delay <= seconds * TICKS_PER_SECOND
    ensures Enabled(Story(i, seconds, delay).0, Story(i, seconds, delay).1)
    ensures Apply(Story(i, seconds, delay).0, Story(i, seconds, delay).1) == Story(i + 1, seconds, delay).0
  {
  }

  lemma StoryEnds(i: nat, seconds: nat, delay: nat)
    requires 6 <= i < 12 && 3 <= seconds <= I32_MAX && delay <= seconds * TICKS_PER_SECOND
    ensures Enabled(Story(i, seconds, delay).0, Story(i, seconds, delay).1)
    ensures Apply(Story(i, seconds, delay).0, Story(i, seconds, delay).1) == Story(i + 1, seconds, delay).0
  {
  }

  /** The takeover at the end of a run lands exactly `wait` after the version it replaces was stored. */
  ghost predicate TakesOverAfter(ss: seq<State>, es: seq<Event>, holder: string, seconds: nat, wait: nat)
    requires IsRun(ss, es)
  {
    && |es| > 0
    && var n := |es| - 1;
    && es[n].Acquire? && Enabled(ss[n], es[n]) && |ss[n].log| > 0
    && ss[n].calls[es[n].id].who.holder == holder
    && Watchable(Current(ss[n]).value) && HeldByOther(Current(ss[n]).value, holder)
    && Current(ss[n]).value.seconds == seconds
    && ss[n].now == ss[n].log[|ss[n].log| - 1].at + wait
  }

  /** The bound cannot be improved: for every duration and every delay up to it there is a run,
      prompt for that delay, in which another holder's takeover lands exactly at the bound. */
  lemma TakeoverBoundIsTight(seconds: nat, delay: nat) returns (ss: seq<State>, es: seq<Event>)
    requires 3 <= seconds <= I32_MAX && delay <= seconds * TICKS_PER_SECOND
    ensures IsRun(ss, es) && Prompt(ss, es, "center-1", delay)
    ensures TakesOverAfter(ss, es, "center-1", seconds, seconds * TICKS_PER_SECOND - delay)
  {
    es := seq(13, i requires 0 <= i => Story(i, seconds, delay).1);
    ss := seq(13, i requires 0 <= i => Story(i, seconds, delay).0) + [StoryAfter(seconds, delay)];
    forall i: nat | i < 13 ensures StepAt(ss, es, i) {
      if i < 6 {
        StoryStarts(i, seconds, delay);
      } else if i < 12 {
        StoryEnds(i, seconds, delay);
      } else {
        LastStep(seconds, delay);
      }
    }
    assert IsRun(ss, es);
    forall i: nat | i < |es| && es[i].Fetch? ensures PromptRead(ss[i], es[i].id, "center-1", delay) {
      assert i == 3 || i == 6 || i == 10;
    }
  }

  ghost function StoryAfter(seconds: nat, delay: nat): State
    requires 3 <= seconds <= I32_MAX && delay <= seconds * TICKS_PER_SECOND
  {
    LastStep(seconds, delay);
    Apply(Story(12, seconds, delay).0, Story(12, seconds, delay).1)
  }

  lemma LastStep(seconds: nat, delay: nat)
    requires delay <= seconds * TICKS_PER_SECOND
    ensures Enabled(Story(12, seconds, delay).0, Story(12, seconds, delay).1)
  {
  }

  /** In particular, without a bound on the read delay a Lease can be taken over at the very moment it
      was stored. */
  lemma SlowReadTakesOverAtOnce(seconds: nat) returns (ss: seq<State>, es: seq<Event>)
    requires 3 <= seconds <= I32_MAX
    ensures IsRun(ss, es) && TakesOverAfter(ss, es, "center-1", seconds, 0)
  {
    ss, es := TakeoverBoundIsTight(seconds, seconds * TICKS_PER_SECOND);
  }
}
