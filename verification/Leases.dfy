/** Lease objects and the coordinator that fences roles with them
    (crates/center-adapter-kubernetes/src/lease.rs). */
module Leases {
  import opened Basics
  import opened ApiServer

  const TICKS_PER_SECOND := 1_000_000_000
  const MAX_CONFLICT_RETRIES := 8

  /** The parts of a coordination.k8s.io Lease that ownership depends on: the role, token and
      epoch annotations and the holder, duration and transition count of its spec. */
  datatype Lease = Lease(
    role: string,
    holder: Option<string>,
    token: Option<string>,
    epoch: nat,
    seconds: int,
    transitions: nat)

  datatype Leadership = Leadership(role: string, holder: string, token: string, epoch: nat)

  /** The first time one client saw the version it still sees. */
  datatype Sighting = Sighting(version: nat, at: nat)

  datatype Refusal = HeldByAnother | NameCollision | EpochExhausted | Contended

  /** Only a Lease with a holder and a duration can be alive at all. */
  predicate Watchable(lease: Lease) {
    lease.holder.Some? && lease.holder.value != "" && lease.seconds > 0
  }

  /** Which sighting counts once `version` has been seen at `now`. */
  function Observe(seen: Option<Sighting>, version: nat, now: nat): Sighting {
    if seen.Some? && seen.value.version == version then seen.value else Sighting(version, now)
  }

  predicate Unexpired(lease: Lease, first: Sighting, now: nat) {
    SatSub(now, first.at) < lease.seconds * TICKS_PER_SECOND
  }

  predicate HeldByOther(lease: Lease, holder: string) {
    lease.holder != Some(holder)
  }

  /** The Lease that a successful acquire stores over `current`. */
  function Acquired(current: Option<Lease>, role: string, holder: string, token: string, seconds: int): Lease {
    match current
    case None => Lease(role, Some(holder), Some(token), 1, seconds, 0)
    case Some(l) =>
      var moved := l.holder.Some? && l.holder.value != holder;
      Lease(role, Some(holder), Some(token), l.epoch + 1, seconds,
            if moved && l.transitions < I32_MAX then l.transitions + 1 else l.transitions)
  }

  predicate Owns(lease: Lease, claim: Leadership) {
    lease.holder == Some(claim.holder) && lease.token == Some(claim.token) && lease.epoch == claim.epoch
  }

  function Renewed(lease: Lease, seconds: int): Lease {
    lease.(seconds := seconds)
  }

  function Released(lease: Lease): Lease {
    lease.(holder := None, token := None)
  }

  /** Reference for expiry: in a history of sightings of one Lease, when the unbroken run of the
      last seen version began. */
  ghost function RunStart(history: seq<Sighting>): (t: nat)
    requires |history| > 0
  {
    var n := |history|;
    if n > 1 && history[n - 2].version == history[n - 1].version then RunStart(history[..n - 1])
    else history[n - 1].at
  }

  /** The run start is the time of an actual sighting of the last version, and every later
      sighting was of that same version. */
  lemma {:induction false} RunStartIsFirstOfUnbrokenRun(history: seq<Sighting>) returns (k: nat)
    requires |history| > 0
    ensures k < |history| && RunStart(history) == history[k].at
    ensures forall i :: k <= i < |history| ==> history[i].version == history[|history| - 1].version
    ensures k > 0 ==> history[k - 1].version != history[|history| - 1].version
  {
    var n := |history|;
    if n > 1 && history[n - 2].version == history[n - 1].version {
      var shorter := history[..n - 1];
      k := RunStartIsFirstOfUnbrokenRun(shorter);
      assert forall i :: k <= i < n - 1 ==> history[i] == shorter[i];
    } else {
      k := n - 1;
    }
  }

  /** A remembered sighting stands for a whole history. */
  ghost predicate Remembers(first: Sighting, history: seq<Sighting>) {
    && |history| > 0
    && first.version == history[|history| - 1].version
    && first.at == RunStart(history)
  }

  /** Observing keeps exactly the start of the current run. */
  lemma ObserveRemembers(seen: Option<Sighting>, history: seq<Sighting>, version: nat, now: nat)
    requires if seen.None? then history == [] else Remembers(seen.value, history)
    ensures Remembers(Observe(seen, version, now), history + [Sighting(version, now)])
  {
    var longer := history + [Sighting(version, now)];
    assert longer[..|longer| - 1] == history;
  }

  /** A version may be replaced by `holder` unless another replica's hold on it has been seen for
      less than its duration. */
  ghost predicate MayReplace(before: Option<Lease>, version: nat, seen: map<string, Sighting>, name: string,
                             holder: string, now: nat) {
    before.Some? && Watchable(before.value) && HeldByOther(before.value, holder) ==>
      name in seen && seen[name].version == version && !Unexpired(before.value, seen[name], now)
  }

  /** When a version may be replaced, field by field: there is none, nobody or oneself holds it, it has no
      duration, or it has been seen unchanged for its whole duration. */
  lemma MayReplaceExactlyWhen(before: Option<Lease>, version: nat, seen: map<string, Sighting>, name: string,
                              holder: string, now: nat)
    ensures MayReplace(before, version, seen, name, holder, now) <==>
      || before.None?
      || before.value.holder.None? || before.value.holder.value == "" || before.value.holder.value == holder
      || before.value.seconds <= 0
      || (name in seen && seen[name].version == version && now >= seen[name].at + before.value.seconds * 1_000_000_000)
  {
  }

  /** The version is of the role and its epoch can be raised. */
  predicate Fits(current: Option<Lease>, role: string) {
    current.Some? ==> current.value.role == role && current.value.epoch < U64_MAX
  }

  ghost function LastOf(log: seq<Entry<Lease>>): Option<Lease> {
    if |log| == 0 then None else Some(log[|log| - 1].value)
  }

  /** `KubernetesLeaseCoordinator` of one replica. */
  class LeaseCoordinator {
    const holder: string
    const seconds: int
    var observations: map<string, Sighting>
    ghost var sightings: map<string, seq<Sighting>>

    constructor (holder: string, seconds: int)
      requires holder != "" && 3 <= seconds <= I32_MAX
      ensures this.holder == holder && this.seconds == seconds && observations == map[]
      ensures Valid()
    {
      this.holder, this.seconds := holder, seconds;
      observations, sightings := map[], map[];
    }

    /** Each remembered sighting is the start of the unbroken run that was really seen. */
    ghost predicate Valid()
      reads this
    {
      && holder != "" && 3 <= seconds <= I32_MAX
      && observations.Keys == sightings.Keys
      && forall name :: name in observations ==> Remembers(observations[name], sightings[name])
    }

    function Last(name: string): Option<Sighting>
      reads this
    {
      if name in observations then Some(observations[name]) else None
    }

    ghost function History(name: string): seq<Sighting>
      reads this
    {
      if name in sightings then sightings[name] else []
    }

    /** `is_active`: a watchable Lease is alive until its unbroken run has lasted its duration. */
    method IsActive(name: string, version: nat, lease: Lease, now: nat) returns (active: bool)
      requires Valid()
      modifies this
      ensures Valid()
      ensures !Watchable(lease) ==> !active && sightings == old(sightings)
      ensures Watchable(lease) ==>
        && sightings == old(sightings)[name := old(History(name)) + [Sighting(version, now)]]
        && (active <==> SatSub(now, RunStart(sightings[name])) < lease.seconds * TICKS_PER_SECOND)
      ensures observations == if Watchable(lease)
                              then old(observations)[name := Observe(old(Last(name)), version, now)]
                              else old(observations)
    {
      if !Watchable(lease) {
        return false;
      }
      var first := Observe(Last(name), version, now);
      ghost var history := History(name) + [Sighting(version, now)];
      ObserveRemembers(Last(name), History(name), version, now);
      observations := observations[name := first];
      sightings := sightings[name := history];
      active := Unexpired(lease, first, now);
    }

    /** The checks of `acquire` between its read and its swap. */
    method Assess(name: string, role: string, version: nat, current: Option<Lease>, now: nat)
      returns (refusal: Option<Refusal>)
      requires Valid()
      modifies this
      ensures Valid()
      ensures refusal.None? <==> Fits(current, role) && MayReplace(current, version, observations, name, holder, now)
      ensures refusal == Some(NameCollision) <==> current.Some? && current.value.role != role
      ensures refusal == Some(HeldByAnother) <==>
        && current.Some? && current.value.role == role
        && !MayReplace(current, version, observations, name, holder, now)
      ensures refusal != Some(Contended)
    {
      if current.None? {
        return None;
      }
      if current.value.role != role {
        return Some(NameCollision);
      }
      var active := IsActive(name, version, current.value, now);
      if active && HeldByOther(current.value, holder) {
        return Some(HeldByAnother);
      }
      if current.value.epoch >= U64_MAX {
        return Some(EpochExhausted);
      }
      return None;
    }

    /** `acquire`. At most one version is stored, by attempt `k`, it is the last one, and it is the
        acquired form of exactly the version it replaced, which was not held, held by this replica, or
        expired. */
    method Acquire(api: Object<Lease>, env: Schedule<Lease>, me: nat, name: string, role: string,
                   clock: nat -> nat, tokens: nat -> string)
      returns (r: Result<Leadership, Refusal>, ghost k: nat)
      requires Valid() && Excludes(env, me)
      modifies api, this
      ensures Valid()
      ensures old(api.log) <= api.log
      ensures forall i :: |old(api.log)| <= i < |api.log| && api.log[i].writer == me ==> r.Ok? && i == |api.log| - 1
      ensures r.Ok? ==>
        var n := |api.log|;
        && n > |old(api.log)|
        && var before := if n == 1 then None else Some(api.log[n - 2].value);
        && (before.Some? ==> before.value.role == role && before.value.epoch < U64_MAX)
        && k < MAX_CONFLICT_RETRIES
        && r.value == Leadership(role, holder, tokens(k), if n == 1 then 1 else before.value.epoch + 1)
        && MayReplace(before, n - 1, observations, name, holder, clock(k))
        && api.log[n - 1] == Entry(Acquired(before, role, holder, r.value.token, seconds), me)
      ensures r == Err(HeldByAnother) ==>
        && |api.log| > 0
        && Watchable(api.log[|api.log| - 1].value)
        && HeldByOther(api.log[|api.log| - 1].value, holder)
      ensures r == Err(NameCollision) ==> |api.log| > 0 && api.log[|api.log| - 1].value.role != role
      ensures r == Err(EpochExhausted) ==> |api.log| > 0 && api.log[|api.log| - 1].value.epoch >= U64_MAX
      ensures r == Err(Contended) ==> forall a: nat :: a < MAX_CONFLICT_RETRIES ==> Disturbed(env, a, 2)
      ensures Quiet(env) ==>
        var last := LastOf(old(api.log));
        (r.Ok? <==> Fits(last, role) && MayReplace(last, |old(api.log)|, observations, name, holder, clock(0)))
    {
      ghost var start := api.log;
      var attempt := 0;
      k := 0;
      while attempt < MAX_CONFLICT_RETRIES
        invariant 0 <= attempt <= MAX_CONFLICT_RETRIES
        invariant Valid()
        invariant start <= api.log
        invariant forall i :: |start| <= i < |api.log| ==> api.log[i].writer != me
        invariant forall a: nat :: a < attempt ==> Disturbed(env, a, 2)
        invariant Quiet(env) ==> attempt == 0 && api.log == start
      {
        var now, token := clock(attempt), tokens(attempt);
        var version, current := api.Get(env(2 * attempt));
        var refusal := Assess(name, role, version, current, now);
        if refusal.Some? {
          return Err(refusal.value), k;
        }
        var stored := api.Put(env(2 * attempt + 1), me, version, Acquired(current, role, holder, token, seconds));
        if stored {
          return Ok(Leadership(role, holder, token, if current.None? then 1 else current.value.epoch + 1)), attempt;
        }
        attempt := attempt + 1;
      }
      r := Err(Contended);
    }

    /** `renew` (and `release`): the one version stored is the renewed (released) form of a version
        that this claim owned, so it keeps (clears) the holder and leaves role and epoch alone. */
    method Renew(api: Object<Lease>, env: Schedule<Lease>, me: nat, claim: Leadership)
      returns (r: Result<bool, Refusal>)
      requires Valid() && Excludes(env, me) && claim.holder == holder
      modifies api
      ensures OneEdit(old(api.log), api.log, me, claim, r == Ok(true))
      ensures r == Ok(true) ==>
        api.log[|api.log| - 1].value == Renewed(api.log[|api.log| - 2].value, seconds)
      ensures r.Ok? ==> (r.value <==> |api.log| > 0 && Owns(api.log[|api.log| - 1].value, claim))
      ensures r.Err? ==> OtherRoleOrDisturbed(api.log, env, claim, r.error)
      ensures Quiet(env) && r != Ok(true) ==> api.log == old(api.log)
    {
      r := Edit(api, env, me, claim, false);
      assert r.Ok? ==> r == Ok(r.value) && (r.value || !r.value);
    }

    method Release(api: Object<Lease>, env: Schedule<Lease>, me: nat, claim: Leadership)
      returns (r: Result<bool, Refusal>)
      requires Valid() && Excludes(env, me) && claim.holder == holder
      modifies api
      ensures OneEdit(old(api.log), api.log, me, claim, r == Ok(true))
      ensures r == Ok(true) ==>
        && api.log[|api.log| - 1].value == Released(api.log[|api.log| - 2].value)
        && !Watchable(api.log[|api.log| - 1].value)
      ensures r.Ok? ==> |api.log| == 0 || !Owns(api.log[|api.log| - 1].value, claim)
      ensures r == Ok(false) ==> forall i :: |old(api.log)| <= i < |api.log| ==> api.log[i].writer != me
      ensures r.Err? ==> OtherRoleOrDisturbed(api.log, env, claim, r.error)
      ensures Quiet(env) && r != Ok(true) ==> api.log == old(api.log)
    {
      r := Edit(api, env, me, claim, true);
      assert r.Ok? ==> r == Ok(r.value) && (r.value || !r.value);
    }

    /** The read, compare and swap loop that renew and release share. */
    method Edit(api: Object<Lease>, env: Schedule<Lease>, me: nat, claim: Leadership, release: bool)
      returns (r: Result<bool, Refusal>)
      requires Valid() && Excludes(env, me) && claim.holder == holder
      modifies api
      ensures OneEdit(old(api.log), api.log, me, claim, r == Ok(true))
      ensures r == Ok(true) ==>
        var was := api.log[|api.log| - 2].value;
        api.log[|api.log| - 1].value == if release then Released(was) else Renewed(was, seconds)
      ensures r == Ok(false) ==> |api.log| == 0 || !Owns(api.log[|api.log| - 1].value, claim)
      ensures r.Err? ==> OtherRoleOrDisturbed(api.log, env, claim, r.error)
      ensures Quiet(env) && r != Ok(true) ==> api.log == old(api.log)
    {
      ghost var start := api.log;
      var attempt := 0;
      while attempt < MAX_CONFLICT_RETRIES
        invariant 0 <= attempt <= MAX_CONFLICT_RETRIES
        invariant start <= api.log
        invariant forall i :: |start| <= i < |api.log| ==> api.log[i].writer != me
        invariant forall a: nat :: a < attempt ==> Disturbed(env, a, 2)
        invariant Quiet(env) ==> api.log == start
      {
        var version, current := api.Get(env(2 * attempt));
        if current.None? {
          return Ok(false);
        }
        if current.value.role != claim.role {
          return Err(NameCollision);
        }
        if !Owns(current.value, claim) {
          return Ok(false);
        }
        var next := if release then Released(current.value) else Renewed(current.value, seconds);
        var stored := api.Put(env(2 * attempt + 1), me, version, next);
        if stored {
          return Ok(true);
        }
        attempt := attempt + 1;
      }
      r := Err(Contended);
    }
  }

  /** A renew or release fails only over a Lease of another role, or if others wrote in every attempt. */
  ghost predicate OtherRoleOrDisturbed(log: seq<Entry<Lease>>, env: Schedule<Lease>, claim: Leadership, e: Refusal) {
    || (e == NameCollision && |log| > 0 && log[|log| - 1].value.role != claim.role)
    || (e == Contended && forall a: nat :: a < MAX_CONFLICT_RETRIES ==> Disturbed(env, a, 2))
  }

  lemma QuietRefusal(log: seq<Entry<Lease>>, env: Schedule<Lease>, claim: Leadership, r: Result<bool, Refusal>)
    ensures Quiet(env) && r.Err? && OtherRoleOrDisturbed(log, env, claim, r.error) ==>
      |log| > 0 && log[|log| - 1].value.role != claim.role
  {
    if Quiet(env) {
      QuietUndisturbed(env, 0, 2);
    }
  }

  /** Between two logs, call `me` stored nothing (or, if `wrote`, only the last version, over one
      that `claim` owned under its own role). */
  ghost predicate OneEdit(before: seq<Entry<Lease>>, after: seq<Entry<Lease>>, me: nat, claim: Leadership,
                          wrote: bool) {
    && before <= after
    && (forall i :: |before| <= i < |after| && after[i].writer == me ==> wrote && i == |after| - 1)
    && (wrote ==>
          && |after| >= 2 && |after| > |before| && after[|after| - 1].writer == me
          && Owns(after[|after| - 2].value, claim) && after[|after| - 2].value.role == claim.role)
  }
}
