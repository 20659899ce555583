/** The controller directory: status transitions fenced by ownership epoch, written through
    compare-and-swap retry loops (crates/center-adapter-kubernetes/src/controller_directory.rs). */
module Directory {
  import opened Basics
  import opened ApiServer

  const MAX_CONFLICT_RETRIES := 8

  datatype Phase = Online | Offline | Stale

  datatype Fence = Fence(token: string, epoch: nat)

  /** Stored `EdgionControllerStatus`. */
  datatype Status = Status(
    phase: Phase,
    session: Option<string>,
    cluster: string,
    environments: seq<string>,
    tags: seq<string>,
    replica: Option<string>,
    token: Option<string>,
    epoch: nat,
    syncVersion: Option<nat>,
    watchServer: Option<string>,
    resourceCount: Option<nat>,
    countsByKind: Option<map<string, nat>>,
    statsUpdated: Option<int>,
    watchUpdated: Option<int>,
    lastSeen: int,
    observedAt: int,
    evicted: bool,
    generation: nat)

  datatype Spec = Spec(id: string, cluster: string, environments: seq<string>, tags: seq<string>)

  datatype Resource = Resource(spec: Spec, generation: nat, status: Option<Status>)

  /** The four calls that can write a status. */
  datatype Request =
    | Register(id: string, session: string, cluster: string, environments: seq<string>, tags: seq<string>,
               replica: Option<string>, fence: Option<Fence>, observedAt: int)
    | MarkOffline(id: string, session: string, fence: Option<Fence>, observedAt: int)
    | ProjectRuntime(id: string, session: string, fence: Option<Fence>, observedAt: int,
                     syncVersion: Option<nat>, watchServer: Option<string>, resourceCount: Option<nat>,
                     countsByKind: Option<map<string, nat>>, statsUpdated: Option<int>, watchUpdated: Option<int>)
    | Evict(id: string)

  function FenceOf(req: Request): Option<Fence> {
    if req.Evict? then None else req.fence
  }

  /** The spec that a call other than evict brings along (only a registration knows the metadata). */
  function SpecOf(req: Request): Spec {
    if req.Register? then Spec(req.id, req.cluster, req.environments, req.tags) else Spec(req.id, "", [], [])
  }

  function Or<T>(a: Option<T>, b: Option<T>): Option<T> {
    if a.Some? then a else b
  }

  predicate RegistrationStale(current: Option<Status>, req: Request)
    requires req.Register?
  {
    current.Some? &&
    match req.fence
    case Some(fence) => current.value.epoch >= fence.epoch
    case None => current.value.epoch > 0 || current.value.observedAt >= req.observedAt
  }

  predicate OfflineNotCurrent(current: Option<Status>, req: Request)
    requires req.MarkOffline?
  {
    current.Some? &&
    var s := current.value;
    (s.evicted ||
     match req.fence
     case Some(fence) =>
       if s.epoch < fence.epoch then false
       else if s.epoch == fence.epoch then s.session != Some(req.session) || s.token != Some(fence.token)
       else true
     case None => s.epoch > 0 || s.session != Some(req.session) || s.observedAt > req.observedAt)
  }

  predicate ProjectionRefused(current: Option<Status>, req: Request)
    requires req.ProjectRuntime?
  {
    current.None? ||
    var s := current.value;
    || s.evicted || s.phase != Online || s.session != Some(req.session)
    || match req.fence
       case Some(fence) => s.epoch != fence.epoch || s.token != Some(fence.token)
       case None => s.epoch != 0
  }

  function Registered(req: Request, generation: nat): Status
    requires req.Register?
  {
    Status(Online, Some(req.session), req.cluster, req.environments, req.tags, req.replica,
           if req.fence.Some? then Some(req.fence.value.token) else None,
           if req.fence.Some? then req.fence.value.epoch else 0,
           None, None, None, None, None, None,
           req.observedAt, req.observedAt, false, generation)
  }

  function WentOffline(current: Option<Status>, req: Request, generation: nat): Status
    requires req.MarkOffline?
  {
    var token := if req.fence.Some? then Some(req.fence.value.token) else None;
    var epoch := if req.fence.Some? then req.fence.value.epoch else 0;
    match current
    case None =>
      Status(Offline, Some(req.session), "", [], [], None, token, epoch,
             None, None, None, None, None, None, req.observedAt, req.observedAt, false, generation)
    case Some(s) =>
      s.(phase := Offline, session := Some(req.session), replica := None, token := token, epoch := epoch,
         lastSeen := req.observedAt, observedAt := Max(s.observedAt, req.observedAt),
         evicted := false, generation := generation)
  }

  function Projected(s: Status, req: Request, generation: nat): Status
    requires req.ProjectRuntime?
  {
    var newer := req.observedAt > s.observedAt;
    s.(syncVersion := Or(req.syncVersion, s.syncVersion),
       watchServer := Or(req.watchServer, s.watchServer),
       resourceCount := Or(req.resourceCount, s.resourceCount),
       countsByKind := Or(req.countsByKind, s.countsByKind),
       statsUpdated := Or(req.statsUpdated, s.statsUpdated),
       watchUpdated := Or(req.watchUpdated, s.watchUpdated),
       observedAt := if newer then req.observedAt else s.observedAt,
       lastSeen := if newer then req.observedAt else s.lastSeen,
       generation := generation)
  }

  function Evicted(s: Status): Status {
    s.(evicted := true, phase := Offline, session := None, replica := None)
  }

  /** The status a call writes over `current`, or None if it must not write. */
  function Transition(req: Request, current: Option<Status>, generation: nat): Option<Status> {
    match req
    case Register(_, _, _, _, _, _, _, _) =>
      if RegistrationStale(current, req) then None else Some(Registered(req, generation))
    case MarkOffline(_, _, _, _) =>
      if OfflineNotCurrent(current, req) then None else Some(WentOffline(current, req, generation))
    case ProjectRuntime(_, _, _, _, _, _, _, _, _, _) =>
      if ProjectionRefused(current, req) then None else Some(Projected(current.value, req, generation))
    case Evict(_) =>
      if current.None? || current.value.evicted then None else Some(Evicted(current.value))
  }

  // ---------------------------------------------------------------- order

  /** (`ownership_epoch`, `observed_at_unix_ms`) lexicographically; an absent status is lowest. */
  predicate Precedes(a: Option<Status>, b: Option<Status>) {
    b.Some? && (a.None? || a.value.epoch < b.value.epoch
                || (a.value.epoch == b.value.epoch && a.value.observedAt < b.value.observedAt))
  }

  predicate NotAfter(a: Option<Status>, b: Option<Status>) {
    a.None? || (b.Some? && (a.value.epoch < b.value.epoch
                            || (a.value.epoch == b.value.epoch && a.value.observedAt <= b.value.observedAt)))
  }

  /** No accepted transition moves a status backwards, and every registration moves it forwards. */
  lemma TransitionsAdvance(req: Request, current: Option<Status>, generation: nat)
    requires Transition(req, current, generation).Some?
    ensures NotAfter(current, Transition(req, current, generation))
    ensures req.Register? ==> Precedes(current, Transition(req, current, generation))
  {
  }

  /** A status written under a fence can afterwards only be changed by a fence at least as new,
      or by eviction, which keeps epoch, token and observation time. */
  lemma OlderFencesRefused(req: Request, current: Status, generation: nat)
    requires Transition(req, Some(current), generation).Some? && current.epoch > 0
    ensures req.Evict? || (FenceOf(req).Some? && FenceOf(req).value.epoch >= current.epoch)
    ensures req.Evict? ==>
      var t := Transition(req, Some(current), generation).value;
      t.epoch == current.epoch && t.token == current.token && t.observedAt == current.observedAt && t.evicted
  {
  }

  // ---------------------------------------------------------------- acceptance and effect

  /** The status is of that very session, written under that very fence (or unfenced, as the call is). */
  predicate Under(s: Status, session: string, fence: Option<Fence>) {
    && s.session == Some(session)
    && (if fence.Some? then s.epoch == fence.value.epoch && s.token == Some(fence.value.token) else s.epoch == 0)
  }

  /** Exactly when each call is accepted. */
  lemma AcceptedExactlyWhen(req: Request, current: Option<Status>, generation: nat)
    ensures req.Evict? ==> (Transition(req, current, generation).Some? <==> current.Some? && !current.value.evicted)
    ensures req.Register? ==>
      (Transition(req, current, generation).Some? <==>
         || current.None?
         || (req.fence.Some? && current.value.epoch < req.fence.value.epoch)
         || (req.fence.None? && current.value.epoch == 0 && current.value.observedAt < req.observedAt))
    ensures req.MarkOffline? ==>
      (Transition(req, current, generation).Some? <==>
         || current.None?
         || (!current.value.evicted && req.fence.Some? && current.value.epoch < req.fence.value.epoch)
         || (!current.value.evicted && Under(current.value, req.session, req.fence)
             && (req.fence.None? ==> current.value.observedAt <= req.observedAt)))
    ensures req.ProjectRuntime? ==>
      (Transition(req, current, generation).Some? <==>
         && current.Some? && current.value.phase == Online && !current.value.evicted
         && Under(current.value, req.session, req.fence))
  {
  }

  /** What an accepted call leaves: whose session and fence, the phase, and the times. A registration starts
      the observation time afresh; an offline mark and a projection can only move it forwards. */
  lemma AcceptedLeaves(req: Request, current: Option<Status>, generation: nat)
    requires Transition(req, current, generation).Some? && !req.Evict?
    ensures var t := Transition(req, current, generation).value;
      && Under(t, req.session, req.fence) && !t.evicted && t.generation == generation
      && (req.fence.None? && !req.ProjectRuntime? ==> t.token.None?)
      && t.phase == (if req.MarkOffline? then Offline else Online)
      && (req.Register? ==> t.replica == req.replica && t.observedAt == t.lastSeen == req.observedAt)
      && (req.MarkOffline? ==> t.replica.None? && t.lastSeen == req.observedAt)
      && (req.ProjectRuntime? ==> current.Some? && t.replica == current.value.replica && t.token == current.value.token)
      && (!req.Register? ==> t.observedAt >= req.observedAt && NotAfter(current, Some(t)))
      && (!req.Register? && current.Some? ==>
            t.observedAt == req.observedAt || t.observedAt == current.value.observedAt)
      && (!req.Register? && current.None? ==> t.observedAt == req.observedAt)
      && (req.ProjectRuntime? ==>
            t.lastSeen == if req.observedAt > current.value.observedAt then req.observedAt else current.value.lastSeen)
  {
  }

  /** An eviction clears session and replica and leaves everything else but the phase. */
  lemma EvictionLeaves(id: string, current: Status, generation: nat)
    requires !current.evicted
    ensures var t := Transition(Evict(id), Some(current), generation);
      && t.Some? && t.value.evicted && t.value.phase == Offline && t.value.session.None? && t.value.replica.None?
      && current == t.value.(
           evicted := false, phase := current.phase, session := current.session, replica := current.replica)
  {
  }

  // ---------------------------------------------------------------- listing

  /** What `list` shows of a resource; evicted and never projected controllers are hidden. */
  datatype Record = Record(id: string, phase: Phase, session: Option<string>, replica: Option<string>,
                           fence: Option<Fence>, lastSeen: int)

  function ListEntry(res: Resource): (r: Option<Record>)
    ensures r.None? <==> res.status.None? || res.status.value.evicted
    ensures r.Some? && r.value.replica.Some? ==> r.value.phase == Online
    ensures r.Some? && r.value.session.Some? ==> r.value.phase == Online
    ensures r.Some? && r.value.fence.Some? ==> r.value.phase == Online && r.value.fence.value.epoch > 0
    ensures r.Some? ==>
      var s := res.status.value;
      && r.value.id == res.spec.id && r.value.phase == s.phase && r.value.lastSeen == s.observedAt
      && (s.phase == Online ==> r.value.session == s.session && r.value.replica == s.replica)
      && (s.phase == Online && s.epoch > 0 ==>
            (r.value.fence.Some? <==> s.token.Some?)
            && (s.token.Some? ==> r.value.fence.value == Fence(s.token.value, s.epoch)))
  {
    if res.status.None? || res.status.value.evicted then None else
    var s := res.status.value;
    var online := s.phase == Online;
    Some(Record(res.spec.id, s.phase, if online then s.session else None, if online then s.replica else None,
                if online && s.epoch > 0 && s.token.Some? then Some(Fence(s.token.value, s.epoch)) else None,
                s.observedAt))
  }

  // ---------------------------------------------------------------- retry loops

  datatype Failure = IdentityCollision | Contended

  /** How one version may follow another when the same call stores it. */
  predicate SpecRefresh(before: Option<Resource>, after: Resource, req: Request) {
    match before
    case None => after == Resource(SpecOf(req), 1, None)
    case Some(b) =>
      b.spec.id == req.id && b.spec != SpecOf(req) && after == b.(spec := SpecOf(req), generation := b.generation + 1)
  }

  predicate Accepted(before: Resource, after: Resource, req: Request) {
    && before.spec.id == req.id
    && var t := Transition(req, before.status, before.generation);
    t.Some? && after == before.(status := t)
  }

  ghost function Before(log: seq<Entry<Resource>>, i: nat): Option<Resource>
    requires i <= |log|
  {
    if i == 0 then None else Some(log[i - 1].value)
  }

  /** Everything `me` stored from version `from` on refreshes the spec and keeps the status of the
      version it replaced, except that the last version may be the one accepted transition. */
  ghost predicate WroteOnly(log: seq<Entry<Resource>>, from: nat, me: nat, req: Request, accepted: bool) {
    && (forall i :: from <= i < |log| && log[i].writer == me && !(accepted && i == |log| - 1) ==>
          !req.Evict? && SpecRefresh(Before(log, i), log[i].value, req))
    && (accepted ==>
          && |log| > from && |log| >= 2 && log[|log| - 1].writer == me
          && Accepted(log[|log| - 2].value, log[|log| - 1].value, req))
  }

  ghost predicate Foreign(entries: seq<Entry<Resource>>, me: nat) {
    forall e :: e in entries ==> e.writer != me
  }

  lemma WroteOnlyJoins(mid: seq<Entry<Resource>>, log: seq<Entry<Resource>>, from: nat, me: nat, req: Request)
    requires mid <= log && from <= |mid|
    requires WroteOnly(mid, from, me, req, false) && WroteOnly(log, |mid|, me, req, false)
    ensures WroteOnly(log, from, me, req, false)
  {
    forall i | from <= i < |mid| ensures Before(log, i) == Before(mid, i) && log[i] == mid[i] {
    }
  }

  /** What an eviction hands back: session, replica and fence. */
  type Target = (Option<string>, Option<string>, Option<Fence>)

  class ControllerDirectory {

    /** `get_or_create`: the resource in hand is the current version, with this call's spec unless
        the object belongs to another controller. None means a conflicting write came first. */
    static method GetOrCreate(api: Object<Resource>, read: seq<Entry<Resource>>, write: seq<Entry<Resource>>,
                              me: nat, req: Request)
      returns (version: nat, resource: Option<Resource>)
      requires Foreign(read, me) && Foreign(write, me) && !req.Evict?
      modifies api
      ensures old(api.log) <= api.log
      ensures WroteOnly(api.log, |old(api.log)|, me, req, false)
      ensures resource.Some? ==>
        && version == |api.log| > 0 && resource.value == api.log[|api.log| - 1].value
        && (resource.value.spec.id == req.id ==> resource.value.spec == SpecOf(req))
      ensures resource.None? ==> write != []
    {
      var existing;
      version, existing := api.Get(read);
      if existing.None? {
        var created := Resource(SpecOf(req), 1, None);
        var stored := api.Put(write, me, version, created);
        return version + 1, if stored then Some(created) else None;
      }
      if existing.value.spec.id != req.id || existing.value.spec == SpecOf(req) {
        return version, existing;
      }
      var refreshed := existing.value.(spec := SpecOf(req), generation := existing.value.generation + 1);
      var stored := api.Put(write, me, version, refreshed);
      return version + 1, if stored then Some(refreshed) else None;
    }

    /** `get_or_create` and then `replace_status`, retried: `upsert_registration`, `mark_offline`
        and `project_runtime`. Ok(false) means the transition refused the status then current. */
    static method ReplaceStatusWithRetry(api: Object<Resource>, env: Schedule<Resource>, me: nat, req: Request)
      returns (r: Result<bool, Failure>)
      requires Excludes(env, me) && !req.Evict?
      modifies api
      ensures old(api.log) <= api.log
      ensures WroteOnly(api.log, |old(api.log)|, me, req, r == Ok(true))
      ensures r == Ok(false) ==>
        && |api.log| > 0
        && var last := api.log[|api.log| - 1].value;
        last.spec.id == req.id && Transition(req, last.status, last.generation).None?
      ensures r == Err(IdentityCollision) ==> |api.log| > 0 && api.log[|api.log| - 1].value.spec.id != req.id
      ensures r == Err(Contended) ==> forall a: nat :: a < MAX_CONFLICT_RETRIES ==> Disturbed(env, a, 3)
    {
      ghost var start := api.log;
      var attempt := 0;
      while attempt < MAX_CONFLICT_RETRIES
        invariant 0 <= attempt <= MAX_CONFLICT_RETRIES
        invariant start <= api.log
        invariant WroteOnly(api.log, |start|, me, req, false)
        invariant forall a: nat :: a < attempt ==> Disturbed(env, a, 3)
      {
        ghost var mid := api.log;
        var version, resource := GetOrCreate(api, env(3 * attempt), env(3 * attempt + 1), me, req);
        WroteOnlyJoins(mid, api.log, |start|, me, req);
        if resource.Some? {
          if resource.value.spec.id != req.id {
            return Err(IdentityCollision);
          }
          var next := Transition(req, resource.value.status, resource.value.generation);
          if next.None? {
            return Ok(false);
          }
          ghost var held := api.log;
          var others := env(3 * attempt + 2);
          var stored := api.Put(others, me, version, resource.value.(status := next));
          assert stored ==> others == [] && api.log == held + [Entry(resource.value.(status := next), me)];
          if stored {
            return Ok(true);
          }
          WroteOnlyJoins(held, api.log, |start|, me, req);
        }
        attempt := attempt + 1;
      }
      r := Err(Contended);
    }

    /** Session, replica and fence as `s` has them; unfenced without a positive epoch or a token. */
    static predicate Names(target: Target, s: Status) {
      && target.0 == s.session && target.1 == s.replica
      && (target.2.Some? <==> s.epoch > 0 && s.token.Some?)
      && (target.2.Some? ==> target.2.value == Fence(s.token.value, s.epoch))
    }

    /** The edit of one eviction attempt. */
    static method Retire(current: Resource) returns (evicted: Resource, target: Target)
      requires current.status.Some? && !current.status.value.evicted
      ensures Accepted(current, evicted, Evict(current.spec.id)) && ListEntry(evicted).None?
      ensures Names(target, current.status.value)
    {
      var status := current.status.value;
      var fenced := status.epoch > 0 && status.token.Some?;
      var fence := if fenced then Some(Fence(status.token.value, status.epoch)) else None;
      target := (status.session, status.replica, fence);
      status := status.(evicted := true);
      status := status.(phase := Offline);
      status := status.(session := None);
      status := status.(replica := None);
      evicted := current.(status := Some(status));
    }

    /** `evict`: Ok(None) when already absent, otherwise the session, replica and fence that were
        current in the exact version that the eviction replaced. */
    static method EvictController(api: Object<Resource>, env: Schedule<Resource>, me: nat, id: string)
      returns (r: Result<Option<Target>, Failure>)
      requires Excludes(env, me)
      modifies api
      ensures old(api.log) <= api.log
      ensures WroteOnly(api.log, |old(api.log)|, me, Evict(id), r.Ok? && r.value.Some?)
      ensures r.Ok? && r.value.Some? ==>
        && var s := api.log[|api.log| - 2].value.status;
        && s.Some? && !s.value.evicted && Names(r.value.value, s.value)
        && ListEntry(api.log[|api.log| - 1].value).None?
      ensures r.Ok? && r.value.None? ==>
        |api.log| == 0 || ListEntry(api.log[|api.log| - 1].value).None?
      ensures r == Err(IdentityCollision) ==> |api.log| > 0 && api.log[|api.log| - 1].value.spec.id != id
      ensures r == Err(Contended) ==> forall a: nat :: a < MAX_CONFLICT_RETRIES ==> Disturbed(env, a, 2)
    {
      ghost var start := api.log;
      var attempt := 0;
      while attempt < MAX_CONFLICT_RETRIES
        invariant 0 <= attempt <= MAX_CONFLICT_RETRIES
        invariant start <= api.log
        invariant WroteOnly(api.log, |start|, me, Evict(id), false)
        invariant forall a: nat :: a < attempt ==> Disturbed(env, a, 2)
      {
        var version, current := api.Get(env(2 * attempt));
        if current.None? {
          return Ok(None);
        }
        if current.value.spec.id != id {
          return Err(IdentityCollision);
        }
        if current.value.status.None? || current.value.status.value.evicted {
          return Ok(None);
        }
        var evicted, target := Retire(current.value);
        var stored := api.Put(env(2 * attempt + 1), me, version, evicted);
        if stored {
          return Ok(Some(target));
        }
        attempt := attempt + 1;
      }
      r := Err(Contended);
    }
  }
}
