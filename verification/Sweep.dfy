/** The expiry sweep of one listed controller: acquire its owner Lease, project it offline under the
    fresh fence, release (bins/edgion-center-kubernetes/src/lib.rs). */
module Sweep {
  import opened Basics
  import opened ApiServer
  import opened Leases
  import D = Directory

  datatype Failure = OwnerRenewed | ProjectionFailed | ReleaseFailed

  /** What the rest of the cluster does to each object before each request of the sweep. */
  datatype Schedules = Schedules(acquire: Schedule<Lease>, project: Schedule<D.Resource>, release: Schedule<Lease>)

  /** `role_key` of an owner role; the Lease is named by a digest of it, taken as injective. */
  function OwnerRole(id: string): string {
    "controller-owner:" + id
  }

  function OfflineMark(record: D.Record, l: Leadership, observedAt: int): D.Request
    requires record.session.Some?
  {
    D.MarkOffline(record.id, record.session.value, Some(D.Fence(l.token, l.epoch)), observedAt)
  }

  /** The version that the last one replaced. */
  ghost function Replaced(log: seq<Entry<Lease>>): Option<Lease> {
    if |log| < 2 then None else Some(log[|log| - 2].value)
  }

  /** The directory's last version: the listed session, Offline under the sweep's own fence. */
  ghost predicate MarkedOffline(log: seq<Entry<D.Resource>>, record: D.Record, fence: Leadership, observedAt: int) {
    && |log| > 0 && log[|log| - 1].value.spec.id == record.id && log[|log| - 1].value.status.Some?
    && var s := log[|log| - 1].value.status.value;
    && s.phase == D.Offline && s.session == record.session && s.replica.None? && !s.evicted
    && s.token == Some(fence.token) && s.epoch == fence.epoch && s.lastSeen == observedAt
  }

  /** The projection step of the sweep. */
  method ProjectOffline(directory: Object<D.Resource>, env: Schedule<D.Resource>, me: nat, record: D.Record,
                        leadership: Leadership, observedAt: int)
    returns (r: Result<bool, D.Failure>)
    requires Excludes(env, me) && record.session.Some?
    modifies directory
    ensures old(directory.log) <= directory.log
    ensures D.WroteOnly(directory.log, |old(directory.log)|, me, OfflineMark(record, leadership, observedAt),
                        r == Ok(true))
    ensures r == Ok(true) ==> MarkedOffline(directory.log, record, leadership, observedAt)
    ensures Quiet(env) && r.Err? ==>
      |directory.log| > 0 && directory.log[|directory.log| - 1].value.spec.id != record.id
  {
    var mark := OfflineMark(record, leadership, observedAt);
    r := D.ControllerDirectory.ReplaceStatusWithRetry(directory, env, me, mark);
    if r == Ok(true) {
      var was := directory.log[|directory.log| - 2].value;
      D.AcceptedLeaves(mark, was.status, was.generation);
    }
    if Quiet(env) {
      QuietUndisturbed(env, 0, 3);
      assert r.Err? ==> r.error == D.IdentityCollision;
    }
  }

  /** What follows the acquire: the release is attempted whatever became of the projection, and a failed
      projection is what is reported. */
  method ProjectThenRelease(coordinator: LeaseCoordinator, leases: Object<Lease>, directory: Object<D.Resource>,
                            record: D.Record, env: Schedules, me: nat, releaser: nat, held: Leadership,
                            observedAt: int)
    returns (r: Result<bool, Failure>, ghost projection: Result<bool, D.Failure>, ghost dropped: bool)
    requires coordinator.Valid() && held.holder == coordinator.holder && record.session.Some?
    requires Excludes(env.project, me) && Excludes(env.release, releaser)
    modifies leases, directory
    ensures old(directory.log) <= directory.log
    ensures D.WroteOnly(directory.log, |old(directory.log)|, me, OfflineMark(record, held, observedAt),
                        projection == Ok(true))
    ensures projection == Ok(true) ==> MarkedOffline(directory.log, record, held, observedAt)
    ensures exists wrote: bool :: OneEdit(old(leases.log), leases.log, releaser, held, wrote)
    ensures dropped ==> |leases.log| == 0 || !Owns(leases.log[|leases.log| - 1].value, held)
    ensures r == if projection.Err? then Err(ProjectionFailed) else if dropped then Ok(true) else Err(ReleaseFailed)
    ensures Quiet(env.project) && projection.Err? ==>
      |directory.log| > 0 && directory.log[|directory.log| - 1].value.spec.id != record.id
    ensures Quiet(env.release) && !dropped ==>
      leases.log == old(leases.log) && |leases.log| > 0 && leases.log[|leases.log| - 1].value.role != held.role
  {
    var projected := ProjectOffline(directory, env.project, me, record, held, observedAt);
    projection := projected;
    var release := coordinator.Release(leases, env.release, releaser, held);
    dropped := release.Ok?;
    QuietRefusal(leases.log, env.release, held, release);
    if projected.Err? {
      r := Err(ProjectionFailed);
    } else if release.Err? {
      r := Err(ReleaseFailed);
    } else {
      r := Ok(true);
    }
  }

  /** `reconcile_expired_owner`. Without a session, or when the acquire is refused, the directory
      object is not touched; and the acquire succeeds (at attempt `k`) only over a Lease that is free,
      this replica's own, or seen by it unchanged for its whole duration. Otherwise `fence` is the
      leadership just acquired, the directory gets at most the offline mark under exactly that fence
      (`projection`), and the release of exactly that leadership follows whether or not the projection
      succeeded: once it returns (`dropped`), the role is no longer held under that fence. */
  method ReconcileExpiredOwner(coordinator: LeaseCoordinator, leases: Object<Lease>, directory: Object<D.Resource>,
                               record: D.Record, env: Schedules, me: nat, releaser: nat, observedAt: int,
                               clock: nat -> nat, tokens: nat -> string)
    returns (r: Result<bool, Failure>, ghost fence: Option<Leadership>, ghost mid: seq<Entry<Lease>>,
             ghost projection: Result<bool, D.Failure>, ghost dropped: bool, ghost k: nat)
    requires coordinator.Valid()
    requires Excludes(env.acquire, me) && Excludes(env.project, me) && Excludes(env.release, releaser)
    modifies coordinator, leases, directory
    ensures record.session.None? ==> r == Ok(false) && leases.log == old(leases.log)
    ensures r == Err(OwnerRenewed) ==> forall i :: |old(leases.log)| <= i < |leases.log| ==> leases.log[i].writer != me
    ensures fence.None? ==> directory.log == old(directory.log)
    ensures fence.None? <==> record.session.None? || r == Err(OwnerRenewed)
    ensures fence.Some? ==>
      && old(leases.log) <= mid && |mid| > 0 && mid[|mid| - 1].writer == me
      && mid[|mid| - 1].value.token == Some(fence.value.token) && mid[|mid| - 1].value.epoch == fence.value.epoch
      && fence.value.holder == coordinator.holder
      && k < MAX_CONFLICT_RETRIES
      && MayReplace(Replaced(mid), |mid| - 1, coordinator.observations, OwnerRole(record.id),
                    coordinator.holder, clock(k))
      && old(directory.log) <= directory.log
      && D.WroteOnly(directory.log, |old(directory.log)|, me, OfflineMark(record, fence.value, observedAt),
                     projection == Ok(true))
      && (projection == Ok(true) ==> MarkedOffline(directory.log, record, fence.value, observedAt))
      && (exists wrote: bool :: OneEdit(mid, leases.log, releaser, fence.value, wrote))
    ensures dropped ==> fence.Some? && (|leases.log| == 0 || !Owns(leases.log[|leases.log| - 1].value, fence.value))
    ensures r == Err(ProjectionFailed) <==> fence.Some? && projection.Err?
    ensures r == Ok(true) <==> fence.Some? && projection.Ok? && dropped
    ensures r == Err(ReleaseFailed) <==> fence.Some? && projection.Ok? && !dropped
    ensures Quiet(env.acquire) && record.session.Some? ==>
      var last := LastOf(old(leases.log));
      (fence.Some? <==>
         && Fits(last, OwnerRole(record.id))
         && MayReplace(last, |old(leases.log)|, coordinator.observations, OwnerRole(record.id),
                       coordinator.holder, clock(0)))
    ensures Quiet(env.acquire) && Quiet(env.project) && Quiet(env.release) && fence.Some? ==>
      || r == Ok(true)
      || (r == Err(ProjectionFailed) && |directory.log| > 0
          && directory.log[|directory.log| - 1].value.spec.id != record.id)
  {
    fence, mid, projection, dropped, k := None, [], Ok(false), false, 0;
    if record.session.None? {
      r := Ok(false);
      return;
    }
    var role := OwnerRole(record.id);
    var leadership, attempt := coordinator.Acquire(leases, env.acquire, me, role, role, clock, tokens);
    k := attempt;
    if leadership.Err? {
      r := Err(OwnerRenewed);
      return;
    }
    fence, mid := Some(leadership.value), leases.log;
    r, projection, dropped :=
      ProjectThenRelease(coordinator, leases, directory, record, env, me, releaser, leadership.value, observedAt);
  }
}
