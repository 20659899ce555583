/** The composed system for one controller: its owner Lease and its directory resource, with any
    number of replicas registering, projecting, sweeping and evicting concurrently. Every read and
    every compare-and-swap of both objects is its own step. A fenced directory call carries a fence
    that some acquire of this Lease returned. (bins/edgion-center-kubernetes/src/lib.rs) */
module Ownership {
  import opened Basics
  import opened Directory
  import M = LeaseMachine

  /** Directory calls in flight: the resource was absent, had another spec, or is in hand. */
  datatype Call =
    | Missing(req: Request)
    | Outdated(req: Request, version: nat)
    | Holding(req: Request, version: nat)

  datatype World = World(lease: M.State, log: seq<Resource>, calls: map<nat, Call>)

  datatype Event =
    | Leased(step: M.Event)
    | Read(id: nat, req: Request)  // the read of `get_or_create` or of `evict` is served
    | Create(id: nat)              // the object is created without a status
    | Refresh(id: nat)             // the swap that rewrites the spec succeeds
    | Write(id: nat)               // the status swap succeeds
    | Refuse(id: nat)              // the transition refuses the status in hand
    | Abandon(id: nat)             // refused swap, crash or lost answer

  const Init := World(M.Init, [], map[])

  ghost predicate Issued(w: World, f: Fence) {
    exists l :: l in w.lease.fences && l.token == f.token && l.epoch == f.epoch
  }

  function StatusOf(w: World): Option<Status> {
    if |w.log| == 0 then None else w.log[|w.log| - 1].status
  }

  /** The transition a call in hand would make. */
  function Outcome(w: World, c: Call): Option<Status>
    requires c.Holding? && 1 <= c.version <= |w.log|
  {
    var res := w.log[c.version - 1];
    Transition(c.req, res.status, res.generation)
  }

  predicate InHand(w: World, id: nat) {
    id in w.calls && w.calls[id].Holding? && 1 <= w.calls[id].version <= |w.log|
  }

  ghost predicate Enabled(w: World, e: Event) {
    match e
    case Leased(step) => M.Enabled(w.lease, step)
    case Read(id, req) =>
      && id !in w.calls
      && (FenceOf(req).Some? ==> Issued(w, FenceOf(req).value))
      && (req.Evict? ==> |w.log| > 0)
    case Create(id) => id in w.calls && w.calls[id].Missing? && |w.log| == 0
    case Refresh(id) => id in w.calls && w.calls[id].Outdated? && 1 <= w.calls[id].version == |w.log|
    case Write(id) => InHand(w, id) && w.calls[id].version == |w.log| && Outcome(w, w.calls[id]).Some?
    case Refuse(id) => InHand(w, id) && Outcome(w, w.calls[id]).None?
    case Abandon(id) => id in w.calls
  }

  function ReadStep(w: World, id: nat, req: Request): World {
    var c := if req.Evict? then Holding(req, |w.log|)
             else if |w.log| == 0 then Missing(req)
             else if w.log[|w.log| - 1].spec != SpecOf(req) then Outdated(req, |w.log|)
             else Holding(req, |w.log|);
    w.(calls := w.calls[id := c])
  }

  ghost function Apply(w: World, e: Event): World
    requires Enabled(w, e)
  {
    match e
    case Leased(step) => w.(lease := M.Apply(w.lease, step))
    case Read(id, req) => ReadStep(w, id, req)
    case Create(id) =>
      var req := w.calls[id].req;
      w.(log := [Resource(SpecOf(req), 1, None)], calls := w.calls[id := Holding(req, 1)])
    case Refresh(id) =>
      var req, was := w.calls[id].req, w.log[|w.log| - 1];
      w.(log := w.log + [was.(spec := SpecOf(req), generation := was.generation + 1)],
         calls := w.calls[id := Holding(req, |w.log| + 1)])
    case Write(id) =>
      w.(log := w.log + [w.log[|w.log| - 1].(status := Outcome(w, w.calls[id]))], calls := w.calls - {id})
    case Refuse(id) => w.(calls := w.calls - {id})
    case Abandon(id) => w.(calls := w.calls - {id})
  }

  ghost predicate StepAt(ws: seq<World>, es: seq<Event>, i: nat)
    requires |ws| == |es| + 1 && i < |es|
  {
    Enabled(ws[i], es[i]) && ws[i + 1] == Apply(ws[i], es[i])
  }

  ghost predicate IsRun(ws: seq<World>, es: seq<Event>) {
    |ws| == |es| + 1 && ws[0] == Init && forall i: nat :: i < |es| ==> StepAt(ws, es, i)
  }

  /** The request whose status swap succeeds at step i. */
  ghost predicate Writes(ws: seq<World>, es: seq<Event>, i: nat, req: Request)
    requires IsRun(ws, es)
  {
    i < |es| && es[i].Write? && es[i].id in ws[i].calls && ws[i].calls[es[i].id].req == req
  }

  // ---------------------------------------------------------------- invariant

  ghost predicate StatusFenced(w: World, s: Option<Status>) {
    s.Some? ==>
      (if s.value.epoch == 0 then s.value.token.None?
       else s.value.token.Some? && Issued(w, Fence(s.value.token.value, s.value.epoch)))
  }

  ghost predicate CallOk(w: World, c: Call) {
    && (FenceOf(c.req).Some? ==> Issued(w, FenceOf(c.req).value))
    && (!c.Missing? ==> 1 <= c.version <= |w.log|)
  }

  ghost predicate Inv(w: World) {
    && M.Inv(w.lease)
    && (forall v :: 0 <= v < |w.log| ==> StatusFenced(w, w.log[v].status))
    && (forall id :: id in w.calls ==> CallOk(w, w.calls[id]))
  }

  ghost predicate Extends(w: World, x: World) {
    M.Extends(w.lease, x.lease) && w.log <= x.log
  }

  lemma StepExtends(w: World, e: Event)
    requires Enabled(w, e)
    ensures Extends(w, Apply(w, e))
  {
    if e.Leased? {
      M.StepExtends(w.lease, e.step);
    }
  }

  lemma IssuedStays(w: World, x: World, f: Fence)
    requires Extends(w, x) && Issued(w, f)
    ensures Issued(x, f)
  {
    var l :| l in w.lease.fences && l.token == f.token && l.epoch == f.epoch;
    assert l in x.lease.fences;
  }

  lemma EpochZeroNeverIssued(w: World, f: Fence)
    requires M.Inv(w.lease) && Issued(w, f)
    ensures 1 <= f.epoch <= |w.lease.fences| && w.lease.fences[f.epoch - 1].token == f.token
  {
  }

  lemma FencesStay(w: World, x: World)
    requires Extends(w, x)
    ensures forall s :: StatusFenced(w, s) ==> StatusFenced(x, s)
    ensures forall c :: CallOk(w, c) ==> CallOk(x, c)
  {
    forall f | Issued(w, f) ensures Issued(x, f) {
      IssuedStays(w, x, f);
    }
  }

  lemma OutcomeFenced(w: World, c: Call)
    requires Inv(w) && c.Holding? && CallOk(w, c) && Outcome(w, c).Some?
    ensures StatusFenced(w, Outcome(w, c))
  {
    assert StatusFenced(w, w.log[c.version - 1].status);
    if FenceOf(c.req).Some? {
      EpochZeroNeverIssued(w, FenceOf(c.req).value);
    }
  }

  lemma StepKeepsInv(w: World, e: Event)
    requires Inv(w) && Enabled(w, e)
    ensures Inv(Apply(w, e))
  {
    StepExtends(w, e);
    FencesStay(w, Apply(w, e));
    match e
    case Leased(step) => M.StepKeepsInv(w.lease, step);
    case Write(id) => OutcomeFenced(w, w.calls[id]);
    case _ =>
  }

  lemma {:induction false} InvAt(ws: seq<World>, es: seq<Event>, i: nat)
    requires IsRun(ws, es) && i < |ws|
    ensures Inv(ws[i])
  {
    if i > 0 {
      InvAt(ws, es, i - 1);
      assert StepAt(ws, es, i - 1);
      StepKeepsInv(ws[i - 1], es[i - 1]);
    }
  }

  lemma {:induction false} ExtendsBetween(ws: seq<World>, es: seq<Event>, i: nat, j: nat)
    requires IsRun(ws, es) && i <= j < |ws|
    ensures Extends(ws[i], ws[j])
    decreases j
  {
    if i < j {
      ExtendsBetween(ws, es, i, j - 1);
      assert StepAt(ws, es, j - 1);
      StepExtends(ws[j - 1], es[j - 1]);
    }
  }

  // ---------------------------------------------------------------- fencing over whole runs

  /** In every reachable state, each stored status is unfenced or carries the fence of an acquire
      already stored, so its epoch never exceeds the Lease's. */
  lemma EpochNeverAhead(ws: seq<World>, es: seq<Event>, i: nat, v: nat)
    requires IsRun(ws, es) && i < |ws| && v < |ws[i].log| && ws[i].log[v].status.Some?
    ensures var s := ws[i].log[v].status.value;
      && s.epoch <= (if |ws[i].lease.log| == 0 then 0 else M.Current(ws[i].lease).value.epoch)
      && s.epoch <= |ws[i].lease.fences|
      && (s.epoch > 0 ==> s.token == Some(ws[i].lease.fences[s.epoch - 1].token))
      && (s.epoch == 0 ==> s.token.None?)
  {
    InvAt(ws, es, i);
    var s := ws[i].log[v].status.value;
    assert StatusFenced(ws[i], ws[i].log[v].status);
    if s.epoch > 0 {
      EpochZeroNeverIssued(ws[i], Fence(s.token.value, s.epoch));
    }
  }

  /** Two statuses stored anywhere in a run at the same epoch carry the same token. */
  lemma SameEpochSameToken(ws: seq<World>, es: seq<Event>, i: nat, j: nat, u: nat, v: nat)
    requires IsRun(ws, es) && i <= j < |ws| && u < |ws[i].log| && v < |ws[j].log|
    requires ws[i].log[u].status.Some? && ws[j].log[v].status.Some?
    requires ws[i].log[u].status.value.epoch == ws[j].log[v].status.value.epoch
    ensures ws[i].log[u].status.value.token == ws[j].log[v].status.value.token
  {
    EpochNeverAhead(ws, es, i, u);
    EpochNeverAhead(ws, es, j, v);
    ExtendsBetween(ws, es, i, j);
  }

  /** One step: the status stays, or one call's accepted transition replaces it. */
  lemma StatusStep(w: World, e: Event)
    requires Inv(w) && Enabled(w, e)
    ensures !e.Write? ==> StatusOf(Apply(w, e)) == StatusOf(w)
    ensures e.Write? ==>
      && |w.log| > 0
      && StatusOf(Apply(w, e)) == Transition(w.calls[e.id].req, StatusOf(w), w.log[|w.log| - 1].generation)
      && StatusOf(Apply(w, e)).Some?
  {
  }

  /** Over every interleaving (epoch, observation time) never decreases. */
  lemma {:induction false} NeverGoesBack(ws: seq<World>, es: seq<Event>, i: nat, j: nat)
    requires IsRun(ws, es) && i <= j < |ws|
    ensures NotAfter(StatusOf(ws[i]), StatusOf(ws[j]))
    decreases j
  {
    if i < j {
      NeverGoesBack(ws, es, i, j - 1);
      assert StepAt(ws, es, j - 1);
      InvAt(ws, es, j - 1);
      StatusStep(ws[j - 1], es[j - 1]);
      if es[j - 1].Write? {
        var w := ws[j - 1];
        TransitionsAdvance(w.calls[es[j - 1].id].req, StatusOf(w), w.log[|w.log| - 1].generation);
      }
    }
  }

  /** Every accepted registration is strictly newer than every status that was current before it. */
  lemma RegistrationIsNewer(ws: seq<World>, es: seq<Event>, i: nat, j: nat, req: Request)
    requires IsRun(ws, es) && i <= j && Writes(ws, es, j, req) && req.Register?
    ensures Precedes(StatusOf(ws[i]), StatusOf(ws[j + 1]))
  {
    NeverGoesBack(ws, es, i, j);
    assert StepAt(ws, es, j);
    InvAt(ws, es, j);
    StatusStep(ws[j], es[j]);
    TransitionsAdvance(req, StatusOf(ws[j]), ws[j].log[|ws[j].log| - 1].generation);
  }

  /** Once a status at epoch e > 0 was current, no unfenced call and no call with a lower epoch ever
      changes the status again; only eviction can. */
  lemma StaleCallsNeverWrite(ws: seq<World>, es: seq<Event>, i: nat, j: nat, req: Request)
    requires IsRun(ws, es) && i <= j && Writes(ws, es, j, req)
    requires StatusOf(ws[i]).Some? && StatusOf(ws[i]).value.epoch > 0
    ensures req.Evict? || (FenceOf(req).Some? && FenceOf(req).value.epoch >= StatusOf(ws[i]).value.epoch)
  {
    NeverGoesBack(ws, es, i, j);
    assert StepAt(ws, es, j);
    InvAt(ws, es, j);
    OlderFencesRefused(req, StatusOf(ws[j]).value, ws[j].log[|ws[j].log| - 1].generation);
  }

  // ---------------------------------------------------------------- eviction

  /** Eviction is durable: from an evicted status on, as long as no registration is accepted, the
      status does not change at all, nothing is listed, and no call's status swap succeeds; the
      registration that ends this is strictly newer. */
  lemma {:induction false} EvictionIsDurable(ws: seq<World>, es: seq<Event>, i: nat, j: nat)
    requires IsRun(ws, es) && i <= j < |ws|
    requires StatusOf(ws[i]).Some? && StatusOf(ws[i]).value.evicted
    requires forall k, req :: i <= k < j && Writes(ws, es, k, req) ==> !req.Register?
    ensures StatusOf(ws[j]) == StatusOf(ws[i])
    ensures |ws[j].log| > 0 && ListEntry(ws[j].log[|ws[j].log| - 1]).None?
    ensures forall req :: Writes(ws, es, j, req) ==> req.Register? && Precedes(StatusOf(ws[i]), StatusOf(ws[j + 1]))
    decreases j
  {
    InvAt(ws, es, j);
    if i < j {
      EvictionIsDurable(ws, es, i, j - 1);
      assert StepAt(ws, es, j - 1);
      InvAt(ws, es, j - 1);
      StatusStep(ws[j - 1], es[j - 1]);
      if es[j - 1].Write? {
        assert Writes(ws, es, j - 1, ws[j - 1].calls[es[j - 1].id].req);
      }
    }
    forall req | Writes(ws, es, j, req)
      ensures req.Register? && Precedes(StatusOf(ws[i]), StatusOf(ws[j + 1]))
    {
      assert StepAt(ws, es, j);
      StatusStep(ws[j], es[j]);
      if req.Register? {
        RegistrationIsNewer(ws, es, i, j, req);
      }
    }
  }

  /** A committed evict leaves an evicted status, whatever was in flight. */
  lemma EvictEvicts(ws: seq<World>, es: seq<Event>, i: nat, req: Request)
    requires IsRun(ws, es) && Writes(ws, es, i, req) && req.Evict?
    ensures StatusOf(ws[i + 1]).Some? && StatusOf(ws[i + 1]).value.evicted
    ensures StatusOf(ws[i]).Some? && StatusOf(ws[i + 1]).value == Evicted(StatusOf(ws[i]).value)
  {
    assert StepAt(ws, es, i);
    InvAt(ws, es, i);
    StatusStep(ws[i], es[i]);
  }

  // ---------------------------------------------------------------- sweep against owner

  predicate Carries(req: Request, epoch: nat) {
    FenceOf(req).Some? && FenceOf(req).value.epoch == epoch
  }

  /** A new version keeps the epoch of the one before it, or takes that of the fence it is written under. */
  lemma NewEpoch(w: World, e: Event)
    requires Inv(w) && Enabled(w, e)
    ensures var x := Apply(w, e);
      && w.log <= x.log && |x.log| <= |w.log| + 1
      && (|x.log| > |w.log| && StatusOf(x).Some? && StatusOf(x).value.epoch > 0 ==>
            || (StatusOf(w).Some? && StatusOf(w).value.epoch == StatusOf(x).value.epoch)
            || (e.Write? && Carries(w.calls[e.id].req, StatusOf(x).value.epoch)))
  {
    StepExtends(w, e);
  }

  /** A stored epoch was brought in by some call's fence. */
  lemma {:induction false} EpochWasWritten(ws: seq<World>, es: seq<Event>, i: nat, v: nat)
    returns (k: nat, req: Request)
    requires IsRun(ws, es) && i < |ws| && v < |ws[i].log|
    requires ws[i].log[v].status.Some? && ws[i].log[v].status.value.epoch > 0
    ensures k < i && Writes(ws, es, k, req)
    ensures FenceOf(req).Some? && FenceOf(req).value.epoch == ws[i].log[v].status.value.epoch
  {
    var w := ws[i - 1];
    assert StepAt(ws, es, i - 1);
    InvAt(ws, es, i - 1);
    NewEpoch(w, es[i - 1]);
    if v < |w.log| {
      k, req := EpochWasWritten(ws, es, i - 1, v);
    } else if es[i - 1].Write? && FenceOf(w.calls[es[i - 1].id].req).Some?
              && FenceOf(w.calls[es[i - 1].id].req).value.epoch == ws[i].log[v].status.value.epoch {
      k, req := i - 1, w.calls[es[i - 1].id].req;
    } else {
      k, req := EpochWasWritten(ws, es, i - 1, v - 1);
    }
  }

  /** A registration is refused only on account of a call whose fence is at least as new. */
  lemma OwnerRefusedOnlyByNewer(ws: seq<World>, es: seq<Event>, i: nat) returns (k: nat, req: Request)
    requires IsRun(ws, es) && i < |es| && es[i].Refuse? && Enabled(ws[i], es[i])
    requires ws[i].calls[es[i].id].req.Register? && ws[i].calls[es[i].id].req.fence.Some?
    ensures k < i && Writes(ws, es, k, req)
    ensures FenceOf(req).Some? && FenceOf(req).value.epoch >= ws[i].calls[es[i].id].req.fence.value.epoch
  {
    InvAt(ws, es, i);
    var c := ws[i].calls[es[i].id];
    assert CallOk(ws[i], c);
    EpochZeroNeverIssued(ws[i], c.req.fence.value);
    k, req := EpochWasWritten(ws, es, i, c.version - 1);
  }

  /** A call that could take an owner's Online status away: eviction, or a registration or offline
      mark under a fence at least as new. */
  predicate CanUnseat(req: Request, epoch: nat) {
    req.Evict? || (!req.ProjectRuntime? && FenceOf(req).Some? && FenceOf(req).value.epoch >= epoch)
  }

  /** Once an owner's registration is stored it stays Online with its session, replica and fence
      for as long as nothing newer writes, whatever older calls are still in flight. */
  lemma {:induction false} OwnerStaysOnline(ws: seq<World>, es: seq<Event>, i: nat, j: nat, owner: Request)
    requires IsRun(ws, es) && i < j < |ws| && Writes(ws, es, i, owner) && owner.Register? && owner.fence.Some?
    requires forall k, req :: i < k < j && Writes(ws, es, k, req) ==> !CanUnseat(req, owner.fence.value.epoch)
    ensures StatusOf(ws[j]).Some?
    ensures var s := StatusOf(ws[j]).value;
      && s.phase == Online && !s.evicted && s.session == Some(owner.session) && s.replica == owner.replica
      && s.epoch == owner.fence.value.epoch > 0 && s.token == Some(owner.fence.value.token)
    decreases j
  {
    assert StepAt(ws, es, j - 1);
    InvAt(ws, es, j - 1);
    StatusStep(ws[j - 1], es[j - 1]);
    if j == i + 1 {
      assert CallOk(ws[i], ws[i].calls[es[i].id]);
      EpochZeroNeverIssued(ws[i], owner.fence.value);
    } else {
      OwnerStaysOnline(ws, es, i, j - 1, owner);
      if es[j - 1].Write? {
        assert Writes(ws, es, j - 1, ws[j - 1].calls[es[j - 1].id].req);
      }
    }
  }

  /** Sweep against fresh owner. The sweep's fence was issued before the owner's, so the sweep's
      offline mark (1) is never what gets the owner's registration refused, and (2) is never written
      once the owner's registration is stored. */
  lemma SweepCannotDisplaceOwner(ws: seq<World>, es: seq<Event>, a: nat, b: nat, owner: Request, sweep: Request, i: nat)
    requires IsRun(ws, es) && i < |es| && a < b < |ws[i].lease.fences|
    requires owner.Register? && sweep.MarkOffline? && sweep.fence.Some? && owner.fence.Some?
    requires sweep.fence.value == Fence(ws[i].lease.fences[a].token, ws[i].lease.fences[a].epoch)
    requires owner.fence.value == Fence(ws[i].lease.fences[b].token, ws[i].lease.fences[b].epoch)
    ensures sweep.fence.value.epoch < owner.fence.value.epoch && !CanUnseat(sweep, owner.fence.value.epoch)
    ensures es[i].Refuse? && Enabled(ws[i], es[i]) && ws[i].calls[es[i].id].req == owner ==>
      exists k: nat, req: Request ::
        && k < i && Writes(ws, es, k, req) && req != sweep
        && FenceOf(req).Some? && FenceOf(req).value.epoch >= owner.fence.value.epoch
    ensures forall k: nat :: k < i && Writes(ws, es, k, owner) ==> !Writes(ws, es, i, sweep)
  {
    InvAt(ws, es, i);
    if es[i].Refuse? && Enabled(ws[i], es[i]) && ws[i].calls[es[i].id].req == owner {
      var k, req := OwnerRefusedOnlyByNewer(ws, es, i);
    }
    forall k: nat | k < i && Writes(ws, es, k, owner) ensures !Writes(ws, es, i, sweep) {
      if Writes(ws, es, i, sweep) {
        assert StepAt(ws, es, k);
        InvAt(ws, es, k);
        StatusStep(ws[k], es[k]);
        StaleCallsNeverWrite(ws, es, k + 1, i, sweep);
      }
    }
  }
}
