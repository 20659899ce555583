/** Sweeps against a live owner, in time: what keeps an owner Online that renews its Lease, and how a sweep
    by the owner's own replica escapes that (bins/edgion-center-kubernetes/src/lib.rs, lease.rs and
    owner_locator.rs of crates/center-adapter-kubernetes/src). */
module OwnerSweeps {
  import opened Basics
  import opened Directory
  import opened Leases
  import opened Ownership
  import M = LeaseMachine

  // ---------------------------------------------------------------- the Lease inside a run

  ghost function LeaseEvents(es: seq<Event>): seq<M.Event> {
    if |es| == 0 then []
    else
      var n := |es| - 1;
      LeaseEvents(es[..n]) + if es[n].Leased? then [es[n].step] else []
  }

  ghost function LeaseStates(ws: seq<World>, es: seq<Event>): seq<M.State>
    requires |ws| == |es| + 1
  {
    if |es| == 0 then [ws[0].lease]
    else
      var n := |es| - 1;
      LeaseStates(ws[..n + 1], es[..n]) + if es[n].Leased? then [ws[n + 1].lease] else []
  }

  lemma RunPrefix(ws: seq<World>, es: seq<Event>, n: nat)
    requires IsRun(ws, es) && n <= |es|
    ensures IsRun(ws[..n + 1], es[..n])
  {
    var vs, ds := ws[..n + 1], es[..n];
    forall i: nat | i < n ensures StepAt(vs, ds, i) {
      assert StepAt(ws, es, i);
    }
  }

  /** The Lease steps of any run are a run of the Lease alone. */
  lemma {:induction false} LeaseRun(ws: seq<World>, es: seq<Event>)
    requires IsRun(ws, es)
    ensures M.IsRun(LeaseStates(ws, es), LeaseEvents(es))
    ensures LeaseStates(ws, es)[|LeaseEvents(es)|] == ws[|es|].lease
  {
    if |es| > 0 {
      var n := |es| - 1;
      RunPrefix(ws, es, n);
      LeaseRun(ws[..n + 1], es[..n]);
      assert StepAt(ws, es, n);
      if es[n].Leased? {
        M.AppendStep(LeaseStates(ws[..n + 1], es[..n]), LeaseEvents(es[..n]), es[n].step);
      } else {
        assert LeaseStates(ws, es) == LeaseStates(ws[..n + 1], es[..n]) && LeaseEvents(es) == LeaseEvents(es[..n]);
      }
    }
  }

  /** Every acquire of `holder` in a run had its read served within `delay` of its clock sample. */
  ghost predicate Prompt(ws: seq<World>, es: seq<Event>, holder: string, delay: nat)
    requires IsRun(ws, es)
  {
    forall i: nat :: i < |es| && es[i].Leased? && es[i].step.Fetch? ==>
      M.PromptRead(ws[i].lease, es[i].step.id, holder, delay)
  }

  lemma {:induction false} LeasePrompt(ws: seq<World>, es: seq<Event>, holder: string, delay: nat)
    requires IsRun(ws, es) && Prompt(ws, es, holder, delay)
    ensures M.IsRun(LeaseStates(ws, es), LeaseEvents(es))
    ensures M.Prompt(LeaseStates(ws, es), LeaseEvents(es), holder, delay)
  {
    LeaseRun(ws, es);
    if |es| > 0 {
      var n := |es| - 1;
      var vs, ds := ws[..n + 1], es[..n];
      RunPrefix(ws, es, n);
      LeasePrompt(vs, ds, holder, delay);
      LeaseRun(vs, ds);
      if es[n].Leased? {
        PromptAppends(LeaseStates(vs, ds), LeaseEvents(ds), ws[n + 1].lease, es[n].step, holder, delay);
      }
    }
  }

  lemma PromptAppends(ss: seq<M.State>, es: seq<M.Event>, t: M.State, e: M.Event, holder: string, delay: nat)
    requires M.IsRun(ss, es) && M.Prompt(ss, es, holder, delay) && M.IsRun(ss + [t], es + [e])
    requires e.Fetch? ==> M.PromptRead(ss[|es|], e.id, holder, delay)
    ensures M.Prompt(ss + [t], es + [e], holder, delay)
  {
    var ts, ds := ss + [t], es + [e];
    forall i: nat | i < |ds| && ds[i].Fetch? ensures M.PromptRead(ts[i], ds[i].id, holder, delay) {
      if i < |es| {
        assert ds[i] == es[i] && ts[i] == ss[i];
      }
    }
  }

  /** A replica other than the holder has to wait: an acquire over a Lease that is held and not released
      is stored no earlier than its duration, less the read delay, after the version it replaces. */
  lemma OtherReplicaWaits(ws: seq<World>, es: seq<Event>, delay: nat, i: nat)
    requires IsRun(ws, es) && i < |es| && es[i].Leased? && es[i].step.Acquire? && Enabled(ws[i], es[i])
    requires |ws[i].lease.log| > 0 && M.Current(ws[i].lease).value.holder.Some?
    requires var h := ws[i].lease.calls[es[i].step.id].who.holder;
      M.Current(ws[i].lease).value.holder != Some(h) && Prompt(ws, es, h, delay)
    ensures var l := ws[i].lease;
      l.log[|l.log| - 1].at + M.Current(l).value.seconds * TICKS_PER_SECOND <= l.now + delay
  {
    var h := ws[i].lease.calls[es[i].step.id].who.holder;
    var vs, ds := ws[..i + 2], es[..i + 1];
    RunPrefix(ws, es, i + 1);
    assert Prompt(vs, ds, h, delay);
    LeasePrompt(vs, ds, h, delay);
    assert ds[..i] == es[..i] && vs[..i + 1] == ws[..i + 1];
    RunPrefix(ws, es, i);
    LeaseRun(ws[..i + 1], es[..i]);
    var n := |LeaseEvents(es[..i])|;
    assert LeaseEvents(ds)[n] == es[i].step && LeaseStates(vs, ds)[n] == ws[i].lease;
    M.SturdyAt(LeaseStates(vs, ds), LeaseEvents(ds), n);
    M.TakeoverWaits(LeaseStates(vs, ds), LeaseEvents(ds), delay, n);
  }

  // ---------------------------------------------------------------- an owner that renews

  /** At this step the current version is younger than its duration less `delay`, and its holder neither
      releases it nor acquires it anew. */
  ghost predicate KeptUp(w: World, e: Event, holder: string, delay: nat)
    requires Enabled(w, e)
  {
    && |w.lease.log| > 0
    && w.lease.now + delay < w.lease.log[|w.lease.log| - 1].at + M.Current(w.lease).value.seconds * TICKS_PER_SECOND
    && (e.Leased? && e.step.Acquire? ==> w.lease.calls[e.step.id].who.holder != holder)
    && (e.Leased? && e.step.Keep? ==> !w.lease.calls[e.step.id].releasing)
  }

  ghost predicate KeptUpBetween(ws: seq<World>, es: seq<Event>, i: nat, j: nat, holder: string, delay: nat)
    requires IsRun(ws, es) && j <= |es|
  {
    forall m: nat :: i <= m < j ==> KeptUpAt(ws, es, m, holder, delay)
  }

  ghost predicate KeptUpAt(ws: seq<World>, es: seq<Event>, m: nat, holder: string, delay: nat)
    requires IsRun(ws, es) && m < |es|
  {
    StepAt(ws, es, m) && KeptUp(ws[m], es[m], holder, delay)
  }

  ghost predicate OthersPrompt(ws: seq<World>, es: seq<Event>, holder: string, delay: nat)
    requires IsRun(ws, es)
  {
    forall h :: h != holder ==> Prompt(ws, es, h, delay)
  }

  /** The Lease is held under `f`, the last fence issued. */
  ghost predicate HeldUnder(l: M.State, f: Leadership) {
    |l.log| > 0 && Owns(M.Current(l).value, f) && |l.fences| == f.epoch
  }

  lemma OwnerKeepsLeaseStep(ws: seq<World>, es: seq<Event>, m: nat, f: Leadership, delay: nat)
    requires IsRun(ws, es) && m < |es| && OthersPrompt(ws, es, f.holder, delay)
    requires HeldUnder(ws[m].lease, f) && KeptUpAt(ws, es, m, f.holder, delay)
    ensures HeldUnder(ws[m + 1].lease, f)
  {
    if es[m].Leased? && es[m].step.Acquire? {
      OtherReplicaWaits(ws, es, delay, m);
    }
  }

  /** A Lease that is renewed in time stays with its holder, under the same fence. */
  lemma {:induction false} OwnerKeepsLease(ws: seq<World>, es: seq<Event>, i: nat, j: nat, f: Leadership, delay: nat)
    requires IsRun(ws, es) && i <= j <= |es| && OthersPrompt(ws, es, f.holder, delay)
    requires HeldUnder(ws[i].lease, f) && KeptUpBetween(ws, es, i, j, f.holder, delay)
    ensures HeldUnder(ws[j].lease, f)
    decreases j
  {
    if i < j {
      OwnerKeepsLease(ws, es, i, j - 1, f, delay);
      assert KeptUpAt(ws, es, j - 1, f.holder, delay);
      OwnerKeepsLeaseStep(ws, es, j - 1, f, delay);
    }
  }

  /** A write with which the owner itself, or an eviction, ends the registration. */
  predicate EndedBy(req: Request, owner: Request) {
    req.Evict? || (!req.ProjectRuntime? && FenceOf(req).Some? && FenceOf(req) == FenceOf(owner))
  }

  /** While the Lease stays held under the owner's fence, nobody else has a fence that could unseat it. */
  lemma NobodyElseUnseats(ws: seq<World>, es: seq<Event>, k: nat, req: Request, owner: Request, f: Leadership)
    requires IsRun(ws, es) && Writes(ws, es, k, req) && HeldUnder(ws[k].lease, f)
    requires owner.Register? && owner.fence == Some(Fence(f.token, f.epoch)) && !EndedBy(req, owner)
    ensures !CanUnseat(req, f.epoch)
  {
    InvAt(ws, es, k);
    assert StepAt(ws, es, k);
    assert CallOk(ws[k], ws[k].calls[es[k].id]);
    if FenceOf(req).Some? && FenceOf(req).value.epoch >= f.epoch {
      var l :| l in ws[k].lease.fences && l.token == FenceOf(req).value.token && l.epoch == FenceOf(req).value.epoch;
      var x :| 0 <= x < |ws[k].lease.fences| && ws[k].lease.fences[x] == l;
      assert x == |ws[k].lease.fences| - 1;
    }
  }

  /** End to end: an owner whose registration is stored while it holds the Lease, and whose Lease is renewed
      before its duration less the read delay has passed, stays Online with its session, replica and fence
      whatever the other replicas sweep, until it or an eviction ends the registration. */
  lemma RenewedOwnerStaysOnline(ws: seq<World>, es: seq<Event>, i: nat, j: nat, owner: Request, f: Leadership,
                                delay: nat)
    requires IsRun(ws, es) && i < j <= |es| && Writes(ws, es, i, owner) && owner.Register?
    requires owner.fence == Some(Fence(f.token, f.epoch)) && HeldUnder(ws[i].lease, f)
    requires OthersPrompt(ws, es, f.holder, delay) && KeptUpBetween(ws, es, i, j, f.holder, delay)
    requires forall k, req :: i < k < j && Writes(ws, es, k, req) ==> !EndedBy(req, owner)
    ensures StatusOf(ws[j]).Some?
    ensures var s := StatusOf(ws[j]).value;
      && s.phase == Online && !s.evicted && s.session == Some(owner.session) && s.replica == owner.replica
      && s.epoch == f.epoch && s.token == Some(f.token)
  {
    forall k, req | i < k < j && Writes(ws, es, k, req) ensures !CanUnseat(req, f.epoch) {
      OwnerKeepsLease(ws, es, i, k, f, delay);
      NobodyElseUnseats(ws, es, k, req, owner, f);
    }
    OwnerStaysOnline(ws, es, i, j, owner);
  }

  // ---------------------------------------------------------------- sweep by the owner's own replica

  lemma ExtendRun(ws: seq<World>, es: seq<Event>, e: Event) returns (vs: seq<World>, ds: seq<Event>)
    requires IsRun(ws, es) && Enabled(ws[|es|], e)
    ensures vs == ws + [Apply(ws[|es|], e)] && ds == es + [e] && IsRun(vs, ds)
  {
    vs, ds := ws + [Apply(ws[|es|], e)], es + [e];
    forall i: nat | i < |ds| ensures StepAt(vs, ds, i) {
      if i < |es| {
        assert StepAt(ws, es, i);
      }
    }
  }

  /** A replica that holds the Lease under `role`. */
  predicate HeldBy(l: M.State, who: M.Replica, role: string) {
    && who.holder != "" && 3 <= who.seconds <= I32_MAX && |l.log| > 0
    && var lease := M.Current(l).value;
    lease.role == role && lease.epoch < U64_MAX && lease.holder == Some(who.holder)
  }

  lemma ReadsOwn(ws: seq<World>, es: seq<Event>, id: nat, who: M.Replica, role: string, token: string)
    returns (vs: seq<World>, ds: seq<Event>)
    requires IsRun(ws, es) && id !in ws[|es|].lease.calls && HeldBy(ws[|es|].lease, who, role)
    ensures IsRun(vs, ds) && ws <= vs && es <= ds
    ensures var w := ws[|es|];
      vs[|ds|] == w.(lease := M.Put(w.lease, id, M.Fetched(who, role, token, w.lease.now, |w.lease.log|)))
  {
    vs, ds := ExtendRun(ws, es, Leased(M.Sample(id, who, role, token)));
    vs, ds := ExtendRun(vs, ds, Leased(M.Fetch(id)));
  }

  /** It can acquire the Lease again at once, however fresh it is. */
  lemma ReacquiresOwn(ws: seq<World>, es: seq<Event>, id: nat, who: M.Replica, role: string, token: string)
    returns (vs: seq<World>, ds: seq<Event>)
    requires IsRun(ws, es) && id !in ws[|es|].lease.calls && HeldBy(ws[|es|].lease, who, role)
    ensures IsRun(vs, ds) && ws <= vs && es <= ds
    ensures var w, v := ws[|es|], vs[|ds|];
      && v.log == w.log && v.calls == w.calls && v.lease.now == w.lease.now
      && w.lease.log <= v.lease.log && |v.lease.log| == |w.lease.log| + 1
      && w.lease.fences <= v.lease.fences && |v.lease.fences| == |w.lease.fences| + 1
      && v.lease.fences[|w.lease.fences|] == Leadership(role, who.holder, token, M.Current(w.lease).value.epoch + 1)
  {
    vs, ds := ReadsOwn(ws, es, id, who, role, token);
    vs, ds := ExtendRun(vs, ds, Leased(M.Judge(id)));
    vs, ds := ExtendRun(vs, ds, Leased(M.Acquire(id)));
  }

  /** A fenced offline mark over an unevicted status of a lower epoch can always be written, refreshing
      the spec first where need be. */
  lemma NewerMarkLands(ws: seq<World>, es: seq<Event>, id: nat, mark: Request) returns (vs: seq<World>, ds: seq<Event>)
    requires IsRun(ws, es) && id !in ws[|es|].calls && mark.MarkOffline? && mark.fence.Some?
    requires Issued(ws[|es|], mark.fence.value)
    requires StatusOf(ws[|es|]).Some? && !StatusOf(ws[|es|]).value.evicted
    requires StatusOf(ws[|es|]).value.epoch < mark.fence.value.epoch
    ensures IsRun(vs, ds) && ws <= vs && es <= ds && vs[|ds|].lease == ws[|es|].lease
    ensures StatusOf(vs[|ds|]).Some? && StatusOf(vs[|ds|]).value.phase == Offline
    ensures StatusOf(vs[|ds|]).value.epoch == mark.fence.value.epoch
  {
    var w := ws[|es|];
    vs, ds := ExtendRun(ws, es, Read(id, mark));
    if w.log[|w.log| - 1].spec != SpecOf(mark) {
      vs, ds := ExtendRun(vs, ds, Refresh(id));
    }
    vs, ds := ExtendRun(vs, ds, Write(id));
  }

  /** What the locator of `who` remembers of the current version. */
  predicate SeenSince(l: M.State, who: M.Replica, t: nat) {
    who.holder in l.located && l.located[who.holder].version == |l.log| && l.located[who.holder].at <= t
  }

  lemma TimesLookup(ws: seq<World>, es: seq<Event>, id: nat, who: M.Replica) returns (vs: seq<World>, ds: seq<Event>)
    requires IsRun(ws, es) && id !in ws[|es|].lease.calls && |ws[|es|].lease.log| > 0
    ensures IsRun(vs, ds) && ws <= vs && es <= ds
    ensures var w := ws[|es|]; vs[|ds|] == w.(lease := M.Put(w.lease, id, M.Timed(who, |w.lease.log|, w.lease.now)))
  {
    vs, ds := ExtendRun(ws, es, Leased(M.Look(id, who)));
    vs, ds := ExtendRun(vs, ds, Leased(M.Time(id)));
  }

  /** A lookup by `who`: read, clock sample and judgement. It leaves the current version sighted, and judges
      it expired if it has been sighted for its whole duration. */
  lemma LooksUp(ws: seq<World>, es: seq<Event>, id: nat, who: M.Replica, since: nat)
    returns (vs: seq<World>, ds: seq<Event>)
    requires IsRun(ws, es) && id !in ws[|es|].lease.calls && |ws[|es|].lease.log| > 0
    requires Watchable(M.Current(ws[|es|].lease).value)
    ensures IsRun(vs, ds) && ws <= vs && es < ds
    ensures var w, v := ws[|es|], vs[|ds|];
      v == w.(lease := w.lease.(located := v.lease.located)) && SeenSince(v.lease, who, w.lease.now)
    ensures ds[|ds| - 1] == Leased(M.Route(id)) && M.Enabled(vs[|ds| - 1].lease, M.Route(id))
    ensures vs[|ds| - 1].lease.calls[id].who == who
    ensures var l := ws[|es|].lease;
      SeenSince(l, who, since) && since + M.Current(l).value.seconds * TICKS_PER_SECOND <= l.now ==>
        M.JudgedExpired(vs[|ds| - 1].lease, id)
  {
    if who.holder in ws[|es|].lease.located {
      LocatedBefore(ws, es, who.holder);
    }
    var us, bs := TimesLookup(ws, es, id, who);
    vs, ds := ExtendRun(us, bs, Leased(M.Route(id)));
    assert vs[|ds| - 1] == us[|bs|];
  }

  /** Sightings lie in the past. */
  lemma LocatedBefore(ws: seq<World>, es: seq<Event>, holder: string)
    requires IsRun(ws, es) && holder in ws[|es|].lease.located
    ensures ws[|es|].lease.located[holder].at <= ws[|es|].lease.now
  {
    LeaseRun(ws, es);
    M.LocatedInThePast(LeaseStates(ws, es), LeaseEvents(es), |LeaseEvents(es)|);
  }

  /** A replica that does not renew finds its own Lease expired once the duration has passed. */
  lemma FindsOwnExpired(ws: seq<World>, es: seq<Event>, id: nat, who: M.Replica)
    returns (vs: seq<World>, ds: seq<Event>)
    requires IsRun(ws, es) && id !in ws[|es|].lease.calls && |ws[|es|].lease.log| > 0
    requires Watchable(M.Current(ws[|es|].lease).value)
    ensures IsRun(vs, ds) && ws <= vs && es < ds
    ensures var w, v := ws[|es|], vs[|ds|];
      && v.log == w.log && v.calls == w.calls
      && v.lease.log == w.lease.log && v.lease.fences == w.lease.fences && v.lease.calls == w.lease.calls
    ensures ds[|ds| - 1] == Leased(M.Route(id)) && M.Enabled(vs[|ds| - 1].lease, M.Route(id))
    ensures vs[|ds| - 1].lease.calls[id].who == who && M.JudgedExpired(vs[|ds| - 1].lease, id)
  {
    var w := ws[|es|];
    var full := M.Current(w.lease).value.seconds * TICKS_PER_SECOND;
    vs, ds := LooksUp(ws, es, id, who, 0);
    vs, ds := ExtendRun(vs, ds, Leased(M.Tick(full)));
    assert SeenSince(vs[|ds|].lease, who, w.lease.now);
    vs, ds := LooksUp(vs, ds, id, who, w.lease.now);
  }

  /** The owner's renewal is stored. */
  lemma RenewsOwn(ws: seq<World>, es: seq<Event>, id: nat, who: M.Replica, claim: Leadership)
    returns (vs: seq<World>, ds: seq<Event>)
    requires IsRun(ws, es) && id !in ws[|es|].lease.calls && HeldBy(ws[|es|].lease, who, claim.role)
    requires Owns(M.Current(ws[|es|].lease).value, claim) && claim.holder == who.holder
    ensures IsRun(vs, ds) && ws <= vs && es <= ds && |ds| == |es| + 2
    ensures RenewalStored(vs, ds, |ds| - 1, claim) && vs[|ds| - 1].lease.now == ws[|es|].lease.now
    ensures var w, v := ws[|es|], vs[|ds|];
      && v.log == w.log && v.calls == w.calls && v.lease.calls == w.lease.calls && v.lease.now == w.lease.now
      && v.lease.fences == w.lease.fences && |v.lease.log| == |w.lease.log| + 1
      && M.Current(v.lease).value == Renewed(M.Current(w.lease).value, who.seconds)
  {
    vs, ds := ExtendRun(ws, es, Leased(M.Check(id, who, claim, false)));
    vs, ds := ExtendRun(vs, ds, Leased(M.Keep(id)));
  }

  /** Step m stores a renewal by `claim`. */
  ghost predicate RenewalStored(ws: seq<World>, es: seq<Event>, m: nat, claim: Leadership)
    requires IsRun(ws, es)
  {
    && m < |es| && es[m].Leased? && es[m].step.Keep? && M.Enabled(ws[m].lease, es[m].step)
    && ws[m].lease.calls[es[m].step.id].claim == claim && !ws[m].lease.calls[es[m].step.id].releasing
  }

  /** Step m ends a lookup by `holder` without an owner, the case in which a sweep goes on to acquire. */
  ghost predicate FoundExpired(ws: seq<World>, es: seq<Event>, m: nat, holder: string)
    requires IsRun(ws, es)
  {
    && m < |es| && es[m].Leased? && es[m].step.Route? && M.Enabled(ws[m].lease, es[m].step)
    && ws[m].lease.calls[es[m].step.id].who.holder == holder && M.JudgedExpired(ws[m].lease, es[m].step.id)
  }

  /** A renewal that comes after the lookup does not protect the owner from its own replica's sweep. From
      every reachable state with an Online owner whose replica holds the Lease there is a run in which that
      replica's lookup finds the Lease expired, then the owner's renewal is stored, and at that very
      moment the sweep acquires the renewed Lease and its offline mark is stored. Against any other
      replica the renewal would have won: see OtherReplicaWaits. */
  lemma OwnSweepUnseatsOwner(ws: seq<World>, es: seq<Event>, leaseCall: nat, call: nat, who: M.Replica,
                             claim: Leadership,
                             token: string, id: string, session: string, observedAt: int)
    returns (vs: seq<World>, ds: seq<Event>, found: nat, renewed: nat)
    requires IsRun(ws, es) && leaseCall !in ws[|es|].lease.calls && call !in ws[|es|].calls
    requires HeldBy(ws[|es|].lease, who, claim.role) && Owns(M.Current(ws[|es|].lease).value, claim)
    requires claim.holder == who.holder
    requires StatusOf(ws[|es|]).Some? && StatusOf(ws[|es|]).value.phase == Online && !StatusOf(ws[|es|]).value.evicted
    ensures IsRun(vs, ds) && ws <= vs && es <= ds && |es| <= found < renewed < |ds|
    ensures FoundExpired(vs, ds, found, who.holder) && RenewalStored(vs, ds, renewed, claim)
    ensures vs[|ds|].lease.now == vs[renewed].lease.now
    ensures var l := vs[|ds|].lease;
      |l.fences| > 0 && l.fences[|l.fences| - 1] == Leadership(claim.role, who.holder, token, claim.epoch + 1)
    ensures StatusOf(vs[|ds|]).Some? && StatusOf(vs[|ds|]).value.phase == Offline
      && StatusOf(vs[|ds|]).value.epoch == claim.epoch + 1
  {
    var w := ws[|es|];
    EpochNeverAhead(ws, es, |es|, |w.log| - 1);
    OwnWatchable(ws, es);
    var us, bs := FindsOwnExpired(ws, es, leaseCall, who);
    found := |bs| - 1;
    var ts, cs := RenewsOwn(us, bs, leaseCall, who, claim);
    renewed := |cs| - 1;
    var xs, fs := ReacquiresOwn(ts, cs, leaseCall, who, claim.role, token);
    var fence := Fence(token, claim.epoch + 1);
    assert xs[|fs|].lease.fences[|w.lease.fences|] in xs[|fs|].lease.fences;
    assert Issued(xs[|fs|], fence);
    vs, ds := NewerMarkLands(xs, fs, call, MarkOffline(id, session, Some(fence), observedAt));
    assert vs[found] == us[found] && vs[renewed] == ts[renewed] && ds[found] == bs[found] && ds[renewed] == cs[renewed];
  }

  lemma OwnWatchable(ws: seq<World>, es: seq<Event>)
    requires IsRun(ws, es) && |ws[|es|].lease.log| > 0 && M.Current(ws[|es|].lease).value.holder.Some?
    ensures Watchable(M.Current(ws[|es|].lease).value)
  {
    LeaseRun(ws, es);
    M.SturdyAt(LeaseStates(ws, es), LeaseEvents(es), |LeaseEvents(es)|);
  }
}
