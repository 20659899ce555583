/** What a controller's status says, over every run: metadata is that of the last accepted registration,
    runtime fields are those last reported since, and the owner's reports are accepted
    (crates/center-adapter-kubernetes/src/controller_directory.rs). */
module Reports {
  import opened Basics
  import opened Directory
  import opened Ownership

  datatype Field = SyncVersion | WatchServer | ResourceCount | CountsByKind | StatsUpdated | WatchUpdated

  datatype Datum = Number(n: nat) | Text(text: string) | Counts(counts: map<string, nat>) | Moment(t: int)

  function OfNumber(n: Option<nat>): Option<Datum> {
    if n.Some? then Some(Number(n.value)) else None
  }

  function OfText(s: Option<string>): Option<Datum> {
    if s.Some? then Some(Text(s.value)) else None
  }

  function OfCounts(m: Option<map<string, nat>>): Option<Datum> {
    if m.Some? then Some(Counts(m.value)) else None
  }

  function OfMoment(t: Option<int>): Option<Datum> {
    if t.Some? then Some(Moment(t.value)) else None
  }

  /** A runtime field of a stored status. */
  function Shown(s: Status, f: Field): Option<Datum> {
    match f
    case SyncVersion => OfNumber(s.syncVersion)
    case WatchServer => OfText(s.watchServer)
    case ResourceCount => OfNumber(s.resourceCount)
    case CountsByKind => OfCounts(s.countsByKind)
    case StatsUpdated => OfMoment(s.statsUpdated)
    case WatchUpdated => OfMoment(s.watchUpdated)
  }

  /** What a call reports of it. */
  function Reported(req: Request, f: Field): Option<Datum> {
    if !req.ProjectRuntime? then None
    else
      match f
      case SyncVersion => OfNumber(req.syncVersion)
      case WatchServer => OfText(req.watchServer)
      case ResourceCount => OfNumber(req.resourceCount)
      case CountsByKind => OfCounts(req.countsByKind)
      case StatsUpdated => OfMoment(req.statsUpdated)
      case WatchUpdated => OfMoment(req.watchUpdated)
  }

  /** One accepted call: it sets what it reports, a registration clears the rest, anything else keeps it. */
  lemma FieldAfter(req: Request, current: Option<Status>, generation: nat, f: Field)
    requires Transition(req, current, generation).Some?
    ensures var after := Shown(Transition(req, current, generation).value, f);
      && (Reported(req, f).Some? ==> after == Reported(req, f))
      && (req.Register? || current.None? ==> after == Reported(req, f))
      && (!req.Register? && current.Some? && Reported(req, f).None? ==> after == Shown(current.value, f))
  {
  }

  ghost predicate Disturbs(ws: seq<World>, es: seq<Event>, m: nat, f: Field)
    requires IsRun(ws, es)
  {
    exists req :: Writes(ws, es, m, req) && (req.Register? || Reported(req, f).Some?)
  }

  /** One step of a run, as far as a field goes. */
  lemma FieldStep(ws: seq<World>, es: seq<Event>, m: nat, f: Field)
    requires IsRun(ws, es) && m < |es|
    ensures forall req :: Writes(ws, es, m, req) && (req.Register? || Reported(req, f).Some?) ==>
      StatusOf(ws[m + 1]).Some? && Shown(StatusOf(ws[m + 1]).value, f) == Reported(req, f)
    ensures !Disturbs(ws, es, m, f) && StatusOf(ws[m]).Some? ==>
      StatusOf(ws[m + 1]).Some? && Shown(StatusOf(ws[m + 1]).value, f) == Shown(StatusOf(ws[m]).value, f)
    ensures !Disturbs(ws, es, m, f) && StatusOf(ws[m]).None? && StatusOf(ws[m + 1]).Some? ==>
      Shown(StatusOf(ws[m + 1]).value, f).None?
  {
    assert StepAt(ws, es, m);
    InvAt(ws, es, m);
    StatusStep(ws[m], es[m]);
    if es[m].Write? {
      var req := ws[m].calls[es[m].id].req;
      assert Writes(ws, es, m, req);
      FieldAfter(req, StatusOf(ws[m]), ws[m].log[|ws[m].log| - 1].generation, f);
    }
  }

  /** After an accepted projection each field it reported is current until a later accepted projection reports
      it again or a registration is accepted, whatever is marked offline, evicted or refused meanwhile. */
  lemma {:induction false} ReportStaysCurrent(ws: seq<World>, es: seq<Event>, i: nat, j: nat, req: Request, f: Field)
    requires IsRun(ws, es) && i < j < |ws| && Writes(ws, es, i, req) && Reported(req, f).Some?
    requires forall m: nat :: i < m < j ==> !Disturbs(ws, es, m, f)
    ensures StatusOf(ws[j]).Some? && Shown(StatusOf(ws[j]).value, f) == Reported(req, f)
    decreases j
  {
    FieldStep(ws, es, j - 1, f);
    if j > i + 1 {
      ReportStaysCurrent(ws, es, i, j - 1, req, f);
    }
  }

  /** Every other call leaves the field as it was. */
  lemma UnreportedFieldsStay(ws: seq<World>, es: seq<Event>, i: nat, f: Field)
    requires IsRun(ws, es) && i < |es| && StatusOf(ws[i]).Some? && !Disturbs(ws, es, i, f)
    ensures StatusOf(ws[i + 1]).Some? && Shown(StatusOf(ws[i + 1]).value, f) == Shown(StatusOf(ws[i]).value, f)
  {
    FieldStep(ws, es, i, f);
  }

  /** And whatever a field shows was reported by an accepted projection since the last registration. */
  lemma {:induction false} ShownWasReported(ws: seq<World>, es: seq<Event>, j: nat, f: Field)
    returns (k: nat, req: Request)
    requires IsRun(ws, es) && j < |ws| && StatusOf(ws[j]).Some? && Shown(StatusOf(ws[j]).value, f).Some?
    ensures k < j && Writes(ws, es, k, req) && Reported(req, f) == Shown(StatusOf(ws[j]).value, f)
    ensures forall m: nat :: k < m < j ==> !Disturbs(ws, es, m, f)
  {
    FieldStep(ws, es, j - 1, f);
    if Disturbs(ws, es, j - 1, f) {
      k := j - 1;
      req :| Writes(ws, es, k, req) && (req.Register? || Reported(req, f).Some?);
    } else {
      k, req := ShownWasReported(ws, es, j - 1, f);
    }
  }

  // ---------------------------------------------------------------- metadata

  function Metadata(s: Status): (string, seq<string>, seq<string>) {
    (s.cluster, s.environments, s.tags)
  }

  lemma MetadataAfter(req: Request, current: Option<Status>, generation: nat)
    requires Transition(req, current, generation).Some?
    ensures var t := Transition(req, current, generation).value;
      && (req.Register? ==> Metadata(t) == (req.cluster, req.environments, req.tags))
      && (!req.Register? ==> Metadata(t) == if current.Some? then Metadata(current.value) else ("", [], []))
  {
  }

  /** The metadata of a status is that of the last accepted registration. */
  lemma {:induction false} MetadataIsLastRegistration(ws: seq<World>, es: seq<Event>, i: nat, j: nat, req: Request)
    requires IsRun(ws, es) && i < j < |ws| && Writes(ws, es, i, req) && req.Register?
    requires forall m, other :: i < m < j && Writes(ws, es, m, other) ==> !other.Register?
    ensures StatusOf(ws[j]).Some? && Metadata(StatusOf(ws[j]).value) == (req.cluster, req.environments, req.tags)
    decreases j
  {
    var m := j - 1;
    assert StepAt(ws, es, m);
    InvAt(ws, es, m);
    StatusStep(ws[m], es[m]);
    if es[m].Write? {
      var other := ws[m].calls[es[m].id].req;
      assert Writes(ws, es, m, other);
      MetadataAfter(other, StatusOf(ws[m]), ws[m].log[|ws[m].log| - 1].generation);
    }
    if j > i + 1 {
      MetadataIsLastRegistration(ws, es, i, j - 1, req);
    }
  }

  /** A call in hand has the spec that it brought along. */
  ghost predicate SpecsInHand(w: World) {
    forall id :: id in w.calls && w.calls[id].Holding? && !w.calls[id].req.Evict? ==> SpecInHand(w, w.calls[id])
  }

  ghost predicate SpecInHand(w: World, c: Call)
    requires c.Holding? && !c.req.Evict?
  {
    1 <= c.version <= |w.log| && IsSpecOf(w.log[c.version - 1].spec, c.req)
  }

  /** A registration brings its metadata along; offline marks and projections bring none. */
  predicate IsSpecOf(spec: Spec, req: Request)
    requires !req.Evict?
  {
    && spec.id == req.id
    && (req.Register? ==> spec.cluster == req.cluster && spec.environments == req.environments && spec.tags == req.tags)
    && (!req.Register? ==> spec.cluster == "" && spec.environments == [] && spec.tags == [])
  }

  lemma {:induction false} SpecsInHandAt(ws: seq<World>, es: seq<Event>, i: nat)
    requires IsRun(ws, es) && i < |ws|
    ensures SpecsInHand(ws[i])
  {
    if i > 0 {
      SpecsInHandAt(ws, es, i - 1);
      assert StepAt(ws, es, i - 1);
      InvAt(ws, es, i - 1);
      var w, x := ws[i - 1], ws[i];
      StepExtends(w, es[i - 1]);
      forall id | id in x.calls && x.calls[id].Holding? && !x.calls[id].req.Evict? ensures SpecInHand(x, x.calls[id]) {
        if id in w.calls && x.calls[id] == w.calls[id] {
          assert SpecInHand(w, w.calls[id]);
        }
      }
    }
  }

  /** With an accepted call the resource carries the spec of that very call. */
  lemma SpecIsLastWriters(ws: seq<World>, es: seq<Event>, i: nat, req: Request)
    requires IsRun(ws, es) && Writes(ws, es, i, req) && !req.Evict?
    ensures |ws[i + 1].log| > 0 && IsSpecOf(ws[i + 1].log[|ws[i + 1].log| - 1].spec, req)
  {
    SpecsInHandAt(ws, es, i);
    assert StepAt(ws, es, i);
    assert SpecInHand(ws[i], ws[i].calls[es[i].id]);
  }

  // ---------------------------------------------------------------- the owner's own calls

  /** As long as nothing newer writes, an owner is listed as it registered, its reports are accepted, and
      so is its own offline mark. */
  lemma OwnerIsServed(ws: seq<World>, es: seq<Event>, i: nat, j: nat, owner: Request, req: Request)
    requires IsRun(ws, es) && i < j < |ws| && Writes(ws, es, i, owner) && owner.Register? && owner.fence.Some?
    requires forall k, other :: i < k < j && Writes(ws, es, k, other) ==> !CanUnseat(other, owner.fence.value.epoch)
    requires (req.ProjectRuntime? || req.MarkOffline?) && req.session == owner.session && req.fence == owner.fence
    ensures |ws[j].log| > 0 && Transition(req, StatusOf(ws[j]), ws[j].log[|ws[j].log| - 1].generation).Some?
    ensures var entry := ListEntry(ws[j].log[|ws[j].log| - 1]);
      && entry.Some? && entry.value.phase == Online
      && entry.value.session == Some(owner.session) && entry.value.replica == owner.replica
      && entry.value.fence == owner.fence
  {
    OwnerStaysOnline(ws, es, i, j, owner);
    AcceptedExactlyWhen(req, StatusOf(ws[j]), ws[j].log[|ws[j].log| - 1].generation);
  }
}
