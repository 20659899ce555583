/** From guarded changes to a Route 53 change batch, and what the batch does when the provider runs it
    (crates/center-adapter-route53/src/lib.rs, `plan_change_batch`). */
module Route53Plan {
  import opened Basics
  import opened Dns
  import I = Route53Inventory

  const MAX_PROVIDER_CHANGE_ACTIONS := 1_000
  const MAX_PROVIDER_RECORD_ELEMENTS := 1_000

  /** The provider's own form of a record set, as far as planning looks at it: `map_record_set`, the
      draft that `render_record_set` builds before its round-trip check, the element count and
      whether some value is over the size limit. Nothing else is assumed of the four functions. */
  datatype Codec<!Raw> = Codec(
    read: Raw -> Option<RecordSet>,
    draft: RecordSet -> Option<Raw>,
    elements: Raw -> nat,
    oversized: Raw -> bool)

  datatype Action<+Raw> = CreateRaw(raw: Raw) | DeleteRaw(raw: Raw)

  /** The current inventory: what was observed under each key, with the provider's form of it. */
  type Current<Raw> = map<Key, (Observed, Raw)>

  datatype Rejection = GuardConflict | ShapeConflict | NoopReplace | Unrenderable | InventoryConflict | RequestLimit

  /** `render_record_set`: rendering that does not read back as the same record set is an error. */
  function Render<Raw>(codec: Codec<Raw>, r: RecordSet): (raw: Option<Raw>)
    ensures raw.Some? ==> codec.read(raw.value) == Some(r)
  {
    var d := codec.draft(r);
    if d.Some? && codec.read(d.value) == Some(r) then d else None
  }

  function AliasAndHealth(r: RecordSet): (bool, Option<string>) {
    if r.extension.Some? && r.extension.value.Route53? then (r.extension.value.alias.Some?, r.extension.value.health)
    else (false, None)
  }

  /** `validate_replace_shape`. */
  predicate SameShape(previous: RecordSet, desired: RecordSet) {
    I.FamilyOf(previous) == I.FamilyOf(desired) && AliasAndHealth(previous) == AliasAndHealth(desired)
  }

  /** `same_route53_observation`. */
  predicate SameObservation(a: Observed, b: Observed) {
    a.zone == b.zone && a.recordSet == b.recordSet && a.revision == b.revision
  }

  /** Why a single change is turned down, if it is. */
  function Turndown<Raw>(codec: Codec<Raw>, current: Current<Raw>, c: Change): Option<Rejection> {
    match c
    case Create(recordSet) =>
      if recordSet.key in current then Some(GuardConflict)
      else if Render(codec, recordSet).None? then Some(Unrenderable) else None
    case Replace(previous, desired) =>
      if desired.key !in current || !SameObservation(current[desired.key].0, previous) then Some(GuardConflict)
      else if !SameShape(previous.recordSet, desired) then Some(ShapeConflict)
      else if previous.recordSet == desired then Some(NoopReplace)
      else if Render(codec, desired).None? then Some(Unrenderable) else None
    case Delete(previous) =>
      var k := previous.recordSet.key;
      if k !in current || !SameObservation(current[k].0, previous) then Some(GuardConflict) else None
  }

  /** Replacing keeps the kind of policy, whether the record set is an alias, and its health check. */
  lemma SameShapeMeans(a: RecordSet, b: RecordSet)
    ensures SameShape(a, b) <==>
      && I.SamePolicyKind(a, b)
      && (IsAlias(a) <==> IsAlias(b))
      && (forall h :: HasHealthCheck(a, h) <==> HasHealthCheck(b, h))
  {
    forall h ensures HasHealthCheck(a, h) <==> AliasAndHealth(a).1 == Some(h) {
    }
    forall h ensures HasHealthCheck(b, h) <==> AliasAndHealth(b).1 == Some(h) {
    }
    if forall h :: HasHealthCheck(a, h) <==> HasHealthCheck(b, h) {
      if AliasAndHealth(a).1.Some? {
        assert HasHealthCheck(b, AliasAndHealth(a).1.value);
      }
      if AliasAndHealth(b).1.Some? {
        assert HasHealthCheck(a, AliasAndHealth(b).1.value);
      }
    }
  }

  predicate IsAlias(r: RecordSet) {
    r.extension.Some? && r.extension.value.Route53? && r.extension.value.alias.Some?
  }

  predicate HasHealthCheck(r: RecordSet, h: string) {
    r.extension.Some? && r.extension.value.Route53? && r.extension.value.health == Some(h)
  }

  /** Exactly when a change is accepted: what it is based on is there as observed (or nothing is), what it asks
      for can be rendered and read back, and a replacement keeps the shape and changes something. */
  lemma AcceptedExactlyWhen<Raw>(codec: Codec<Raw>, current: Current<Raw>, c: Change)
    ensures Turndown(codec, current, c).None? <==>
      && BasedOn(current, c)
      && (c.Replace? ==> SameShape(c.previous.recordSet, c.desired) && c.previous.recordSet != c.desired)
      && (!c.Delete? ==>
            var wanted := if c.Create? then c.recordSet else c.desired;
            codec.draft(wanted).Some? && codec.read(codec.draft(wanted).value) == Some(wanted))
    ensures Turndown(codec, current, c) == Some(GuardConflict) <==> !BasedOn(current, c)
    ensures Turndown(codec, current, c) == Some(ShapeConflict) <==>
      BasedOn(current, c) && c.Replace? && !SameShape(c.previous.recordSet, c.desired)
    ensures Turndown(codec, current, c) == Some(NoopReplace) <==>
      BasedOn(current, c) && c.Replace? && c.previous.recordSet == c.desired
  {
  }

  /** What the change is based on is in the inventory as it was observed; a creation is based on absence. */
  predicate BasedOn<Raw>(current: Current<Raw>, c: Change) {
    if c.Create? then c.recordSet.key !in current
    else
      && ChangeKey(c) in current
      && var seen := current[ChangeKey(c)].0;
      c.previous.zone == seen.zone && c.previous.recordSet == seen.recordSet && c.previous.revision == seen.revision
  }

  function ActionsOf<Raw>(codec: Codec<Raw>, current: Current<Raw>, c: Change): seq<Action<Raw>>
    requires Turndown(codec, current, c).None?
  {
    match c
    case Create(recordSet) => [CreateRaw(Render(codec, recordSet).value)]
    case Replace(_, desired) => [DeleteRaw(current[desired.key].1), CreateRaw(Render(codec, desired).value)]
    case Delete(previous) => [DeleteRaw(current[previous.recordSet.key].1)]
  }

  predicate AllAccepted<Raw>(codec: Codec<Raw>, current: Current<Raw>, changes: seq<Change>) {
    forall i :: 0 <= i < |changes| ==> Turndown(codec, current, changes[i]).None?
  }

  function Actions<Raw>(codec: Codec<Raw>, current: Current<Raw>, changes: seq<Change>): seq<Action<Raw>>
    requires AllAccepted(codec, current, changes)
  {
    if |changes| == 0 then []
    else
      var n := |changes| - 1;
      Actions(codec, current, changes[..n]) + ActionsOf(codec, current, changes[n])
  }

  function RecordSets<Raw>(current: Current<Raw>): I.Inventory {
    map k | k in current :: current[k].0.recordSet
  }

  function TotalElements<Raw>(codec: Codec<Raw>, actions: seq<Action<Raw>>): nat {
    if |actions| == 0 then 0
    else TotalElements(codec, actions[..|actions| - 1]) + codec.elements(actions[|actions| - 1].raw)
  }

  predicate RequestFits<Raw>(codec: Codec<Raw>, actions: seq<Action<Raw>>) {
    && 0 < |actions| <= MAX_PROVIDER_CHANGE_ACTIONS
    && (forall i :: 0 <= i < |actions| ==> !codec.oversized(actions[i].raw))
    && 0 < TotalElements(codec, actions) <= MAX_PROVIDER_RECORD_ELEMENTS
  }

  /** `validate_change_request` and the action limit before it. */
  method ValidateChangeRequest<Raw>(codec: Codec<Raw>, request: seq<Action<Raw>>) returns (ok: bool)
    ensures ok <==> RequestFits(codec, request)
  {
    if |request| == 0 || |request| > MAX_PROVIDER_CHANGE_ACTIONS {
      return false;
    }
    var elements, i := 0, 0;
    while i < |request|
      invariant 0 <= i <= |request|
      invariant elements == TotalElements(codec, request[..i])
      invariant forall j :: 0 <= j < i ==> !codec.oversized(request[j].raw)
    {
      if codec.oversized(request[i].raw) {
        return false;
      }
      assert request[..i + 1][..i] == request[..i];
      elements := elements + codec.elements(request[i].raw);
      i := i + 1;
    }
    assert request[..i] == request;
    ok := 0 < elements <= MAX_PROVIDER_RECORD_ELEMENTS;
  }

  /** The reason given is that of the first change that is turned down. */
  ghost predicate FirstTurndown<Raw>(codec: Codec<Raw>, current: Current<Raw>, changes: seq<Change>, why: Rejection) {
    exists i: nat :: TurnedDownAt(codec, current, changes, why, i)
  }

  ghost predicate TurnedDownAt<Raw>(
    codec: Codec<Raw>, current: Current<Raw>, changes: seq<Change>, why: Rejection, i: nat)
  {
    i < |changes| && AllAccepted(codec, current, changes[..i]) && Turndown(codec, current, changes[i]) == Some(why)
  }

  /** The first half of `plan_change_batch`: change by change, the request, the resulting inventory
      and the owners and groups it affects. */
  method Collect<Raw>(codec: Codec<Raw>, changes: seq<Change>, current: Current<Raw>)
    returns (refused: Option<Rejection>, request: seq<Action<Raw>>, resultant: I.Inventory,
             owners: set<string>, groups: set<I.Group>)
    ensures refused.None? <==> AllAccepted(codec, current, changes)
    ensures refused.Some? ==> FirstTurndown(codec, current, changes, refused.value)
    ensures refused.None? ==>
      && request == Actions(codec, current, changes)
      && resultant == AppliedAll(changes, RecordSets(current))
      && owners == I.Owners(Touched(changes))
      && groups == I.Groups(Touched(changes))
  {
    refused, request, resultant, owners, groups := None, [], RecordSets(current), {}, {};
    var i := 0;
    while i < |changes|
      invariant 0 <= i <= |changes|
      invariant AllAccepted(codec, current, changes[..i])
      invariant request == Actions(codec, current, changes[..i])
      invariant resultant == AppliedAll(changes[..i], RecordSets(current))
      invariant owners == I.Owners(Touched(changes[..i]))
      invariant groups == I.Groups(Touched(changes[..i]))
    {
      var change := changes[i];
      var key := ChangeKey(change);
      var turndown := Turndown(codec, current, change);
      if turndown.Some? {
        assert TurnedDownAt(codec, current, changes, turndown.value, i);
        return turndown, [], map[], {}, {};
      }
      CollectOne(codec, changes, current, i);
      owners := owners + {key.owner};
      groups := groups + {(key.owner, key.kind)};
      match change {
        case Create(recordSet) =>
          request := request + [CreateRaw(Render(codec, recordSet).value)];
          resultant := resultant[recordSet.key := recordSet];
        case Replace(_, desired) =>
          request := request + [DeleteRaw(current[desired.key].1), CreateRaw(Render(codec, desired).value)];
          resultant := resultant[desired.key := desired];
        case Delete(previous) =>
          request := request + [DeleteRaw(current[previous.recordSet.key].1)];
          resultant := resultant - {previous.recordSet.key};
      }
      i := i + 1;
    }
    assert changes[..i] == changes;
  }

  lemma CollectOne<Raw>(codec: Codec<Raw>, changes: seq<Change>, current: Current<Raw>, i: nat)
    requires i < |changes| && AllAccepted(codec, current, changes[..i]) && Turndown(codec, current, changes[i]).None?
    ensures AllAccepted(codec, current, changes[..i + 1])
    ensures Actions(codec, current, changes[..i + 1]) ==
      Actions(codec, current, changes[..i]) + ActionsOf(codec, current, changes[i])
    ensures AppliedAll(changes[..i + 1], RecordSets(current)) ==
      Applied(changes[i], AppliedAll(changes[..i], RecordSets(current)))
    ensures I.Owners(Touched(changes[..i + 1])) == I.Owners(Touched(changes[..i])) + {ChangeKey(changes[i]).owner}
    ensures I.Groups(Touched(changes[..i + 1])) ==
      I.Groups(Touched(changes[..i])) + {(ChangeKey(changes[i]).owner, ChangeKey(changes[i]).kind)}
  {
    assert changes[..i + 1] == changes[..i] + [changes[i]];
    assert changes[..i + 1][..i] == changes[..i];
    TouchedAppends(changes[..i], changes[i]);
  }

  /** `plan_change_batch`: accepted exactly when every guard, shape and rendering holds, the affected
      part of the resulting inventory is in order and the request fits; and then the request is the
      deletes and creates of the changes, in order. */
  method PlanChangeBatch<Raw>(codec: Codec<Raw>, changes: seq<Change>, current: Current<Raw>)
    returns (r: Result<seq<Action<Raw>>, Rejection>)
    ensures r.Ok? <==>
      && AllAccepted(codec, current, changes)
      && I.AffectedOk(AppliedAll(changes, RecordSets(current)), I.Owners(Touched(changes)), I.Groups(Touched(changes)))
      && RequestFits(codec, Actions(codec, current, changes))
    ensures r.Ok? ==> r.value == Actions(codec, current, changes)
    ensures r.Err? && !AllAccepted(codec, current, changes) ==> FirstTurndown(codec, current, changes, r.error)
    ensures r.Err? && AllAccepted(codec, current, changes) ==>
      var touched := Touched(changes);
      r.error ==
        if I.AffectedOk(AppliedAll(changes, RecordSets(current)), I.Owners(touched), I.Groups(touched))
        then RequestLimit else InventoryConflict
  {
    var refused, request, resultant, owners, groups := Collect(codec, changes, current);
    if refused.Some? {
      return Err(refused.value);
    }
    var sound := I.ValidateResultantInventory(resultant, owners, groups);
    if !sound {
      return Err(InventoryConflict);
    }
    var fits := ValidateChangeRequest(codec, request);
    if !fits {
      return Err(RequestLimit);
    }
    r := Ok(request);
  }

  // ---------------------------------------------------------------- the provider

  /** Each live record set reads back under its own key. */
  ghost predicate Live<Raw>(codec: Codec<Raw>, live: map<Key, Raw>) {
    forall k :: k in live ==> codec.read(live[k]).Some? && codec.read(live[k]).value.key == k
  }

  ghost function Reading<Raw>(codec: Codec<Raw>, live: map<Key, Raw>): I.Inventory
    requires Live(codec, live)
  {
    map k | k in live :: codec.read(live[k]).value
  }

  /** The provider's rule for one action: a create needs the identity to be free, a delete needs an
      exact match. */
  ghost function Do<Raw>(codec: Codec<Raw>, live: map<Key, Raw>, a: Action<Raw>): Option<map<Key, Raw>> {
    var r := codec.read(a.raw);
    if r.None? then None else
    var k := r.value.key;
    match a
    case CreateRaw(raw) => if k in live then None else Some(live[k := raw])
    case DeleteRaw(raw) => if k in live && live[k] == raw then Some(live - {k}) else None
  }

  /** A batch is all or nothing: None means that the inventory is left as it was. */
  ghost function Run<Raw>(codec: Codec<Raw>, live: map<Key, Raw>, actions: seq<Action<Raw>>): Option<map<Key, Raw>> {
    if |actions| == 0 then Some(live)
    else
      var n := |actions| - 1;
      var l := Run(codec, live, actions[..n]);
      if l.None? then None else Do(codec, l.value, actions[n])
  }

  lemma RunOneMore<Raw>(codec: Codec<Raw>, live: map<Key, Raw>, actions: seq<Action<Raw>>, a: Action<Raw>)
    ensures Run(codec, live, actions + [a]) ==
      (var l := Run(codec, live, actions); if l.None? then None else Do(codec, l.value, a))
  {
    assert (actions + [a])[..|actions|] == actions;
  }

  /** The observations of an inventory scan: read from the provider's form, revision included. */
  ghost predicate Scanned<Raw>(codec: Codec<Raw>, current: Current<Raw>) {
    forall k :: k in current ==>
      && codec.read(current[k].1) == Some(current[k].0.recordSet)
      && current[k].0.recordSet.key == k
      && current[k].0.revision == OfRecordSet(current[k].0.recordSet)
  }

  /** A change's guard on a live inventory: a create's identity is free, and what a replace or
      delete was based on is still there exactly as observed. */
  ghost predicate GuardHolds<Raw>(current: Current<Raw>, live: map<Key, Raw>, c: Change) {
    var k := ChangeKey(c);
    if c.Create? then k !in live else k in current && k in live && live[k] == current[k].1
  }

  ghost predicate GuardsHold<Raw>(current: Current<Raw>, live: map<Key, Raw>, changes: seq<Change>) {
    forall i :: 0 <= i < |changes| ==> GuardHolds(current, live, changes[i])
  }

  ghost predicate SameExcept<Raw>(a: map<Key, Raw>, b: map<Key, Raw>, touched: set<Key>) {
    forall k :: k !in touched ==> (k in a <==> k in b) && (k in a ==> a[k] == b[k])
  }

  /** A change has taken effect: what it asks for is there and reads as it, what it deletes is not. */
  ghost predicate Done<Raw>(codec: Codec<Raw>, m: map<Key, Raw>, c: Change) {
    var k := ChangeKey(c);
    if c.Delete? then k !in m
    else k in m && codec.read(m[k]) == Some(if c.Create? then c.recordSet else c.desired)
  }

  /** What running one more change's actions does to a live inventory `l`. */
  ghost predicate Runs<Raw>(codec: Codec<Raw>, current: Current<Raw>, l: map<Key, Raw>, m: Option<map<Key, Raw>>,
                            c: Change)
  {
    && (m.Some? <==> GuardHolds(current, l, c))
    && (m.Some? ==> Done(codec, m.value, c) && SameExcept(l, m.value, {ChangeKey(c)}))
  }

  lemma DoCreate<Raw>(codec: Codec<Raw>, current: Current<Raw>, l: map<Key, Raw>, recordSet: RecordSet)
    requires Render(codec, recordSet).Some?
    ensures Runs(codec, current, l, Do(codec, l, CreateRaw(Render(codec, recordSet).value)), Create(recordSet))
  {
  }

  lemma DoDelete<Raw>(codec: Codec<Raw>, current: Current<Raw>, l: map<Key, Raw>, previous: Observed)
    requires Scanned(codec, current) && previous.recordSet.key in current
    ensures Runs(codec, current, l, Do(codec, l, DeleteRaw(current[previous.recordSet.key].1)), Delete(previous))
  {
  }

  lemma DoReplace<Raw>(codec: Codec<Raw>, current: Current<Raw>, l: map<Key, Raw>, previous: Observed,
                       desired: RecordSet)
    requires Scanned(codec, current) && desired.key in current && Render(codec, desired).Some?
    ensures var d := Do(codec, l, DeleteRaw(current[desired.key].1));
      var m := if d.None? then None else Do(codec, d.value, CreateRaw(Render(codec, desired).value));
      Runs(codec, current, l, m, Replace(previous, desired))
  {
  }

  lemma RunChange<Raw>(codec: Codec<Raw>, current: Current<Raw>, live: map<Key, Raw>, actions: seq<Action<Raw>>,
                       c: Change)
    requires Scanned(codec, current) && Turndown(codec, current, c).None?
    requires Run(codec, live, actions).Some?
    ensures Runs(codec, current, Run(codec, live, actions).value,
                 Run(codec, live, actions + ActionsOf(codec, current, c)), c)
  {
    var l := Run(codec, live, actions).value;
    match c
    case Create(recordSet) =>
      RunOneMore(codec, live, actions, CreateRaw(Render(codec, recordSet).value));
      DoCreate(codec, current, l, recordSet);
    case Replace(previous, desired) =>
      var del, add := DeleteRaw(current[desired.key].1), CreateRaw(Render(codec, desired).value);
      RunOneMore(codec, live, actions, del);
      RunOneMore(codec, live, actions + [del], add);
      assert actions + [del, add] == actions + [del] + [add];
      DoReplace(codec, current, l, previous, desired);
    case Delete(previous) =>
      RunOneMore(codec, live, actions, DeleteRaw(current[previous.recordSet.key].1));
      DoDelete(codec, current, l, previous);
  }

  lemma RunStaysNone<Raw>(codec: Codec<Raw>, live: map<Key, Raw>, actions: seq<Action<Raw>>, more: seq<Action<Raw>>)
    requires Run(codec, live, actions).None? && |more| <= 2
    ensures Run(codec, live, actions + more).None?
  {
    if |more| == 0 {
      assert actions + more == actions;
    } else if |more| == 1 {
      RunOneMore(codec, live, actions, more[0]);
      assert actions + more == actions + [more[0]];
    } else {
      RunOneMore(codec, live, actions, more[0]);
      RunOneMore(codec, live, actions + [more[0]], more[1]);
      assert actions + more == actions + [more[0]] + [more[1]];
    }
  }

  ghost predicate RunsAll<Raw>(codec: Codec<Raw>, current: Current<Raw>, live: map<Key, Raw>,
                               m: Option<map<Key, Raw>>, changes: seq<Change>)
  {
    && (m.Some? <==> GuardsHold(current, live, changes))
    && (m.Some? ==> AllDone(codec, m.value, changes) && SameExcept(live, m.value, Touched(changes)))
  }

  ghost predicate AllDone<Raw>(codec: Codec<Raw>, m: map<Key, Raw>, changes: seq<Change>) {
    forall i :: 0 <= i < |changes| ==> Done(codec, m, changes[i])
  }

  lemma RunsOneMore<Raw>(codec: Codec<Raw>, current: Current<Raw>, live: map<Key, Raw>,
                         l: map<Key, Raw>, m: Option<map<Key, Raw>>, changes: seq<Change>, c: Change)
    requires RunsAll(codec, current, live, Some(l), changes)
    requires Runs(codec, current, l, m, c) && ChangeKey(c) !in Touched(changes)
    ensures RunsAll(codec, current, live, m, changes + [c])
  {
    var all, n := changes + [c], |changes|;
    TouchedAppends(changes, c);
    assert all[..n] == changes && all[n] == c;
    assert GuardHolds(current, l, c) <==> GuardHolds(current, live, c);
    assert GuardsHold(current, live, all) <==> GuardHolds(current, live, c);
    if m.Some? {
      forall i | 0 <= i < n ensures Done(codec, m.value, all[i]) {
        assert all[i] == changes[i] && Done(codec, l, changes[i]) && ChangeKey(changes[i]) in Touched(changes);
      }
    }
  }

  /** On any live inventory whatsoever, also one with record sets that cannot be read: the batch
      succeeds exactly when every change's guard holds there, and then every change has taken effect and
      nothing else is different. Otherwise nothing changes. */
  lemma {:induction false} BatchRunsIffGuardsHold<Raw>(codec: Codec<Raw>, current: Current<Raw>, live: map<Key, Raw>,
                                                       changes: seq<Change>)
    requires Scanned(codec, current)
    requires AllAccepted(codec, current, changes) && ValidChanges(changes)
    ensures RunsAll(codec, current, live, Run(codec, live, Actions(codec, current, changes)), changes)
  {
    if |changes| > 0 {
      var n := |changes| - 1;
      var front, c := changes[..n], changes[n];
      assert forall i :: 0 <= i < n ==> front[i] == changes[i];
      assert changes == front + [c];
      BatchRunsIffGuardsHold(codec, current, live, front);
      var actions := Actions(codec, current, front);
      var l := Run(codec, live, actions);
      if l.Some? {
        RunChange(codec, current, live, actions, c);
        RunsOneMore(codec, current, live, l.value, Run(codec, live, actions + ActionsOf(codec, current, c)), front, c);
      } else {
        RunStaysNone(codec, live, actions, ActionsOf(codec, current, c));
      }
    }
  }

  /** Where the whole zone can be read, it reads afterwards as the changes applied to what it read before. */
  lemma ReadsAsApplied<Raw>(codec: Codec<Raw>, live: map<Key, Raw>, m: map<Key, Raw>, changes: seq<Change>)
    requires Live(codec, live) && ValidChanges(changes)
    requires AllDone(codec, m, changes) && SameExcept(live, m, Touched(changes))
    ensures Live(codec, m) && Reading(codec, m) == AppliedAll(changes, Reading(codec, live))
  {
    var before := Reading(codec, live);
    forall k ensures ReadsAt(codec, m, AppliedAll(changes, before), k) {
      if k in Touched(changes) {
        var i :| 0 <= i < |changes| && ChangeKey(changes[i]) == k;
        assert Done(codec, m, changes[i]);
        TouchedBecomes(changes, before, i);
      } else {
        UntouchedStays(changes, before, k);
      }
    }
    forall k | k in m ensures codec.read(m[k]).Some? && codec.read(m[k]).value.key == k {
      assert ReadsAt(codec, m, AppliedAll(changes, before), k);
      assert k in Touched(changes) || k in live;
      if k in Touched(changes) {
        var i :| 0 <= i < |changes| && ChangeKey(changes[i]) == k;
        assert Done(codec, m, changes[i]);
      }
    }
    ReadsEverywhere(codec, m, AppliedAll(changes, before));
  }

  lemma ReadsEverywhere<Raw>(codec: Codec<Raw>, m: map<Key, Raw>, inventory: I.Inventory)
    requires Live(codec, m) && forall k :: ReadsAt(codec, m, inventory, k)
    ensures Reading(codec, m) == inventory
  {
    forall k ensures k in Reading(codec, m) <==> k in inventory {
      assert ReadsAt(codec, m, inventory, k);
    }
    forall k | k in inventory ensures Reading(codec, m)[k] == inventory[k] {
      assert ReadsAt(codec, m, inventory, k);
    }
  }

  ghost predicate ReadsAt<Raw>(codec: Codec<Raw>, m: map<Key, Raw>, inventory: I.Inventory, k: Key) {
    (k in m <==> k in inventory) && (k in m ==> codec.read(m[k]) == Some(inventory[k]))
  }

  /** What a held guard means for a replace or delete: the live record set is the one the caller
      had observed, with the same revision. */
  lemma HeldGuardIsObservation<Raw>(codec: Codec<Raw>, current: Current<Raw>, live: map<Key, Raw>, c: Change)
    requires Scanned(codec, current) && Turndown(codec, current, c).None? && GuardHolds(current, live, c) && !c.Create?
    requires c.Replace? ==> c.previous.recordSet.key == c.desired.key
    ensures codec.read(live[ChangeKey(c)]) == Some(c.previous.recordSet)
    ensures c.previous.revision == OfRecordSet(c.previous.recordSet)
  {
  }

  /** An accepted plan preserves meaning: on the inventory it was planned from it always succeeds and
      yields exactly the resulting inventory that was checked; if the zone was well formed, it stays
      well formed. */
  lemma PlanPreservesMeaning<Raw>(codec: Codec<Raw>, current: Current<Raw>, changes: seq<Change>)
    requires Scanned(codec, current) && AllAccepted(codec, current, changes) && ValidChanges(changes)
    requires I.AffectedOk(AppliedAll(changes, RecordSets(current)), I.Owners(Touched(changes)),
        I.Groups(Touched(changes)))
    ensures var live := map k | k in current :: current[k].1;
      var m := Run(codec, live, Actions(codec, current, changes));
      && m.Some? && Live(codec, m.value)
      && Reading(codec, m.value) == AppliedAll(changes, RecordSets(current))
      && (I.WellFormed(RecordSets(current)) ==> I.WellFormed(Reading(codec, m.value)))
  {
    var live := map k | k in current :: current[k].1;
    forall i | 0 <= i < |changes| ensures GuardHolds(current, live, changes[i]) {
      assert Turndown(codec, current, changes[i]).None?;
    }
    BatchRunsIffGuardsHold(codec, current, live, changes);
    assert Live(codec, live) && Reading(codec, live) == RecordSets(current);
    ReadsAsApplied(codec, live, Run(codec, live, Actions(codec, current, changes)).value, changes);
    if I.WellFormed(RecordSets(current)) {
      var after := AppliedAll(changes, RecordSets(current));
      forall k | k !in Touched(changes)
        ensures (k in RecordSets(current) <==>
          k in after) && (k in RecordSets(current) ==> RecordSets(current)[k] == after[k])
      {
        UntouchedStays(changes, RecordSets(current), k);
      }
      I.AffectedCheckIsFullCheck(RecordSets(current), after, Touched(changes));
    }
  }
}
