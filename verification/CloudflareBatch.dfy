/** Guarded changes as one Cloudflare batch of deletes and posts, and what an accepted answer
    means for the zone (crates/center-adapter-cloudflare/src/lib.rs, `plan_batch` and
    `validate_batch_result`). */
module CloudflareBatch {
  import opened Basics
  import opened Dns
  import opened CloudflareRecords
  import O = Ordering

  const MAX_CHANGES := 1_000
  const MAX_BATCH_OPERATIONS := 10_000

  /** One object to be created. */
  datatype Post = Post(
    name: string, ttl: nat, value: Value, proxied: Option<bool>, flatten: Option<bool>,
    comment: Option<string>, tags: set<string>)

  datatype Batch = Batch(deletes: set<string>, posts: multiset<Post>)

  datatype PlanRejection =
    | GuardConflict | Unrenderable | MissingObjectIds | UnusableObjectId | OperationLimit | EmptyBatch

  function PostOf(r: RecordSet, v: Value): Post
    requires !r.ttl.Inherited?
  {
    var ttl := if r.ttl.Automatic? then 1 else r.ttl.seconds;
    if r.extension.Some? && r.extension.value.Cloudflare? then
      var e := r.extension.value;
      var proxied := if e.proxy.None? then None else Some(e.proxy.value == Proxied);
      var flatten := match e.flattening
        case ProviderDefault => None
        case Flatten => Some(true)
        case DoNotFlatten => Some(false);
      Post(r.key.owner, ttl, v, proxied, flatten, e.comment, e.tags)
    else Post(r.key.owner, ttl, v, None, None, None, {})
  }

  /** `render_record_set`; SOA values and CAA values that are not UTF-8 cannot be rendered. */
  function Render(utf8: Value -> bool, r: RecordSet): Option<set<Post>> {
    if r.extension.Some? && !r.extension.value.Cloudflare? then None
    else if r.ttl.Inherited? then None
    else if exists v :: v in r.values && (v.kind == Soa || (v.kind == Caa && !utf8(v))) then None
    else Some(set v | v in r.values :: PostOf(r, v))
  }

  /** Why a single change is turned down, apart from its object ids. */
  function Turndown(utf8: Value -> bool, current: map<Key, Observed>, c: Change): Option<PlanRejection> {
    match c
    case Create(recordSet) =>
      if recordSet.key in current then Some(GuardConflict)
      else if Render(utf8, recordSet).None? then Some(Unrenderable) else None
    case Replace(previous, desired) =>
      if desired.key !in current || current[desired.key] != previous then Some(GuardConflict)
      else if Render(utf8, desired).None? then Some(Unrenderable) else None
    case Delete(previous) =>
      var k := previous.recordSet.key;
      if k !in current || current[k] != previous then Some(GuardConflict) else None
  }

  /** The object ids that a change deletes. */
  function Removed(c: Change): set<string> {
    if c.Create? then {} else c.previous.objectIds
  }

  function Deletes(changes: seq<Change>): set<string> {
    set i, id | 0 <= i < |changes| && id in Removed(changes[i]) :: id
  }

  function PostsOf(utf8: Value -> bool, c: Change): multiset<Post> {
    if c.Delete? then multiset{}
    else
      var posts := Render(utf8, if c.Create? then c.recordSet else c.desired);
      if posts.None? then multiset{} else multiset(posts.value)
  }

  function Posts(utf8: Value -> bool, changes: seq<Change>): multiset<Post> {
    if |changes| == 0 then multiset{}
    else Posts(utf8, changes[..|changes| - 1]) + PostsOf(utf8, changes[|changes| - 1])
  }

  predicate UsableIds(c: Change) {
    c.Create? || (c.previous.objectIds != {} && forall id :: id in c.previous.objectIds ==> ValidId(id))
  }

  ghost predicate Plannable(utf8: Value -> bool, current: map<Key, Observed>, changes: seq<Change>) {
    && (forall i :: 0 <= i < |changes| ==> Turndown(utf8, current, changes[i]).None? && UsableIds(changes[i]))
    && (forall i, j :: 0 <= i < j < |changes| ==> Removed(changes[i]) !! Removed(changes[j]))
  }

  // ---------------------------------------------------------------- planning

  method CollectDeleteIds(objectIds: set<string>, ids: set<string>) returns (r: Result<set<string>, PlanRejection>)
    ensures r.Ok? <==> objectIds != {} && objectIds !! ids && forall id :: id in objectIds ==> ValidId(id)
    ensures r.Ok? ==> r.value == ids + objectIds
    ensures r.Err? ==> r.error == if objectIds == {} then MissingObjectIds else UnusableObjectId
  {
    if objectIds == {} {
      return Err(MissingObjectIds);
    }
    var all, rest := ids, objectIds;
    while rest != {}
      invariant rest <= objectIds
      invariant all == ids + (objectIds - rest)
      invariant (objectIds - rest) !! ids
      invariant forall id :: id in objectIds - rest ==> ValidId(id)
      decreases rest
    {
      var id :| id in rest;
      if !ValidId(id) || id in all {
        return Err(UnusableObjectId);
      }
      all, rest := all + {id}, rest - {id};
    }
    r := Ok(all);
  }

  lemma DeletesAppend(changes: seq<Change>, c: Change)
    ensures Deletes(changes + [c]) == Deletes(changes) + Removed(c)
  {
    var all := changes + [c];
    assert all[|changes|] == c;
    forall id ensures id in Deletes(all) <==> id in Deletes(changes) + Removed(c) {
      if id in Deletes(changes) {
        var i :| 0 <= i < |changes| && id in Removed(changes[i]);
        assert all[i] == changes[i];
      }
    }
  }

  lemma PlanOneMore(utf8: Value -> bool, current: map<Key, Observed>, changes: seq<Change>, c: Change)
    requires Plannable(utf8, current, changes)
    ensures Plannable(utf8, current, changes + [c]) <==>
      Turndown(utf8, current, c).None? && UsableIds(c) && Removed(c) !! Deletes(changes)
    ensures Posts(utf8, changes + [c]) == Posts(utf8, changes) + PostsOf(utf8, c)
  {
    var all, n := changes + [c], |changes|;
    assert all[..n] == changes && all[n] == c;
    assert forall i :: 0 <= i < n ==> all[i] == changes[i];
    if Plannable(utf8, current, all) {
      forall id | id in Deletes(changes) ensures id !in Removed(c) {
        var i :| 0 <= i < n && id in Removed(changes[i]);
        assert Removed(all[i]) !! Removed(all[n]);
      }
    }
    if Removed(c) !! Deletes(changes) {
      forall i | 0 <= i < n ensures Removed(all[i]) !! Removed(all[n]) {
        assert Removed(changes[i]) <= Deletes(changes);
      }
    }
  }

  lemma PlanStops(utf8: Value -> bool, current: map<Key, Observed>, changes: seq<Change>, i: nat)
    requires i < |changes| && Plannable(utf8, current, changes[..i])
    requires
      || Turndown(utf8, current, changes[i]).Some?
      || !UsableIds(changes[i])
      || !(Removed(changes[i]) !! Deletes(changes[..i]))
    ensures !Plannable(utf8, current, changes)
  {
    var front := changes[..i + 1];
    assert front == changes[..i] + [changes[i]];
    PlanOneMore(utf8, current, changes[..i], changes[i]);
    assert forall j :: 0 <= j < i + 1 ==> front[j] == changes[j];
  }

  lemma PlanGrows(utf8: Value -> bool, current: map<Key, Observed>, changes: seq<Change>, i: nat)
    requires i < |changes| && Plannable(utf8, current, changes[..i])
    requires Turndown(utf8, current, changes[i]).None? && UsableIds(changes[i])
    requires Removed(changes[i]) !! Deletes(changes[..i])
    ensures Plannable(utf8, current, changes[..i + 1])
    ensures Deletes(changes[..i + 1]) == Deletes(changes[..i]) + Removed(changes[i])
    ensures Posts(utf8, changes[..i + 1]) == Posts(utf8, changes[..i]) + PostsOf(utf8, changes[i])
  {
    assert changes[..i + 1] == changes[..i] + [changes[i]];
    PlanOneMore(utf8, current, changes[..i], changes[i]);
    DeletesAppend(changes[..i], changes[i]);
  }

  /** One change of `plan_batch`. */
  method PlanChange(utf8: Value -> bool, current: map<Key, Observed>, c: Change, deletes: set<string>,
                    posts: multiset<Post>)
    returns (r: Result<Batch, PlanRejection>)
    ensures r.Ok? <==> Turndown(utf8, current, c).None? && UsableIds(c) && Removed(c) !! deletes
    ensures r.Ok? ==> r.value == Batch(deletes + Removed(c), posts + PostsOf(utf8, c))
    ensures r.Err? ==>
      r.error == if Turndown(utf8, current, c).Some? then Turndown(utf8, current, c).value
                 else if c.Create? || c.previous.objectIds == {} then MissingObjectIds else UnusableObjectId
    ensures r.Err? ==> r.error !in {EmptyBatch, OperationLimit}
  {
    var turndown := Turndown(utf8, current, c);
    if turndown.Some? {
      return Err(turndown.value);
    }
    if c.Create? {
      return Ok(Batch(deletes, posts + PostsOf(utf8, c)));
    }
    var collected := CollectDeleteIds(c.previous.objectIds, deletes);
    if collected.Err? {
      return Err(collected.error);
    }
    r := Ok(Batch(collected.value, posts + PostsOf(utf8, c)));
  }

  /** `plan_batch`: accepted exactly when every guard, rendering and object id is good and the batch
      is neither empty nor too large; and then it is the deletes and posts of the changes. */
  method PlanBatch(utf8: Value -> bool, changes: seq<Change>, current: map<Key, Observed>)
    returns (r: Result<Batch, PlanRejection>)
    ensures r.Ok? <==>
      && Plannable(utf8, current, changes)
      && 0 < |Deletes(changes)| + |Posts(utf8, changes)| <= MAX_BATCH_OPERATIONS
    ensures r.Ok? ==> r.value == Batch(Deletes(changes), Posts(utf8, changes))
    ensures r.Err? && Plannable(utf8, current, changes) ==>
      r.error == if |Deletes(changes)| + |Posts(utf8, changes)| == 0 then EmptyBatch else OperationLimit
    ensures r.Err? && !Plannable(utf8, current, changes) ==> r.error !in {EmptyBatch, OperationLimit}
  {
    var batch := Batch({}, multiset{});
    var i := 0;
    while i < |changes|
      invariant 0 <= i <= |changes|
      invariant Plannable(utf8, current, changes[..i])
      invariant batch == Batch(Deletes(changes[..i]), Posts(utf8, changes[..i]))
    {
      var c := changes[i];
      var next := PlanChange(utf8, current, c, batch.deletes, batch.posts);
      if next.Err? {
        PlanStops(utf8, current, changes, i);
        return Err(next.error);
      }
      PlanGrows(utf8, current, changes, i);
      batch := next.value;
      i := i + 1;
    }
    assert changes[..i] == changes;
    if |batch.deletes| + |batch.posts| > MAX_BATCH_OPERATIONS {
      return Err(OperationLimit);
    }
    if batch.deletes == {} && batch.posts == multiset{} {
      return Err(EmptyBatch);
    }
    r := Ok(batch);
  }

  // ---------------------------------------------------------------- the answer

  function RecordSets(observed: map<Key, Observed>): map<Key, RecordSet> {
    map k | k in observed :: observed[k].recordSet
  }

  ghost predicate AnswersWith(z: Zone, changes: seq<Change>, posted: seq<Record>, actual: map<Key, Observed>) {
    Aggregates(RulesOf(z), posted, actual) && RecordSets(actual) == Expected(changes)
  }

  /** `validate_batch_result`: accepted exactly when the answer names just the planned deletes and its
      posts, read back as record sets, are just the expected ones. */
  method ValidateBatchResult(z: Zone, changes: seq<Change>, request: Batch, deleted: seq<string>, posted: seq<Record>)
    returns (ok: bool)
    ensures ok <==>
      && |deleted| == |request.deletes| && (set id | id in deleted) == request.deletes
      && |posted| == |request.posts|
      && exists actual :: AnswersWith(z, changes, posted, actual)
  {
    if |deleted| != |request.deletes| || (set id | id in deleted) != request.deletes {
      return false;
    }
    if |posted| != |request.posts| || exists r :: r in posted && !ValidId(r.id) {
      return false;
    }
    var observed := AggregateRecords(z, posted);
    if observed.Err? {
      return false;
    }
    ok := RecordSets(observed.value) == Expected(changes);
    if ok {
      assert AnswersWith(z, changes, posted, observed.value);
    } else {
      forall actual ensures !AnswersWith(z, changes, posted, actual) {
        if AnswersWith(z, changes, posted, actual) {
          AggregationUnique(RulesOf(z), posted, observed.value, actual);
        }
      }
    }
  }

  // ---------------------------------------------------------------- meaning

  /** What the provider does with a batch: the listed objects go, the posted ones come under fresh ids,
      everything else stays. */
  ghost predicate Performed(before: seq<Record>, after: seq<Record>, deletes: set<string>, posted: seq<Record>) {
    && O.DistinctKeys(after, IdOf)
    && (forall r :: r in after <==> (r in before && r.id !in deletes) || r in posted)
  }

  ghost predicate AllClear(utf8: Value -> bool, current: map<Key, Observed>, changes: seq<Change>) {
    forall i :: 0 <= i < |changes| ==> Turndown(utf8, current, changes[i]).None?
  }

  lemma TouchedByOne(changes: seq<Change>, k: Key) returns (i: nat)
    requires k in Touched(changes)
    ensures i < |changes| && ChangeKey(changes[i]) == k
  {
    i :| 0 <= i < |changes| && ChangeKey(changes[i]) == k;
  }

  /** Every object of a touched record set is among the deletes. */
  lemma TouchedObjectsGo(p: Rules, utf8: Value -> bool, before: seq<Record>, current: map<Key, Observed>,
                         changes: seq<Change>, k: Key, r: Record)
    requires Conserving(p) && Aggregates(p, before, current) && ValidChanges(changes)
    requires AllClear(utf8, current, changes)
    requires k in Touched(changes) && r in before && p.key(r) == Some(k)
    ensures r.id in Deletes(changes)
  {
    var i := TouchedByOne(changes, k);
    assert HasKey(p, before, k);
    assert Turndown(utf8, current, changes[i]).None?;
    assert !changes[i].Create?;
    IdsPartition(p, before, current, k, r.id);
    assert r.id in Removed(changes[i]);
  }

  /** No object of any other record set is. */
  lemma OtherObjectsStay(p: Rules, utf8: Value -> bool, before: seq<Record>, current: map<Key, Observed>,
                         changes: seq<Change>, k: Key, r: Record)
    requires Conserving(p) && Aggregates(p, before, current) && ValidChanges(changes)
    requires AllClear(utf8, current, changes)
    requires k !in Touched(changes) && r in before && p.key(r) == Some(k)
    ensures r.id !in Deletes(changes)
  {
    if r.id in Deletes(changes) {
      var i :| 0 <= i < |changes| && r.id in Removed(changes[i]);
      assert Turndown(utf8, current, changes[i]).None?;
      var j := ChangeKey(changes[i]);
      IdsPartition(p, before, current, j, r.id);
      var x :| x in before && x.id == r.id && p.key(x) == Some(j);
      SameIdSameRecord(before, x, r);
    }
  }

  /** Collecting delete ids from an aggregated inventory cannot fail: only guards, rendering and size
      can stop a plan. */
  lemma DeleteIdsNeverClash(p: Rules, utf8: Value -> bool, before: seq<Record>, current: map<Key, Observed>,
                            changes: seq<Change>)
    requires Conserving(p) && Aggregates(p, before, current) && ValidChanges(changes)
    ensures Plannable(utf8, current, changes) <==> AllClear(utf8, current, changes)
  {
    if AllClear(utf8, current, changes) {
      forall i | 0 <= i < |changes| ensures UsableIds(changes[i]) {
        ClearIdsUsable(p, utf8, before, current, changes[i]);
      }
      forall i, j | 0 <= i < j < |changes| ensures Removed(changes[i]) !! Removed(changes[j]) {
        ClearIdsDisjoint(p, utf8, before, current, changes[i], changes[j]);
      }
    }
  }

  lemma ClearIdsUsable(p: Rules, utf8: Value -> bool, before: seq<Record>, current: map<Key, Observed>, c: Change)
    requires Conserving(p) && Aggregates(p, before, current) && Turndown(utf8, current, c).None?
    requires c.Replace? ==> c.previous.recordSet.key == c.desired.key
    ensures UsableIds(c)
  {
    if !c.Create? {
      ObservedIdsUsable(p, before, current, ChangeKey(c));
    }
  }

  lemma ClearIdsDisjoint(p: Rules, utf8: Value -> bool, before: seq<Record>, current: map<Key, Observed>, c: Change,
                         d: Change)
    requires Conserving(p) && Aggregates(p, before, current) && ChangeKey(c) != ChangeKey(d)
    requires Turndown(utf8, current, c).None? && Turndown(utf8, current, d).None?
    ensures Removed(c) !! Removed(d)
  {
    if !c.Create? && !d.Create? {
      ObservedIdsDisjoint(p, before, current, ChangeKey(c), ChangeKey(d));
    }
  }

  lemma ObservedIdsUsable(p: Rules, records: seq<Record>, result: map<Key, Observed>, k: Key)
    requires Conserving(p) && Aggregates(p, records, result) && k in result
    ensures result[k].objectIds != {} && forall id :: id in result[k].objectIds ==> ValidId(id)
  {
    assert HasKey(p, records, k);
    var r :| r in records && p.key(r) == Some(k);
    IdsPartition(p, records, result, k, r.id);
    forall id | id in result[k].objectIds ensures ValidId(id) {
      IdsPartition(p, records, result, k, id);
      var x :| x in records && x.id == id && p.key(x) == Some(k);
    }
  }

  lemma ObservedIdsDisjoint(p: Rules, records: seq<Record>, result: map<Key, Observed>, a: Key, b: Key)
    requires Conserving(p) && Aggregates(p, records, result) && a in result && b in result && a != b
    ensures result[a].objectIds !! result[b].objectIds
  {
    forall id | id in result[a].objectIds ensures id !in result[b].objectIds {
      IdsPartition(p, records, result, a, id);
      IdsPartition(p, records, result, b, id);
      var x :| x in records && x.id == id && p.key(x) == Some(a);
      if y :| y in records && y.id == id && p.key(y) == Some(b) {
        SameIdSameRecord(records, x, y);
      }
    }
  }

  /** The observations after a batch: new ones for the expected record sets, the old ones untouched. */
  ghost function Merged(current: map<Key, Observed>, changes: seq<Change>, actual: map<Key, Observed>): map<Key,
                        Observed> {
    (current - Touched(changes)) + actual
  }

  /** Which objects are under `k` after the batch. */
  lemma ObjectsAfter(p: Rules, utf8: Value -> bool, before: seq<Record>, current: map<Key, Observed>,
                     changes: seq<Change>,
                     posted: seq<Record>, actual: map<Key, Observed>, after: seq<Record>, k: Key, r: Record)
    requires Conserving(p) && Aggregates(p, before, current) && ValidChanges(changes)
    requires AllClear(utf8, current, changes)
    requires Aggregates(p, posted, actual) && actual.Keys <= Touched(changes)
    requires Performed(before, after, Deletes(changes), posted)
    requires p.key(r) == Some(k)
    ensures r in after <==> if k in Touched(changes) then r in posted else r in before
  {
    if r in before {
      if k in Touched(changes) {
        TouchedObjectsGo(p, utf8, before, current, changes, k, r);
      } else {
        OtherObjectsStay(p, utf8, before, current, changes, k, r);
      }
    }
    if r in posted {
      assert HasKey(p, posted, k);
    }
  }

  lemma RrsetAfter(p: Rules, from: seq<Record>, after: seq<Record>, k: Key, o: Observed)
    requires IsRrset(p, from, k, o)
    requires forall r :: p.key(r) == Some(k) ==> (r in after <==> r in from)
    ensures IsRrset(p, after, k, o)
  {
  }

  /** An accepted batch, performed, does exactly the changes: aggregating the zone afterwards gives the
      old inventory with just the changes applied, and untouched record sets are identical down to
      object ids and revision. */
  lemma AcceptedBatchIsTheChanges(p: Rules, utf8: Value -> bool, before: seq<Record>, current: map<Key, Observed>,
                                  changes: seq<Change>,
                                  posted: seq<Record>, actual: map<Key, Observed>, after: seq<Record>)
    requires Conserving(p) && Aggregates(p, before, current) && ValidChanges(changes)
    requires AllClear(utf8, current, changes)
    requires Aggregates(p, posted, actual) && RecordSets(actual) == Expected(changes)
    requires Performed(before, after, Deletes(changes), posted)
    ensures Aggregates(p, after, Merged(current, changes, actual))
    ensures RecordSets(Merged(current, changes, actual)) == AppliedAll(changes, RecordSets(current))
  {
    MergedRecordSets(current, changes, actual);
    MergedAggregates(p, utf8, before, current, changes, posted, actual, after);
  }

  lemma MergedRecordSets(current: map<Key, Observed>, changes: seq<Change>, actual: map<Key, Observed>)
    requires ValidChanges(changes) && RecordSets(actual) == Expected(changes)
    ensures actual.Keys <= Touched(changes)
    ensures RecordSets(Merged(current, changes, actual)) == AppliedAll(changes, RecordSets(current))
  {
    AppliedIsOverlay(changes, RecordSets(current));
    assert actual.Keys == RecordSets(actual).Keys;
  }

  lemma MergedAggregates(p: Rules, utf8: Value -> bool, before: seq<Record>, current: map<Key, Observed>,
                         changes: seq<Change>,
                         posted: seq<Record>, actual: map<Key, Observed>, after: seq<Record>)
    requires Conserving(p) && Aggregates(p, before, current) && ValidChanges(changes)
    requires AllClear(utf8, current, changes)
    requires Aggregates(p, posted, actual) && actual.Keys <= Touched(changes)
    requires Performed(before, after, Deletes(changes), posted)
    ensures Aggregates(p, after, Merged(current, changes, actual))
  {
    var merged := Merged(current, changes, actual);
    forall r | r in after ensures RecordOk(p, r) {
    }
    forall k, r | p.key(r) == Some(k)
      ensures r in after <==> if k in Touched(changes) then r in posted else r in before
    {
      ObjectsAfter(p, utf8, before, current, changes, posted, actual, after, k, r);
    }
    forall k ensures k in merged <==> HasKey(p, after, k) {
      MergedKey(p, before, current, changes, posted, actual, after, k);
    }
    forall k | k in merged ensures IsRrset(p, after, k, merged[k]) {
      if k in actual {
        RrsetAfter(p, posted, after, k, actual[k]);
      } else {
        RrsetAfter(p, before, after, k, current[k]);
      }
    }
  }

  lemma MergedKey(p: Rules, before: seq<Record>, current: map<Key, Observed>, changes: seq<Change>,
                  posted: seq<Record>, actual: map<Key, Observed>, after: seq<Record>, k: Key)
    requires Aggregates(p, before, current) && Aggregates(p, posted, actual) && actual.Keys <= Touched(changes)
    requires forall r :: p.key(r) == Some(k) ==> (r in after <==>
      if k in Touched(changes) then r in posted else r in before)
    ensures k in Merged(current, changes, actual) <==> HasKey(p, after, k)
  {
    assert HasKey(p, after, k) <==> if k in Touched(changes) then HasKey(p, posted, k) else HasKey(p, before, k);
  }

  datatype Outcome = Done | Refused | Unknown

  datatype GuardStrength = BestEffort | Atomic

  /** `DnsRecordChange::validate`; its guard names the observed revision. */
  predicate AdmittedChange(z: Zone, c: Change) {
    && (c.Create? ==> Validate(z, c.recordSet))
    && (c.Replace? ==> Validate(z, c.desired) && c.previous.recordSet.key == c.desired.key)
    && (!c.Create? ==> Validate(z, c.previous.recordSet) && c.previous.zone == z.id)
    && !(ChangeKey(c).owner == z.apex && (ChangeKey(c).kind == Ns || ChangeKey(c).kind == Soa))
  }

  /** `validate_dns_changes` in a Cloudflare zone. */
  predicate Admitted(z: Zone, changes: seq<Change>) {
    && 0 < |changes| <= MAX_CHANGES
    && ValidChanges(changes)
    && (forall i :: 0 <= i < |changes| ==> AdmittedChange(z, changes[i]))
    && (forall i, j :: 0 <= i < |changes| && 0 <= j < |changes| ==> Coexist(changes[i], changes[j]))
  }

  /** A desired CNAME shares its owner with no other desired type. */
  predicate Coexist(c: Change, d: Change) {
    !c.Delete? && !d.Delete? && ChangeKey(c).owner == ChangeKey(d).owner && ChangeKey(c).kind == Cname ==>
      ChangeKey(d).kind == Cname
  }

  /** Everything that `apply_record_changes` insists on before it sends a batch. */
  ghost predicate Sendable(z: Zone, utf8: Value -> bool, guard: GuardStrength, changes: seq<Change>,
                           records: seq<Record>,
                           current: map<Key, Observed>)
  {
    && Admitted(z, changes)
    && guard == BestEffort
    && Aggregates(RulesOf(z), records, current)
    && Plannable(utf8, current, changes)
    && 0 < |Deletes(changes)| + |Posts(utf8, changes)| <= MAX_BATCH_OPERATIONS
  }

  /** And before it reports success. */
  ghost predicate Succeeds(z: Zone, utf8: Value -> bool, guard: GuardStrength, changes: seq<Change>,
                           records: seq<Record>,
                           deleted: seq<string>, posted: seq<Record>,
                           current: map<Key, Observed>, actual: map<Key, Observed>)
  {
    && Sendable(z, utf8, guard, changes, records, current)
    && DeletesConfirmed(changes, deleted)
    && |posted| == |Posts(utf8, changes)|
    && AnswersWith(z, changes, posted, actual)
  }

  /** The answer names each planned delete once. */
  ghost predicate DeletesConfirmed(changes: seq<Change>, deleted: seq<string>) {
    |deleted| == |Deletes(changes)| && (set id | id in deleted) == Deletes(changes)
  }

  /** `apply_record_changes` around the provider's answer: refused exactly when nothing may be sent,
      and successful exactly when, besides, the answer fits. */
  method ApplyRecordChanges(z: Zone, utf8: Value -> bool, guard: GuardStrength, changes: seq<Change>,
                            records: seq<Record>,
                            deleted: seq<string>, posted: seq<Record>)
    returns (outcome: Outcome)
    ensures outcome != Refused <==> exists current :: Sendable(z, utf8, guard, changes, records, current)
    ensures outcome == Done <==>
      exists current, actual :: Succeeds(z, utf8, guard, changes, records, deleted, posted, current, actual)
  {
    if !Admitted(z, changes) || guard != BestEffort {
      return Refused;
    }
    var observed := AggregateRecords(z, records);
    if observed.Err? {
      return Refused;
    }
    forall other | Aggregates(RulesOf(z), records, other) ensures other == observed.value {
      AggregationUnique(RulesOf(z), records, observed.value, other);
    }
    var batch := PlanBatch(utf8, changes, observed.value);
    if batch.Err? {
      return Refused;
    }
    assert Sendable(z, utf8, guard, changes, records, observed.value);
    var ok := ValidateBatchResult(z, changes, batch.value, deleted, posted);
    if !ok {
      return Unknown;
    }
    ghost var actual :| AnswersWith(z, changes, posted, actual);
    assert Succeeds(z, utf8, guard, changes, records, deleted, posted, observed.value, actual);
    outcome := Done;
  }

  /** When success is reported and the provider performed what it answered, the zone has changed by
      exactly the changes. */
  lemma SuccessIsTheChanges(z: Zone, utf8: Value -> bool, guard: GuardStrength, changes: seq<Change>,
                            records: seq<Record>,
                            deleted: seq<string>, posted: seq<Record>,
                            current: map<Key, Observed>, actual: map<Key, Observed>, after: seq<Record>)
    requires Succeeds(z, utf8, guard, changes, records, deleted, posted, current, actual)
    requires Performed(records, after, Deletes(changes), posted)
    ensures Aggregates(RulesOf(z), after, Merged(current, changes, actual))
    ensures RecordSets(Merged(current, changes, actual)) == AppliedAll(changes, RecordSets(current))
  {
    RulesConserve(z);
    AcceptedBatchIsTheChanges(RulesOf(z), utf8, records, current, changes, posted, actual, after);
  }
}
