/** The SQL capability store: every statement is one atomic step on the table, and statements of
    any number of concurrent callers interleave (crates/center-adapter-sql/src/cloud_capabilities.rs).
    `put_if_current` is two statements: the conditional UPDATE and, when it changed no row, a SELECT. */
module SqlCapabilities {
  import opened Basics
  import opened ScopeKeys
  import opened CapabilityRegister

  datatype Key = Key(account: string, scope: Scope)

  type RowId = (string, Bytes)

  /** A row of `cloud_capability_snapshots`; `json` is NULL or the stored snapshot, and the
      `snapshot_*` columns keep the fence it was written under even when `json` is nulled. */
  datatype Row = Row(
    generation: nat, revision: Option<string>, epoch: nat, token: string,
    json: Option<Snapshot>,
    snapGeneration: Option<nat>, snapRevision: Option<string>, snapEpoch: Option<nat>, snapToken: Option<string>)

  /** A put whose UPDATE changed no row and whose SELECT is still to come. */
  datatype Missed = Missed(key: Key, snapshot: Snapshot)

  datatype State = State(
    rows: map<RowId, Row>,
    puts: map<nat, Missed>,
    used: set<string>,           // every UUID drawn, and every token presented, so far
    issued: set<(Key, Fence)>)   // every fence returned by begin_discovery

  datatype Event =
    | Begin(key: Key, generation: nat, revision: Option<string>, token: string)
    | Update(id: nat, key: Key, snapshot: Snapshot)
    | Select(id: nat)
    | Invalidate(account: string, generation: nat, revision: Option<string>, token: string)

  datatype Outcome = FenceLost | AlreadyStored | CommittedDifferently | ChangedDuringWrite

  const Init := State(map[], map[], {}, {})

  predicate Encodable(key: Key) {
    KeyOf(key.scope).Ok?
  }

  function IdOf(key: Key): RowId
    requires Encodable(key)
  {
    (key.account, KeyOf(key.scope).value)
  }

  function Authority(row: Row): Fence {
    Fence(row.generation, row.revision, row.epoch, row.token)
  }

  /** The WHERE clause of the conditional UPDATE. */
  predicate Hits(row: Row, s: Snapshot) {
    && Authority(row) == s.fence
    && (row.snapEpoch != Some(s.fence.epoch) || row.snapToken != Some(s.fence.token) || row.json == Some(s))
  }

  predicate AuthorityStale(row: Row, generation: nat, revision: Option<string>) {
    row.generation == generation && row.revision == revision
  }

  predicate SnapshotStale(row: Row, generation: nat, revision: Option<string>) {
    row.snapGeneration == Some(generation) && row.snapRevision == revision
  }

  function Revoke(row: Row, generation: nat, revision: Option<string>, token: string): Row {
    row.(epoch := if AuthorityStale(row, generation, revision) then row.epoch + 1 else row.epoch,
         token := if AuthorityStale(row, generation, revision) then token else row.token,
         json := if SnapshotStale(row, generation, revision) then None else row.json)
  }

  /** `put_if_current` after the SELECT. */
  function Answer(rows: map<RowId, Row>, m: Missed): Outcome
    requires Encodable(m.key)
  {
    if IdOf(m.key) !in rows then FenceLost else
    var row := rows[IdOf(m.key)];
    if Authority(row) != m.snapshot.fence then FenceLost
    else match row.json
      case Some(stored) => if stored == m.snapshot then AlreadyStored else CommittedDifferently
      case None => ChangedDuringWrite
  }

  /** A fence that names a row's authority though no begin returned it: the token that an invalidation
      drew and told nobody. */
  predicate Guessed(s: State, key: Key, f: Fence)
    requires Encodable(key)
  {
    IdOf(key) in s.rows && Authority(s.rows[IdOf(key)]) == f && (key, f) !in s.issued
  }

  predicate Enabled(s: State, e: Event) {
    match e
    case Begin(key, generation, _, token) =>
      && Encodable(key) && 0 < generation <= I64_MAX && token !in s.used
      && (IdOf(key) in s.rows ==> s.rows[IdOf(key)].epoch < I64_MAX)
    case Update(id, key, snapshot) => Encodable(key) && id !in s.puts && !Guessed(s, key, snapshot.fence)
    case Select(id) => id in s.puts && Encodable(s.puts[id].key)
    case Invalidate(_, generation, _, token) => 0 < generation <= I64_MAX && token !in s.used
  }

  function BeginStep(s: State, key: Key, generation: nat, revision: Option<string>, token: string): State
    requires Enabled(s, Begin(key, generation, revision, token))
  {
    var id := IdOf(key);
    var row := if id in s.rows
               then s.rows[id].(generation := generation, revision := revision,
                                epoch := s.rows[id].epoch + 1, token := token)
               else Row(generation, revision, 1, token, None, None, None, None, None);
    s.(rows := s.rows[id := row], used := s.used + {token}, issued := s.issued + {(key, Authority(row))})
  }

  function UpdateStep(s: State, id: nat, key: Key, snap: Snapshot): State
    requires Encodable(key)
  {
    var k := IdOf(key);
    var used := s.used + {snap.fence.token};
    if k in s.rows && Hits(s.rows[k], snap) then
      var f := snap.fence;
      s.(rows := s.rows[k := s.rows[k].(json := Some(snap), snapGeneration := Some(f.generation),
                                        snapRevision := f.revision, snapEpoch := Some(f.epoch),
                                        snapToken := Some(f.token))],
         used := used)
    else
      s.(puts := s.puts[id := Missed(key, snap)], used := used)
  }

  function Apply(s: State, e: Event): State
    requires Enabled(s, e)
  {
    match e
    case Begin(key, generation, revision, token) => BeginStep(s, key, generation, revision, token)
    case Update(id, key, snapshot) => UpdateStep(s, id, key, snapshot)
    case Select(id) => s.(puts := s.puts - {id})
    case Invalidate(account, generation, revision, token) =>
      s.(rows := map k | k in s.rows ::
           if k.0 == account then Revoke(s.rows[k], generation, revision, token) else s.rows[k],
         used := s.used + {token})
  }

  predicate StepAt(ss: seq<State>, es: seq<Event>, i: nat)
    requires |ss| == |es| + 1 && i < |es|
  {
    Enabled(ss[i], es[i]) && ss[i + 1] == Apply(ss[i], es[i])
  }

  ghost predicate IsRun(ss: seq<State>, es: seq<Event>) {
    |ss| == |es| + 1 && ss[0] == Init && forall i: nat :: i < |es| ==> StepAt(ss, es, i)
  }

  // ---------------------------------------------------------------- invariant

  /** The snapshot columns name the row's own authority. */
  predicate SnapshotIsCurrent(row: Row) {
    row.snapEpoch == Some(row.epoch) && row.snapToken == Some(row.token)
  }

  /** The snapshot columns name the fence that the stored snapshot carries; and whenever they name
      the current authority, the snapshot is there. */
  predicate RowOk(row: Row) {
    && (row.json.Some? ==>
          var f := row.json.value.fence;
          && row.snapGeneration == Some(f.generation) && row.snapRevision == f.revision
          && row.snapEpoch == Some(f.epoch) && row.snapToken == Some(f.token))
    && (SnapshotIsCurrent(row) ==>
          row.json.Some? && row.snapGeneration == Some(row.generation) && row.snapRevision == row.revision)
  }

  predicate TokensDrawn(row: Row, used: set<string>) {
    row.token in used && (row.snapToken.Some? ==> row.snapToken.value in used)
  }

  /** A fence is older than its row's authority, or is that authority. */
  predicate IssuedOk(s: State, key: Key, f: Fence) {
    && Encodable(key) && IdOf(key) in s.rows && f.token in s.used
    && var row := s.rows[IdOf(key)];
    && f.epoch <= row.epoch
    && (f.token == row.token ==> f == Authority(row))
  }

  /** A missed put whose fence is still the authority lost to a different snapshot under it. */
  predicate PutOk(s: State, m: Missed) {
    && Encodable(m.key) && m.snapshot.fence.token in s.used
    && (IdOf(m.key) in s.rows ==>
          var row := s.rows[IdOf(m.key)];
          (Authority(row) == m.snapshot.fence ==>
             && (m.key, m.snapshot.fence) in s.issued && SnapshotIsCurrent(row)
             && row.json.Some? && row.json.value != m.snapshot))
  }

  ghost predicate Inv(s: State) {
    && (forall k :: k in s.rows ==> RowOk(s.rows[k]) && TokensDrawn(s.rows[k], s.used))
    && (forall key, f :: (key, f) in s.issued ==> IssuedOk(s, key, f))
    && (forall id :: id in s.puts ==> PutOk(s, s.puts[id]))
  }

  lemma BeginKeepsInv(s: State, e: Event)
    requires Inv(s) && Enabled(s, e) && e.Begin?
    ensures Inv(Apply(s, e))
  {
  }

  lemma UpdateKeepsInv(s: State, e: Event)
    requires Inv(s) && Enabled(s, e) && e.Update?
    ensures Inv(Apply(s, e))
  {
  }

  lemma InvalidateKeepsInv(s: State, e: Event)
    requires Inv(s) && Enabled(s, e) && e.Invalidate?
    ensures Inv(Apply(s, e))
  {
  }

  lemma SelectKeepsInv(s: State, e: Event)
    requires Inv(s) && Enabled(s, e) && e.Select?
    ensures Inv(Apply(s, e))
  {
  }

  lemma {:induction false} InvAt(ss: seq<State>, es: seq<Event>, i: nat)
    requires IsRun(ss, es) && i < |ss|
    ensures Inv(ss[i])
  {
    if i > 0 {
      InvAt(ss, es, i - 1);
      assert StepAt(ss, es, i - 1);
      StepKeepsInv(ss[i - 1], es[i - 1]);
    }
  }

  lemma StepKeepsInv(s: State, e: Event)
    requires Inv(s) && Enabled(s, e)
    ensures Inv(Apply(s, e))
  {
    match e
    case Begin(_, _, _, _) => BeginKeepsInv(s, e);
    case Update(_, _, _) => UpdateKeepsInv(s, e);
    case Select(_) => SelectKeepsInv(s, e);
    case Invalidate(_, _, _, _) => InvalidateKeepsInv(s, e);
  }

  /** The last two arms of `put_if_current` are dead: after an UPDATE that changed no row, in every
      run, the SELECT finds a lost fence or another snapshot committed under the same fence; never a
      NULL snapshot, and never the very snapshot that was not written. */
  lemma MissedPutLostOrConflicts(ss: seq<State>, es: seq<Event>, i: nat)
    requires IsRun(ss, es) && i < |es| && es[i].Select? && Enabled(ss[i], es[i])
    ensures Answer(ss[i].rows, ss[i].puts[es[i].id]) in {FenceLost, CommittedDifferently}
  {
    InvAt(ss, es, i);
    assert PutOk(ss[i], ss[i].puts[es[i].id]);
  }

  // ---------------------------------------------------------------- refinement

  /** The register that one key's row stands for. A row whose authority was never handed out (the
      token of a revocation) has no active fence. */
  function Abstract(s: State, key: Key): Register
    requires Encodable(key)
  {
    if IdOf(key) !in s.rows then Empty else
    var row := s.rows[IdOf(key)];
    Register(row.epoch, if (key, Authority(row)) in s.issued then Some(Authority(row)) else None, row.json)
  }

  /** What a statement is for one key's register. */
  function AbstractEvent(s: State, e: Event, key: Key): CapabilityRegister.Event
    requires Enabled(s, e) && Encodable(key)
  {
    match e
    case Begin(k, generation, revision, token) =>
      if k == key then Begun(Fence(generation, revision, Abstract(s, key).epoch + 1, token)) else Idle
    case Update(_, k, snapshot) =>
      if k == key && IdOf(k) in s.rows && Hits(s.rows[IdOf(k)], snapshot) then Stored(snapshot) else Idle
    case Select(_) => Idle
    case Invalidate(account, generation, revision, _) =>
      if account == key.account then Revoked(generation, revision) else Idle
  }

  lemma DistinctKeysDistinctRows(k: Key, l: Key)
    requires Encodable(k) && Encodable(l) && k != l
    ensures IdOf(k) != IdOf(l)
  {
    if IdOf(k) == IdOf(l) {
      ScopeKeyInjective(k.scope, l.scope);
    }
  }

  lemma BeginRefines(s: State, e: Event, key: Key)
    requires Inv(s) && Enabled(s, e) && e.Begin? && Encodable(key)
    ensures Next(Abstract(s, key), AbstractEvent(s, e, key), Abstract(Apply(s, e), key))
  {
    if e.key != key {
      DistinctKeysDistinctRows(e.key, key);
    }
  }

  lemma UpdateRefines(s: State, e: Event, key: Key)
    requires Inv(s) && Enabled(s, e) && e.Update? && Encodable(key)
    ensures Next(Abstract(s, key), AbstractEvent(s, e, key), Abstract(Apply(s, e), key))
  {
    if e.key != key {
      DistinctKeysDistinctRows(e.key, key);
    }
  }

  lemma InvalidateRefines(s: State, e: Event, key: Key)
    requires Inv(s) && Enabled(s, e) && e.Invalidate? && Encodable(key)
    ensures Next(Abstract(s, key), AbstractEvent(s, e, key), Abstract(Apply(s, e), key))
  {
    if IdOf(key) in s.rows {
      var row := s.rows[IdOf(key)];
      assert RowOk(row);
      forall f | (key, f) in s.issued ensures f.token != e.token {
        assert IssuedOk(s, key, f);
      }
    }
  }

  /** Each statement is a register step for every key at once; for keys of another account, and of
      another scope unless it is an invalidation, it is no step at all. */
  lemma StatementRefines(s: State, e: Event, key: Key)
    requires Inv(s) && Enabled(s, e) && Encodable(key)
    ensures Next(Abstract(s, key), AbstractEvent(s, e, key), Abstract(Apply(s, e), key))
  {
    match e
    case Begin(_, _, _, _) => BeginRefines(s, e, key);
    case Update(_, _, _) => UpdateRefines(s, e, key);
    case Select(_) =>
    case Invalidate(_, _, _, _) => InvalidateRefines(s, e, key);
  }

  /** Every run of interleaved statements is, for every key, a run of the fenced register, so all
      that is proved of the register holds of the SQL store. */
  lemma RunRefinesRegister(ss: seq<State>, es: seq<Event>, key: Key)
    returns (rs: seq<Register>, res: seq<CapabilityRegister.Event>)
    requires IsRun(ss, es) && Encodable(key)
    ensures CapabilityRegister.IsRun(rs, res) && |rs| == |ss|
    ensures forall i :: 0 <= i < |ss| ==> rs[i] == Abstract(ss[i], key)
    ensures forall i: nat :: i < |es| ==> StepAt(ss, es, i) && res[i] == AbstractEvent(ss[i], es[i], key)
  {
    forall i | 0 <= i < |es| ensures Enabled(ss[i], es[i]) {
      assert StepAt(ss, es, i);
    }
    rs := seq(|ss|, i requires 0 <= i < |ss| => Abstract(ss[i], key));
    res := seq(|es|, i requires 0 <= i < |es| && Enabled(ss[i], es[i]) => AbstractEvent(ss[i], es[i], key));
    forall i: nat | i < |es| ensures CapabilityRegister.StepAt(rs, res, i) {
      assert StepAt(ss, es, i);
      InvAt(ss, es, i);
      StatementRefines(ss[i], es[i], key);
    }
  }

  /** For instance: whatever the interleaving, two successful puts under one fence of one key wrote
      the same snapshot. */
  lemma FenceCommitsOneSnapshot(ss: seq<State>, es: seq<Event>, i: nat, j: nat)
    requires IsRun(ss, es) && i < j < |es| && es[i].Update? && es[j].Update?
    requires Enabled(ss[i], es[i]) && Enabled(ss[j], es[j])
    requires es[i].key == es[j].key && es[i].snapshot.fence == es[j].snapshot.fence
    requires IdOf(es[i].key) in ss[i].rows && Hits(ss[i].rows[IdOf(es[i].key)], es[i].snapshot)
    requires IdOf(es[j].key) in ss[j].rows && Hits(ss[j].rows[IdOf(es[j].key)], es[j].snapshot)
    ensures es[i].snapshot == es[j].snapshot
  {
    var rs, res := RunRefinesRegister(ss, es, es[i].key);
    assert StepAt(ss, es, i) && StepAt(ss, es, j);
    CapabilityRegister.FenceCommitsOnce(rs, res, i, j);
  }

  // ---------------------------------------------------------------- statements of a run

  /** Statement i begins discovery for `key` and hands out `f`. */
  ghost predicate Begins(ss: seq<State>, es: seq<Event>, i: nat, key: Key, f: Fence)
    requires IsRun(ss, es) && Encodable(key)
  {
    && i < |es| && es[i].Begin? && es[i].key == key
    && IdOf(key) in ss[i + 1].rows && f == Authority(ss[i + 1].rows[IdOf(key)])
  }

  /** Statement i is an UPDATE that commits `s` for `key`. */
  ghost predicate Commits(ss: seq<State>, es: seq<Event>, i: nat, key: Key, s: Snapshot)
    requires IsRun(ss, es) && Encodable(key)
  {
    && i < |es| && es[i].Update? && es[i].key == key && es[i].snapshot == s
    && IdOf(key) in ss[i].rows && Hits(ss[i].rows[IdOf(key)], s)
  }

  /** Statement i invalidates a pair of the account of `key`. */
  predicate Revokes(es: seq<Event>, i: nat, key: Key, generation: nat, revision: Option<string>) {
    && i < |es| && es[i].Invalidate? && es[i].account == key.account
    && es[i].generation == generation && es[i].revision == revision
  }

  /** The statement behind a register event. */
  lemma StatementBehind(ss: seq<State>, es: seq<Event>, i: nat, key: Key)
    requires IsRun(ss, es) && i < |es| && Encodable(key)
    ensures Enabled(ss[i], es[i])
    ensures var e := AbstractEvent(ss[i], es[i], key);
      && (e.Begun? <==> es[i].Begin? && es[i].key == key)
      && (e.Begun? ==> Begins(ss, es, i, key, e.fence))
      && (e.Stored? ==> Commits(ss, es, i, key, e.snapshot))
      && (es[i].Update? && Commits(ss, es, i, key, es[i].snapshot) ==> e == Stored(es[i].snapshot))
      && (forall g, r :: Revokes(es, i, key, g, r) <==> e == Revoked(g, r))
  {
    assert StepAt(ss, es, i);
  }

  /** Only the latest fence that was not revoked commits. */
  lemma OnlyLatestUnrevokedPuts(ss: seq<State>, es: seq<Event>, j: nat, key: Key, s: Snapshot) returns (i: nat)
    requires IsRun(ss, es) && Encodable(key) && Commits(ss, es, j, key, s)
    ensures i < j && Begins(ss, es, i, key, s.fence)
    ensures forall k: nat :: i < k < j ==>
      !(es[k].Begin? && es[k].key == key) && !Revokes(es, k, key, s.fence.generation, s.fence.revision)
  {
    var rs, res := RunRefinesRegister(ss, es, key);
    StatementBehind(ss, es, j, key);
    i := OnlyLatestUnrevokedStores(rs, res, j);
    StatementBehind(ss, es, i, key);
    forall k: nat | i < k < j
      ensures !(es[k].Begin? && es[k].key == key) && !Revokes(es, k, key, s.fence.generation, s.fence.revision)
    {
      StatementBehind(ss, es, k, key);
    }
  }

  /** Exact revocation: after an invalidation a fence of that pair commits only if begun later. */
  lemma RevokedFencesNeverPut(ss: seq<State>, es: seq<Event>, i: nat, j: nat, key: Key, s: Snapshot) returns (k: nat)
    requires IsRun(ss, es) && Encodable(key) && i < j && Commits(ss, es, j, key, s)
    requires Revokes(es, i, key, s.fence.generation, s.fence.revision)
    ensures i < k < j && Begins(ss, es, k, key, s.fence)
  {
    k := OnlyLatestUnrevokedPuts(ss, es, j, key, s);
  }

  /** And a snapshot of that pair is readable again only once a later UPDATE has committed it. */
  lemma RevokedSnapshotsStayHidden(ss: seq<State>, es: seq<Event>, i: nat, j: nat, key: Key, s: Snapshot)
    returns (k: nat)
    requires IsRun(ss, es) && Encodable(key) && i < j < |ss|
    requires Revokes(es, i, key, s.fence.generation, s.fence.revision)
    requires IdOf(key) in ss[j].rows && ss[j].rows[IdOf(key)].json == Some(s)
    ensures i < k < j && Commits(ss, es, k, key, s)
  {
    var rs, res := RunRefinesRegister(ss, es, key);
    StatementBehind(ss, es, i, key);
    assert CapabilityRegister.StepAt(rs, res, i);
    k := PairStoredAgain(rs, res, i + 1, j, s.fence.generation, s.fence.revision);
    StatementBehind(ss, es, k, key);
  }

  /** The invalidation leaves authority and snapshot of every other pair, and every other account, alone. */
  lemma RevocationIsExact(ss: seq<State>, es: seq<Event>, i: nat, id: RowId)
    requires IsRun(ss, es) && i < |es| && es[i].Invalidate? && id in ss[i].rows
    ensures id in ss[i + 1].rows
    ensures var before, after := ss[i].rows[id], ss[i + 1].rows[id];
      && (id.0 != es[i].account ==> after == before)
      && (!Pair(Authority(before), es[i].generation, es[i].revision) ==> Authority(after) == Authority(before))
      && (before.json.Some? && !Pair(before.json.value.fence, es[i].generation, es[i].revision) ==>
        after.json == before.json)
  {
    assert StepAt(ss, es, i);
    InvAt(ss, es, i);
    assert RowOk(ss[i].rows[id]);
  }

  /** Exactly when an UPDATE commits: its fence is the active one, and nothing else is committed under it. */
  lemma PutCommitsExactlyWhen(ss: seq<State>, es: seq<Event>, i: nat)
    requires IsRun(ss, es) && i < |es| && es[i].Update? && Encodable(es[i].key)
    ensures var now, s := Abstract(ss[i], es[i].key), es[i].snapshot;
      Commits(ss, es, i, es[i].key, s) <==>
        && now.active == Some(s.fence)
        && (now.committed.Some? && now.committed.value.fence == s.fence ==> now.committed.value == s)
  {
    assert StepAt(ss, es, i);
    InvAt(ss, es, i);
    if IdOf(es[i].key) in ss[i].rows {
      assert RowOk(ss[i].rows[IdOf(es[i].key)]);
    }
  }

  /** And what a put that did not commit answers, by what the register holds when it looks: another snapshot
      committed under its own fence, still active, is a conflict; in every other case the fence is lost. */
  lemma MissedPutAnswers(ss: seq<State>, es: seq<Event>, i: nat)
    requires IsRun(ss, es) && i < |es| && es[i].Select? && Enabled(ss[i], es[i])
    ensures var m := ss[i].puts[es[i].id];
      var now, answer := Abstract(ss[i], m.key), Answer(ss[i].rows, m);
      && (answer == CommittedDifferently <==>
            && now.active == Some(m.snapshot.fence)
            && now.committed.Some?
            && now.committed.value.fence == m.snapshot.fence && now.committed.value != m.snapshot)
      && (answer == FenceLost <==> now.active != Some(m.snapshot.fence))
      && (answer == CommittedDifferently || answer == FenceLost)
  {
    InvAt(ss, es, i);
    var m := ss[i].puts[es[i].id];
    assert PutOk(ss[i], m);
    if IdOf(m.key) in ss[i].rows {
      assert RowOk(ss[i].rows[IdOf(m.key)]);
    }
  }
}
