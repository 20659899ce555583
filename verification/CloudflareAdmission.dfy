/** Which batches of changes the Cloudflare adapter takes on, in terms of what they ask for
    (crates/center-core/src/cloud/dns.rs, `validate_dns_changes`;
    crates/center-adapter-cloudflare/src/lib.rs, `plan_batch`, `render_record_set`). */
module CloudflareAdmission {
  import opened Basics
  import opened Dns
  import opened CloudflareRecords
  import opened CloudflareBatch
  import opened CloudflareEcho

  /** SOA and NS at the apex belong to the zone lifecycle. */
  predicate IsDelegation(z: Zone, k: Key) {
    k.owner == z.apex && (k.kind == Soa || k.kind == Ns)
  }

  lemma {:induction false} ChangeIsExpected(changes: seq<Change>, i: nat)
    requires ValidChanges(changes) && i < |changes| && !changes[i].Delete?
    ensures ChangeKey(changes[i]) in Expected(changes)
    ensures Expected(changes)[ChangeKey(changes[i])] ==
      if changes[i].Create? then changes[i].recordSet else changes[i].desired
  {
    var n := |changes| - 1;
    ExpectedGrows(changes);
    if i < n {
      ChangeIsExpected(changes[..n], i);
    }
  }

  /** Admission on the outcome: at most a thousand changes to distinct identities, none of them the zone's own
      delegation, every expected record set valid and a CNAME alone among those of its owner; what is replaced
      or deleted is a valid observation of this zone. */
  lemma AdmittedExactlyWhen(z: Zone, changes: seq<Change>)
    ensures Admitted(z, changes) <==>
      && 1 <= |changes| <= 1_000
      && ValidChanges(changes)
      && (forall k :: k in Expected(changes) ==> Validate(z, Expected(changes)[k]))
      && (forall k :: k in Touched(changes) ==> !IsDelegation(z, k))
      && (forall j, k :: j in Expected(changes) && k in Expected(changes) && j.owner == k.owner && j.kind == Cname ==>
            k.kind == Cname)
      && (forall i :: 0 <= i < |changes| && !changes[i].Create? ==>
            Validate(z, changes[i].previous.recordSet) && changes[i].previous.zone == z.id)
  {
    if Admitted(z, changes) {
      AdmittedGivesOutcome(z, changes);
    }
    if ValidChanges(changes) {
      forall i: nat | i < |changes| && !changes[i].Delete?
        ensures ChangeKey(changes[i]) in Expected(changes)
        ensures Expected(changes)[ChangeKey(changes[i])] ==
          if changes[i].Create? then changes[i].recordSet else changes[i].desired
      {
        ChangeIsExpected(changes, i);
      }
      forall i | 0 <= i < |changes| ensures ChangeKey(changes[i]) in Touched(changes) {
      }
    }
  }

  lemma AdmittedGivesOutcome(z: Zone, changes: seq<Change>)
    requires Admitted(z, changes)
    ensures forall k :: k in Expected(changes) ==> Validate(z, Expected(changes)[k])
    ensures forall k :: k in Touched(changes) ==> !IsDelegation(z, k)
    ensures forall j, k :: j in Expected(changes) && k in Expected(changes) && j.owner == k.owner && j.kind == Cname ==>
      k.kind == Cname
  {
    forall k | k in Expected(changes) ensures Validate(z, Expected(changes)[k]) {
      var i := ExpectedHasChange(changes, k);
      assert AdmittedChange(z, changes[i]);
    }
    forall k | k in Touched(changes) ensures !IsDelegation(z, k) {
      var i := TouchedByOne(changes, k);
      assert AdmittedChange(z, changes[i]);
    }
    forall j, k | j in Expected(changes) && k in Expected(changes) && j.owner == k.owner && j.kind == Cname
      ensures k.kind == Cname
    {
      var x := ExpectedHasChange(changes, j);
      var y := ExpectedHasChange(changes, k);
      assert Coexist(changes[x], changes[y]);
    }
  }

  /** A valid record set can be rendered unless it is SOA, or CAA with a value that is not UTF-8; and then
      there is one post for each value, with the fields of the record set. */
  lemma ValidRenders(z: Zone, utf8: Value -> bool, r: RecordSet)
    requires Validate(z, r)
    ensures Render(utf8, r).Some? <==>
      r.key.kind != Soa && (r.key.kind == Caa ==> forall v :: v in r.values ==> utf8(v))
    ensures Render(utf8, r).Some? ==>
      forall p :: p in Render(utf8, r).value <==> p.value in r.values && IsPostFor(r, p)
  {
    if r.key.kind == Soa {
      var v :| v in r.values;
      assert v.kind == Soa;
    }
    if Render(utf8, r).Some? {
      forall p ensures p in Render(utf8, r).value <==> p.value in r.values && IsPostFor(r, p) {
        PostForIsPost(z, r, p);
        RenderedPost(utf8, r, p);
      }
    }
  }

  /** The post of a valid record set for one of its values, field by field. */
  ghost predicate IsPostFor(r: RecordSet, p: Post) {
    && p.name == r.key.owner
    && (if r.ttl == Automatic then p.ttl == 1 else r.ttl == Seconds(p.ttl))
    && (r.extension.None? ==> p.proxied.None? && p.flatten.None? && p.comment.None? && p.tags == {})
    && (r.extension.Some? ==> r.extension.value.Cloudflare? && Carries(p, r.extension.value))
  }

  ghost predicate Carries(p: Post, e: Extension)
    requires e.Cloudflare?
  {
    && p.comment == e.comment && p.tags == e.tags
    && (p.proxied == Some(true) <==> e.proxy == Some(Proxied))
    && (p.proxied == Some(false) <==> e.proxy == Some(DnsOnly))
    && (p.flatten == Some(true) <==> e.flattening == Flatten)
    && (p.flatten == Some(false) <==> e.flattening == DoNotFlatten)
  }

  lemma PostForIsPost(z: Zone, r: RecordSet, p: Post)
    requires Validate(z, r)
    ensures IsPostFor(r, p) <==> p == PostOf(r, p.value)
  {
    assert p.proxied.Some? ==> p.proxied == Some(p.proxied.value) && (p.proxied.value || !p.proxied.value);
    assert p.flatten.Some? ==> p.flatten == Some(p.flatten.value) && (p.flatten.value || !p.flatten.value);
  }

  /** A change that can be planned: what it is based on is in the zone as observed, or nothing is. */
  ghost predicate Based(current: map<Key, Observed>, c: Change) {
    if c.Create? then ChangeKey(c) !in current
    else ChangeKey(c) in current && current[ChangeKey(c)] == c.previous
  }

  ghost predicate Renderable(utf8: Value -> bool, r: RecordSet) {
    r.key.kind != Soa && (r.key.kind == Caa ==> forall v :: v in r.values ==> utf8(v))
  }

  lemma ClearExactlyWhen(z: Zone, utf8: Value -> bool, current: map<Key, Observed>, changes: seq<Change>, i: nat)
    requires Admitted(z, changes) && i < |changes|
    ensures !changes[i].Delete? ==> ChangeKey(changes[i]) in Expected(changes)
    ensures Turndown(utf8, current, changes[i]).None? <==>
      && Based(current, changes[i])
      && (!changes[i].Delete? ==> Renderable(utf8, Expected(changes)[ChangeKey(changes[i])]))
    ensures Turndown(utf8, current, changes[i]) == Some(GuardConflict) <==> !Based(current, changes[i])
  {
    assert AdmittedChange(z, changes[i]);
    if !changes[i].Delete? {
      ChangeIsExpected(changes, i);
      ValidRenders(z, utf8, Expected(changes)[ChangeKey(changes[i])]);
    }
  }

  ghost predicate AllBased(current: map<Key, Observed>, changes: seq<Change>) {
    forall i :: 0 <= i < |changes| ==> Based(current, changes[i])
  }

  ghost predicate AllRenderable(utf8: Value -> bool, expected: map<Key, RecordSet>) {
    forall k :: k in expected ==> Renderable(utf8, expected[k])
  }

  lemma ClearIsBased(z: Zone, utf8: Value -> bool, current: map<Key, Observed>, changes: seq<Change>)
    requires Admitted(z, changes) && AllClear(utf8, current, changes)
    ensures AllBased(current, changes) && AllRenderable(utf8, Expected(changes))
  {
    forall i | 0 <= i < |changes| ensures Based(current, changes[i]) {
      assert Turndown(utf8, current, changes[i]).None?;
      ClearExactlyWhen(z, utf8, current, changes, i);
    }
    forall k | k in Expected(changes) ensures Renderable(utf8, Expected(changes)[k]) {
      var i := ExpectedHasChange(changes, k);
      assert Turndown(utf8, current, changes[i]).None?;
      ClearExactlyWhen(z, utf8, current, changes, i);
    }
  }

  lemma BasedIsClear(z: Zone, utf8: Value -> bool, current: map<Key, Observed>, changes: seq<Change>)
    requires Admitted(z, changes) && AllBased(current, changes) && AllRenderable(utf8, Expected(changes))
    ensures AllClear(utf8, current, changes)
  {
    forall i | 0 <= i < |changes| ensures Turndown(utf8, current, changes[i]).None? {
      assert Based(current, changes[i]);
      ClearExactlyWhen(z, utf8, current, changes, i);
    }
  }

  /** Admitted changes are planned exactly when each is based on the zone as it is and what they ask for can be
      rendered; object ids never stand in the way. */
  lemma PlannedExactlyWhen(z: Zone, utf8: Value -> bool, records: seq<Record>, current: map<Key, Observed>,
                           changes: seq<Change>)
    requires Admitted(z, changes) && Aggregates(RulesOf(z), records, current)
    ensures Plannable(utf8, current, changes) <==> AllBased(current, changes) && AllRenderable(utf8, Expected(changes))
  {
    RulesConserve(z);
    DeleteIdsNeverClash(RulesOf(z), utf8, records, current, changes);
    if AllClear(utf8, current, changes) {
      ClearIsBased(z, utf8, current, changes);
    } else if AllBased(current, changes) && AllRenderable(utf8, Expected(changes)) {
      BasedIsClear(z, utf8, current, changes);
    }
  }

  /** So no batch ever touches the zone's own delegation. */
  lemma DelegationUntouched(z: Zone, utf8: Value -> bool, guard: GuardStrength, changes: seq<Change>,
                            records: seq<Record>, deleted: seq<string>, posted: seq<Record>,
                            current: map<Key, Observed>, actual: map<Key, Observed>, k: Key)
    requires Succeeds(z, utf8, guard, changes, records, deleted, posted, current, actual) && IsDelegation(z, k)
    ensures k in Merged(current, changes, actual) <==> k in current
    ensures k in current ==> Merged(current, changes, actual)[k] == current[k]
  {
    AdmittedExactlyWhen(z, changes);
    MergedRecordSets(current, changes, actual);
  }
}
