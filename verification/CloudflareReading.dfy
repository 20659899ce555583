/** Which Cloudflare objects are read as record sets, and as which, in terms of their fields alone
    (crates/center-adapter-cloudflare/src/lib.rs, `aggregate_records`, `member_signature`,
    `cloudflare_extension`; crates/center-core/src/cloud/dns.rs, `ProviderDnsRecordSet::validate`). */
module CloudflareReading {
  import opened Basics
  import opened Dns
  import opened CloudflareRecords
  import O = Ordering

  /** An object that can be part of the zone at all. */
  ghost predicate Admissible(z: Zone, r: Record) {
    && |r.id| == 32 && (forall i :: 0 <= i < |r.id| ==> '0' <= r.id[i] <= '9' || 'a' <= r.id[i] <= 'f')
    && !r.ipv4Only && !r.ipv6Only && !r.privateRouting
    && z.parse(r.name).Some? && z.within(z.parse(r.name).value)
  }

  /** The objects of one record set agree in everything but id, name, value and time, as far as their type has it. */
  ghost predicate Alike(kind: RecordType, a: Record, b: Record) {
    && a.ttl == b.ttl && a.comment == b.comment && a.tags == b.tags
    && (kind == A || kind == Aaaa || kind == Cname ==> a.proxied == b.proxied && a.proxiable == b.proxiable)
    && (kind == Cname ==> a.flatten == b.flatten)
  }

  ghost predicate ProviderTtl(ttl: nat) {
    ttl == 1 || 30 <= ttl <= 86_400
  }

  /** The head of an A, AAAA or CNAME record set. */
  ghost predicate ProxiableHead(z: Zone, k: Key, r: Record) {
    && r.proxied.Some? && ProviderTtl(r.ttl) && z.metadataOk(r.comment, r.tags)
    && (k.kind != Cname ==> r.flatten.None?)
    && (r.proxied == Some(true) ==> r.proxiable && r.ttl == 1 && r.flatten.None?)
    && !(k.kind == Cname && k.owner == z.apex && r.flatten == Some(false))
  }

  /** The head of any other record set: without comment, tags and automatic TTL it is a plain one with any
      TTL; SOA is always plain. */
  ghost predicate PlainHead(z: Zone, k: Key, r: Record) {
    && r.proxied != Some(true) && r.flatten.None?
    && (if r.ttl != 1 && r.comment.None? && r.tags == {} then r.ttl <= I32_MAX
        else k.kind != Soa && ProviderTtl(r.ttl) && z.metadataOk(r.comment, r.tags))
  }

  /** Which groups are read, field by field. */
  ghost predicate Readable(z: Zone, k: Key, members: seq<Record>) {
    && |members| > 0 && z.within(k.owner) && k.routing == Simple
    && (forall i, j :: 0 <= i < j < |members| ==>
          Alike(k.kind, members[i], members[j]) && members[i].value != members[j].value)
    && (forall i :: 0 <= i < |members| ==> members[i].value.kind == k.kind && z.valueOk(members[i].value))
    && (k.kind == Cname || k.kind == Soa ==> |members| == 1)
    && (if k.kind == A || k.kind == Aaaa || k.kind == Cname then ProxiableHead(z, k, members[0])
        else PlainHead(z, k, members[0]))
  }

  lemma {:induction false} DistinctValuesCount(members: seq<Record>)
    ensures |ValuesOf(members)| <= |members|
    ensures |ValuesOf(members)| == |members| <==> Differ(members)
  {
    if |members| > 0 {
      var front, last := members[..|members| - 1], members[|members| - 1];
      assert members == front + [last];
      DistinctValuesCount(front);
      ValuesAppend(front, last);
      DifferAppends(front, last);
      if last.value in ValuesOf(front) {
        assert ValuesOf(members) == ValuesOf(front);
      }
    }
  }

  predicate Differ(members: seq<Record>) {
    forall i, j :: 0 <= i < j < |members| ==> members[i].value != members[j].value
  }

  lemma ValuesAppend(front: seq<Record>, last: Record)
    ensures ValuesOf(front + [last]) == ValuesOf(front) + {last.value}
  {
  }

  lemma DifferAppends(front: seq<Record>, last: Record)
    ensures Differ(front + [last]) <==> Differ(front) && last.value !in ValuesOf(front)
  {
    var all := front + [last];
    if Differ(all) {
      forall i | 0 <= i < |front| ensures front[i].value != last.value {
        assert all[i].value != all[|front|].value;
      }
      forall i, j | 0 <= i < j < |front| ensures front[i].value != front[j].value {
        assert all[i].value != all[j].value;
      }
    } else {
      var i, j :| 0 <= i < j < |all| && all[i].value == all[j].value;
      assert all[i] == front[i] && front[i] in front;
    }
  }

  lemma AlikeIsSignature(kind: RecordType, a: Record, b: Record)
    ensures Alike(kind, a, b) <==> SignatureOf(a, kind) == SignatureOf(b, kind)
  {
  }

  lemma HomogeneousIsAlike(kind: RecordType, members: seq<Record>)
    requires |members| > 0
    ensures (exists i :: 0 <= i < |members| && SignatureOf(members[i], kind) != SignatureOf(members[0], kind)) <==>
      !(forall i, j :: 0 <= i < j < |members| ==> Alike(kind, members[i], members[j]))
  {
    forall i, j | 0 <= i < |members| && 0 <= j < |members|
      ensures Alike(kind, members[i], members[j]) <==> SignatureOf(members[i], kind) == SignatureOf(members[j], kind)
    {
      AlikeIsSignature(kind, members[i], members[j]);
    }
    if i :| 0 <= i < |members| && SignatureOf(members[i], kind) != SignatureOf(members[0], kind) {
      assert i > 0 && !Alike(kind, members[0], members[i]);
    }
  }

  /** The extension that the head stands for is there and valid, field by field. */
  lemma HeadValid(z: Zone, k: Key, r: Record, values: set<Value>)
    requires values != {}
    ensures var e := ExtensionOf(r, k.kind);
      var ttl := if r.ttl == 1 then Automatic else Seconds(r.ttl);
      (e.Ok? && Validate(z, RecordSet(k, ttl, values, e.value))) <==>
        && z.within(k.owner) && k.routing == Simple
        && (forall v :: v in values ==> v.kind == k.kind && z.valueOk(v))
        && (k.kind == Cname || k.kind == Soa ==> |values| == 1)
        && (if k.kind == A || k.kind == Aaaa || k.kind == Cname then ProxiableHead(z, k, r) else PlainHead(z, k, r))
  {
  }

  lemma ValuesAreMembers(z: Zone, k: Key, members: seq<Record>)
    ensures (forall v :: v in ValuesOf(members) ==> v.kind == k.kind && z.valueOk(v)) <==>
      (forall i :: 0 <= i < |members| ==> members[i].value.kind == k.kind && z.valueOk(members[i].value))
  {
    forall i | 0 <= i < |members| ensures members[i].value in ValuesOf(members) {
    }
  }

  /** A group is read exactly when it is readable. */
  lemma ReadExactlyWhen(z: Zone, k: Key, members: seq<Record>)
    ensures Rrset(z, k, members).Ok? <==> Readable(z, k, members)
  {
    if |members| > 0 {
      HomogeneousIsAlike(k.kind, members);
      DistinctValuesCount(members);
      assert members[0].value in ValuesOf(members);
      HeadValid(z, k, members[0], ValuesOf(members));
      ValuesAreMembers(z, k, members);
    }
  }

  /** And what is read of it. */
  lemma ReadAs(z: Zone, k: Key, members: seq<Record>)
    requires Rrset(z, k, members).Ok?
    ensures |members| > 0
    ensures var r, o := members[0], Rrset(z, k, members).value;
      && o.zone == z.id && o.recordSet.key == k
      && (r.ttl == 1 <==> o.recordSet.ttl == Automatic) && (r.ttl != 1 ==> o.recordSet.ttl == Seconds(r.ttl))
      && (forall v :: v in o.recordSet.values <==> exists i :: 0 <= i < |members| && members[i].value == v)
      && (forall id :: id in o.objectIds <==> exists i :: 0 <= i < |members| && members[i].id == id)
      && o.revision == OfMembers(members)
      && ExtensionShows(k, r, o.recordSet.extension)
  {
    var o := Rrset(z, k, members).value;
    forall v ensures v in o.recordSet.values <==> exists i :: 0 <= i < |members| && members[i].value == v {
      if i :| 0 <= i < |members| && members[i].value == v {
        assert members[i] in members;
      }
    }
    forall id ensures id in o.objectIds <==> exists i :: 0 <= i < |members| && members[i].id == id {
      if i :| 0 <= i < |members| && members[i].id == id {
        assert members[i] in members;
      }
    }
  }

  /** The extension carries proxy state, flattening and metadata of the head; a plain record set has none. */
  ghost predicate ExtensionShows(k: Key, r: Record, e: Option<Extension>) {
    if e.None? then
      && k.kind != A && k.kind != Aaaa && k.kind != Cname
      && r.ttl != 1 && r.comment.None? && r.tags == {}
    else
      && e.value.Cloudflare? && e.value.comment == r.comment && e.value.tags == r.tags
      && (e.value.proxy == Some(Proxied) <==> r.proxied == Some(true))
      && (e.value.proxy.Some? <==> k.kind == A || k.kind == Aaaa || k.kind == Cname)
      && (e.value.flattening == Flatten <==> r.flatten == Some(true))
      && (e.value.flattening == DoNotFlatten <==> r.flatten == Some(false))
      && (e.value.proxy.Some? || r.ttl == 1 || r.comment.Some? || r.tags != {})
  }

  /** The objects that belong under `k`, by name and type, in id order. */
  ghost predicate BelongUnder(z: Zone, records: seq<Record>, k: Key, members: seq<Record>) {
    && O.Increasing(members, IdOf)
    && (forall r :: r in members <==>
          r in records && z.parse(r.name) == Some(k.owner) && r.value.kind == k.kind && k.routing == Simple)
  }

  lemma BelongUnderIsGroup(z: Zone, records: seq<Record>, k: Key, members: seq<Record>)
    ensures BelongUnder(z, records, k, members) <==> IsGroup(RulesOf(z), records, k, members)
  {
    forall r ensures RulesOf(z).key(r) == Some(k) <==>
      z.parse(r.name) == Some(k.owner) && r.value.kind == k.kind && k.routing == Simple
    {
    }
  }

  /** The whole of aggregation, on the fields of the objects: they are read if and only if ids are distinct,
      each object is admissible, and each non-empty group of one name and type is readable. */
  lemma AggregatesExactlyWhen(z: Zone, records: seq<Record>)
    ensures (exists result :: Aggregates(RulesOf(z), records, result)) <==>
      && (forall i, j :: 0 <= i < j < |records| ==> records[i].id != records[j].id)
      && (forall r :: r in records ==> Admissible(z, r))
      && (forall k, members :: BelongUnder(z, records, k, members) && |members| > 0 ==> Readable(z, k, members))
  {
    AdmissibleIsOk(z, records);
    if result: map<Key, Observed> :| Aggregates(RulesOf(z), records, result) {
      forall k, members | BelongUnder(z, records, k, members) && |members| > 0 ensures Readable(z, k, members) {
        BelongUnderIsGroup(z, records, k, members);
        assert members[0] in members;
        assert HasKey(RulesOf(z), records, k);
        assert IsRrset(RulesOf(z), records, k, result[k]);
        GroupUnique(RulesOf(z), records, records, k, members, result[k].revision.members);
        ReadExactlyWhen(z, k, members);
      }
    }
    if && Sound(RulesOf(z), records)
       && (forall k, members :: BelongUnder(z, records, k, members) && |members| > 0 ==> Readable(z, k, members)) {
      ReadableAggregates(z, records);
    }
  }

  lemma AdmissibleIsOk(z: Zone, records: seq<Record>)
    ensures Sound(RulesOf(z), records) <==>
      && (forall i, j :: 0 <= i < j < |records| ==> records[i].id != records[j].id)
      && (forall r :: r in records ==> Admissible(z, r))
  {
    forall r ensures Admissible(z, r) <==> RecordOk(RulesOf(z), r) {
      assert RulesOf(z).refuse(r) == Unsupported(z, r) && RulesOf(z).key(r) == KeyOf(z, r);
      assert ValidId(r.id) <==>
        |r.id| == 32 && (forall i :: 0 <= i < |r.id| ==> '0' <= r.id[i] <= '9' || 'a' <= r.id[i] <= 'f') by {
        forall i | 0 <= i < |r.id| ensures HexDigit(r.id[i]) <==> '0' <= r.id[i] <= '9' || 'a' <= r.id[i] <= 'f' {
        }
      }
    }
    assert O.DistinctKeys(records, IdOf) <==> forall i, j :: 0 <= i < j < |records| ==> records[i].id != records[j].id;
  }

  ghost function KeysOf(p: Rules, records: seq<Record>): set<Key> {
    set r | r in records && p.key(r).Some? :: p.key(r).value
  }

  ghost predicate BuildsGroup(p: Rules, records: seq<Record>, k: Key) {
    p.build(k, GroupUnder(p, records, k)).Ok?
  }

  /** If every group can be built, the objects have an aggregation. */
  lemma GroupsAggregate(p: Rules, records: seq<Record>) returns (result: map<Key, Observed>)
    requires Sound(p, records) && Conserving(p) && forall k :: HasKey(p, records, k) ==> BuildsGroup(p, records, k)
    ensures Aggregates(p, records, result)
  {
    var keys := KeysOf(p, records);
    forall k ensures k in keys <==> HasKey(p, records, k) {
    }
    result := map k | k in keys && BuildsGroup(p, records, k) :: p.build(k, GroupUnder(p, records, k)).value;
    forall k | k in result ensures IsRrset(p, records, k, result[k]) {
      GroupUnderIsGroup(p, records, k);
    }
  }

  lemma ReadableAggregates(z: Zone, records: seq<Record>)
    requires Sound(RulesOf(z), records)
    requires forall k, members :: BelongUnder(z, records, k, members) && |members| > 0 ==> Readable(z, k, members)
    ensures exists result :: Aggregates(RulesOf(z), records, result)
  {
    var p := RulesOf(z);
    RulesConserve(z);
    forall k | HasKey(p, records, k) ensures BuildsGroup(p, records, k) {
      var members := GroupUnder(p, records, k);
      GroupUnderIsGroup(p, records, k);
      BelongUnderIsGroup(z, records, k, members);
      var r :| r in records && p.key(r) == Some(k);
      assert r in members;
      ReadExactlyWhen(z, k, members);
    }
    var result := GroupsAggregate(p, records);
  }

  // ---------------------------------------------------------------- why objects are not read

  /** Reasons that lie in one object. */
  lemma ObjectReasons(z: Zone, ids: set<string>, r: Record)
    ensures var why := Refusal(RulesOf(z), ids, r);
      && (why == Some(InvalidObjectId) <==> !ValidId(r.id))
      && (why == Some(DuplicateObjectId) <==> ValidId(r.id) && r.id in ids)
      && (why == Some(UnsupportedSettings) <==>
            ValidId(r.id) && r.id !in ids && (r.ipv4Only || r.ipv6Only || r.privateRouting))
      && (why == Some(InvalidName) ==> z.parse(r.name).None?)
      && (why == Some(OutsideZone) ==> z.parse(r.name).Some? && !z.within(z.parse(r.name).value))
      && (why.Some? ==>
            why.value in {InvalidObjectId, DuplicateObjectId, UnsupportedSettings, InvalidName, OutsideZone})
  {
  }

  /** Reasons that lie in a group. */
  lemma GroupReasons(z: Zone, k: Key, members: seq<Record>)
    requires |members| > 0
    ensures var why, r := Rrset(z, k, members), members[0];
      && (why == Err(Heterogeneous) <==>
            !(forall i, j :: 0 <= i < j < |members| ==> Alike(k.kind, members[i], members[j])))
      && (why == Err(DuplicateValue) ==> exists i, j :: 0 <= i < j < |members| && members[i].value == members[j].value)
      && (why == Err(InvalidFlattening) ==> k.kind != Cname && r.flatten.Some?)
      && (why == Err(MissingProxyState) ==> ProxyType(k.kind) && r.proxied.None?)
      && (why == Err(InvalidProxyState) ==> !ProxyType(k.kind) && r.proxied == Some(true))
      && (why == Err(NotProxiable) ==> ProxyType(k.kind) && r.proxied == Some(true) && !r.proxiable)
      && (why.Err? ==> why.error in {Heterogeneous, DuplicateValue, InvalidFlattening, MissingProxyState,
                                     InvalidProxyState, NotProxiable, InvalidRrset})
  {
    HomogeneousIsAlike(k.kind, members);
    DistinctValuesCount(members);
  }
}
