/** Cloudflare keeps one object per record value; the Center works on record sets. This module models
    the grouping of objects into record sets and what it keeps of them
    (crates/center-adapter-cloudflare/src/lib.rs, `aggregate_records`). */
module CloudflareRecords {
  import opened Basics
  import opened Dns
  import O = Ordering

  /** The zone and the parts of name, value and metadata validation that look inside text. */
  datatype Zone = Zone(
    id: string, apex: string,
    parse: string -> Option<string>,
    within: string -> bool,
    valueOk: Value -> bool,
    metadataOk: (Option<string>, set<string>) -> bool)

  datatype Rejection =
    | InvalidObjectId | DuplicateObjectId | UnsupportedSettings | InvalidName | OutsideZone
    | Heterogeneous | DuplicateValue | InvalidFlattening | MissingProxyState | InvalidProxyState | NotProxiable
    | InvalidRrset

  predicate HexDigit(c: char) {
    '0' <= c <= '9' || 'a' <= c <= 'f'
  }

  /** `valid_cloudflare_identifier`. */
  predicate ValidId(id: string) {
    |id| == 32 && forall i :: 0 <= i < |id| ==> HexDigit(id[i])
  }

  /** Why an object is turned down on its own, once its id is known to be good. */
  function Unsupported(z: Zone, r: Record): Option<Rejection> {
    if r.ipv4Only || r.ipv6Only || r.privateRouting then Some(UnsupportedSettings)
    else if KeyOf(z, r).None? then Some(InvalidName)
    else if !z.within(KeyOf(z, r).value.owner) then Some(OutsideZone)
    else None
  }

  function IdOf(r: Record): string {
    r.id
  }

  function KeyOf(z: Zone, r: Record): Option<Key> {
    var owner := z.parse(r.name);
    if owner.Some? then Some(Key(owner.value, r.value.kind, Simple)) else None
  }

  predicate ProxyType(kind: RecordType) {
    kind == A || kind == Aaaa || kind == Cname
  }

  /** `ProviderDnsRecordSet::validate` in a Cloudflare zone. */
  predicate Validate(z: Zone, r: RecordSet) {
    && z.within(r.key.owner)
    && r.key.routing == Simple
    && (r.ttl.Seconds? ==> r.ttl.seconds <= I32_MAX)
    && r.values != {} && !r.ttl.Inherited?
    && (forall v :: v in r.values ==> v.kind == r.key.kind && z.valueOk(v))
    && (r.key.kind == Cname || r.key.kind == Soa ==> |r.values| == 1)
    && match r.extension
       case None =>
         && !ProxyType(r.key.kind)
         && !r.ttl.Automatic?
       case Some(Cloudflare(proxy, flattening, comment, tags)) =>
         && ProxyType(r.key.kind) == proxy.Some?
         && r.key.kind != Soa
         && (proxy == Some(Proxied) ==> r.ttl.Automatic? && flattening == ProviderDefault)
         && (r.ttl.Seconds? ==> 30 <= r.ttl.seconds <= 86_400)
         && (r.key.kind != Cname ==> flattening == ProviderDefault)
         && !(r.key.kind == Cname && r.key.owner == z.apex && flattening == DoNotFlatten)
         && z.metadataOk(comment, tags)
       case Some(Route53(_, _, _)) => false
  }

  datatype Signature = Signature(
    ttl: nat, proxied: Option<bool>, proxiable: Option<bool>, flatten: Option<bool>,
    comment: Option<string>, tags: set<string>)

  /** `member_signature`: what every member of a record set has to share. */
  function SignatureOf(r: Record, kind: RecordType): Signature {
    Signature(r.ttl,
              if ProxyType(kind) then r.proxied else None,
              if ProxyType(kind) then Some(r.proxiable) else None,
              if kind == Cname then r.flatten else None,
              r.comment, r.tags)
  }

  /** `cloudflare_extension`. */
  function ExtensionOf(r: Record, kind: RecordType): Result<Option<Extension>, Rejection> {
    if kind != Cname && r.flatten.Some? then Err(InvalidFlattening)
    else if ProxyType(kind) && r.proxied.None? then Err(MissingProxyState)
    else if !ProxyType(kind) && r.proxied == Some(true) then Err(InvalidProxyState)
    else
      var proxy := if !ProxyType(kind) then None else if r.proxied.value then Some(Proxied) else Some(DnsOnly);
      if proxy == Some(Proxied) && !r.proxiable then Err(NotProxiable)
      else
        var flattening := if kind != Cname || r.flatten.None? then ProviderDefault
                          else if r.flatten.value then Flatten else DoNotFlatten;
        if !ProxyType(kind) && r.ttl != 1 && r.comment.None? && r.tags == {} && flattening == ProviderDefault
        then Ok(None)
        else Ok(Some(Cloudflare(proxy, flattening, r.comment, r.tags)))
  }

  function ValuesOf(members: seq<Record>): set<Value> {
    set r | r in members :: r.value
  }

  function IdsOf(members: seq<Record>): set<string> {
    set r | r in members :: r.id
  }

  /** The record set of one group, its members in id order; a group is never empty. */
  function Rrset(z: Zone, k: Key, members: seq<Record>): Result<Observed, Rejection> {
    if |members| == 0 then Err(InvalidRrset) else
    var first := members[0];
    if exists i :: 0 <= i < |members| && SignatureOf(members[i], k.kind) != SignatureOf(first, k.kind)
    then Err(Heterogeneous)
    else if |ValuesOf(members)| != |members| then Err(DuplicateValue)
    else
      var extension := ExtensionOf(first, k.kind);
      if extension.Err? then Err(extension.error)
      else
        var ttl := if first.ttl == 1 then Automatic else Seconds(first.ttl);
        var recordSet := RecordSet(k, ttl, ValuesOf(members), extension.value);
        if !Validate(z, recordSet) then Err(InvalidRrset)
        else Ok(Observed(z.id, recordSet, IdsOf(members), OfMembers(members)))
  }

  /** The rules of a zone: which objects are turned down, under which identity the others are grouped
      and what a group amounts to. The grouping below works for any rules. */
  datatype Rules = Rules(
    refuse: Record -> Option<Rejection>,
    key: Record -> Option<Key>,
    build: (Key, seq<Record>) -> Result<Observed, Rejection>)

  function RulesOf(z: Zone): Rules {
    Rules(r => Unsupported(z, r), r => KeyOf(z, r), (k, members) => Rrset(z, k, members))
  }

  /** A record set holds the ids and the values of its members, one value each, and its revision is
      taken over them. */
  ghost predicate Conserving(p: Rules) {
    forall k, members :: p.build(k, members).Ok? ==>
      && |members| > 0
      && p.build(k, members).value.revision == OfMembers(members)
      && p.build(k, members).value.objectIds == IdsOf(members)
      && p.build(k, members).value.recordSet.key == k
      && p.build(k, members).value.recordSet.values == ValuesOf(members)
      && |ValuesOf(members)| == |members|
  }

  lemma RulesConserve(z: Zone)
    ensures Conserving(RulesOf(z))
  {
  }

  // ---------------------------------------------------------------- specification

  ghost predicate RecordOk(p: Rules, r: Record) {
    ValidId(r.id) && p.refuse(r).None? && p.key(r).Some?
  }

  ghost predicate Sound(p: Rules, records: seq<Record>) {
    (forall r :: r in records ==> RecordOk(p, r)) && O.DistinctKeys(records, IdOf)
  }

  ghost predicate HasKey(p: Rules, records: seq<Record>, k: Key) {
    exists r :: r in records && p.key(r) == Some(k)
  }

  /** The objects under `k`, in id order: determined by the set of objects alone. */
  ghost predicate IsGroup(p: Rules, records: seq<Record>, k: Key, members: seq<Record>) {
    O.Increasing(members, IdOf) && (forall r :: r in members <==> r in records && p.key(r) == Some(k))
  }

  ghost predicate IsRrset(p: Rules, records: seq<Record>, k: Key, o: Observed) {
    && o.revision.OfMembers?
    && IsGroup(p, records, k, o.revision.members)
    && p.build(k, o.revision.members) == Ok(o)
  }

  /** `result` is the aggregation of `records`. It says nothing about their order. */
  ghost predicate Aggregates(p: Rules, records: seq<Record>, result: map<Key, Observed>) {
    && Sound(p, records)
    && (forall k :: k in result <==> HasKey(p, records, k))
    && (forall k :: k in result ==> IsRrset(p, records, k, result[k]))
  }

  // ---------------------------------------------------------------- the algorithm

  ghost predicate Grouped(p: Rules, records: seq<Record>, groups: map<Key, seq<Record>>) {
    && (forall k :: k in groups <==> HasKey(p, records, k))
    && (forall k :: k in groups ==> O.DistinctKeys(groups[k], IdOf))
    && (forall k, r :: k in groups ==> (r in groups[k] <==> r in records && p.key(r) == Some(k)))
  }

  lemma GroupOneMore(p: Rules, records: seq<Record>, groups: map<Key, seq<Record>>, r: Record, k: Key)
    requires Grouped(p, records, groups) && p.key(r) == Some(k)
    requires forall x :: x in records ==> x.id != r.id
    ensures Grouped(p, records + [r], groups[k := (if k in groups then groups[k] else []) + [r]])
  {
    var all, was := records + [r], if k in groups then groups[k] else [];
    var now := groups[k := was + [r]];
    forall j ensures j in now <==> HasKey(p, all, j) {
      KeyAppears(p, records, r, j);
    }
    forall j | j in now ensures O.DistinctKeys(now[j], IdOf) {
      if j == k {
        AppendDistinct(was, r);
      }
    }
    forall j, x | j in now ensures x in now[j] <==> x in all && p.key(x) == Some(j) {
      MemberAppears(p, records, groups, r, k, x);
    }
  }

  lemma MemberAppears(p: Rules, records: seq<Record>, groups: map<Key, seq<Record>>, r: Record, k: Key, x: Record)
    requires Grouped(p, records, groups) && p.key(r) == Some(k)
    ensures x in records + [r] <==> x in records || x == r
    ensures x in (if k in groups then groups[k] else []) + [r] <==> x in records + [r] && p.key(x) == Some(k)
  {
    if x in records && p.key(x) == Some(k) {
      assert HasKey(p, records, k);
    }
  }

  lemma KeyAppears(p: Rules, records: seq<Record>, r: Record, j: Key)
    ensures HasKey(p, records + [r], j) <==> HasKey(p, records, j) || p.key(r) == Some(j)
  {
    var all := records + [r];
    assert forall x :: x in all <==> x in records || x == r;
    if x :| x in records && p.key(x) == Some(j) {
      assert x in all;
    }
    assert r in all;
  }

  lemma AppendDistinct(xs: seq<Record>, r: Record)
    requires O.DistinctKeys(xs, IdOf) && forall x :: x in xs ==> x.id != r.id
    ensures O.DistinctKeys(xs + [r], IdOf)
  {
  }

  method SortMembers(group: seq<Record>) returns (members: seq<Record>)
    requires O.DistinctKeys(group, IdOf)
    ensures O.Increasing(members, IdOf) && SameRecords(members, group)
  {
    members := O.Sort(group, IdOf);
    O.Sorted(group, IdOf);
  }

  /** A group sorted by id is the group of the specification. */
  lemma SortedGroup(p: Rules, records: seq<Record>, groups: map<Key, seq<Record>>, k: Key, members: seq<Record>)
    requires Grouped(p, records, groups) && k in groups
    requires O.Increasing(members, IdOf) && SameRecords(members, groups[k])
    ensures IsGroup(p, records, k, members) && |members| > 0
  {
    var r :| r in records && p.key(r) == Some(k);
    assert r in members;
  }

  lemma GroupUnique(p: Rules, records: seq<Record>, again: seq<Record>, k: Key, a: seq<Record>, b: seq<Record>)
    requires IsGroup(p, records, k, a) && IsGroup(p, again, k, b)
    requires forall r :: r in records <==> r in again
    ensures a == b
  {
    O.IncreasingUnique(a, b, IdOf);
  }

  lemma RefusedGroup(p: Rules, records: seq<Record>, k: Key, members: seq<Record>)
    requires HasKey(p, records, k) && IsGroup(p, records, k, members) && p.build(k, members).Err?
    ensures forall result :: !Aggregates(p, records, result)
  {
    forall result: map<Key, Observed> ensures !Aggregates(p, records, result) {
      if Aggregates(p, records, result) {
        GroupUnique(p, records, records, k, members, result[k].revision.members);
      }
    }
  }

  /** The checks on one object, given the ids already met. */
  function Refusal(p: Rules, ids: set<string>, r: Record): Option<Rejection> {
    if !ValidId(r.id) then Some(InvalidObjectId)
    else if r.id in ids then Some(DuplicateObjectId)
    else if p.refuse(r).Some? then p.refuse(r)
    else if p.key(r).None? then Some(InvalidName)
    else None
  }

  lemma AdmitOneMore(p: Rules, records: seq<Record>, i: nat, ids: set<string>)
    requires i < |records| && Sound(p, records[..i]) && ids == IdsOf(records[..i])
    ensures Refusal(p, ids, records[i]).Some? ==> !Sound(p, records)
    ensures Refusal(p, ids, records[i]).None? ==>
      Sound(p, records[..i + 1]) && ids + {records[i].id} == IdsOf(records[..i + 1])
    ensures Refusal(p, ids, records[i]).None? ==> forall x :: x in records[..i] ==> x.id != records[i].id
  {
    var r := records[i];
    assert r in records;
    assert records[..i + 1] == records[..i] + [r];
    if r.id in ids {
      var x :| x in records[..i] && x.id == r.id;
      var j :| 0 <= j < i && records[j] == x;
      assert IdOf(records[j]) == IdOf(records[i]);
    }
  }

  /** The reason given is that of an object, given the ids before it, or of a whole group. */
  ghost predicate BlamesObject(p: Rules, records: seq<Record>, why: Rejection) {
    exists i: nat :: RefusedAt(p, records, i, why)
  }

  ghost predicate RefusedAt(p: Rules, records: seq<Record>, i: nat, why: Rejection) {
    i < |records| && Refusal(p, IdsOf(records[..i]), records[i]) == Some(why)
  }

  ghost predicate BlamesGroup(p: Rules, records: seq<Record>, why: Rejection) {
    exists k, members :: GroupFails(p, records, k, members, why)
  }

  ghost predicate GroupFails(p: Rules, records: seq<Record>, k: Key, members: seq<Record>, why: Rejection) {
    IsGroup(p, records, k, members) && |members| > 0 && p.build(k, members) == Err(why)
  }

  /** `aggregate_records`: the aggregation, and an error exactly when there is none. */
  method AggregateRecords(z: Zone, records: seq<Record>) returns (r: Result<map<Key, Observed>, Rejection>)
    ensures r.Ok? ==> Aggregates(RulesOf(z), records, r.value)
    ensures r.Err? ==> forall result :: !Aggregates(RulesOf(z), records, result)
    ensures r.Err? ==> BlamesObject(RulesOf(z), records, r.error) || BlamesGroup(RulesOf(z), records, r.error)
  {
    RulesConserve(z);
    r := GroupRecords(RulesOf(z), records);
  }

  method GroupRecords(p: Rules, records: seq<Record>) returns (r: Result<map<Key, Observed>, Rejection>)
    requires Conserving(p)
    ensures r.Ok? ==> Aggregates(p, records, r.value)
    ensures r.Err? ==> forall result :: !Aggregates(p, records, result)
    ensures r.Err? ==> BlamesObject(p, records, r.error) || BlamesGroup(p, records, r.error)
  {
    var groups: map<Key, seq<Record>>, ids: set<string> := map[], {};
    var i := 0;
    while i < |records|
      invariant 0 <= i <= |records|
      invariant Sound(p, records[..i])
      invariant ids == IdsOf(records[..i])
      invariant Grouped(p, records[..i], groups)
    {
      var record := records[i];
      AdmitOneMore(p, records, i, ids);
      var refusal := Refusal(p, ids, record);
      if refusal.Some? {
        assert RefusedAt(p, records, i, refusal.value);
        return Err(refusal.value);
      }
      ids := ids + {record.id};
      var key := p.key(record);
      assert records[..i + 1] == records[..i] + [record];
      GroupOneMore(p, records[..i], groups, record, key.value);
      groups := groups[key.value := (if key.value in groups then groups[key.value] else []) + [record]];
      i := i + 1;
    }
    assert records[..i] == records;
    r := BuildRrsets(p, records, groups);
  }

  method BuildRrsets(p: Rules, ghost records: seq<Record>, groups: map<Key, seq<Record>>)
    returns (r: Result<map<Key, Observed>, Rejection>)
    requires Sound(p, records) && Grouped(p, records, groups) && Conserving(p)
    ensures r.Ok? ==> Aggregates(p, records, r.value)
    ensures r.Err? ==> forall result :: !Aggregates(p, records, result)
    ensures r.Err? ==> BlamesGroup(p, records, r.error)
  {
    var result: map<Key, Observed>, rest := map[], groups.Keys;
    while rest != {}
      invariant rest <= groups.Keys
      invariant result.Keys == groups.Keys - rest
      invariant forall k :: k in result ==> IsRrset(p, records, k, result[k])
      decreases rest
    {
      var k :| k in rest;
      var members := SortMembers(groups[k]);
      SortedGroup(p, records, groups, k, members);
      var rrset := p.build(k, members);
      if rrset.Err? {
        RefusedGroup(p, records, k, members);
        assert GroupFails(p, records, k, members, rrset.error);
        return Err(rrset.error);
      }
      result := result[k := rrset.value];
      rest := rest - {k};
    }
    r := Ok(result);
  }

  // ---------------------------------------------------------------- what it keeps

  ghost predicate SameRecords(a: seq<Record>, b: seq<Record>) {
    forall r :: r in a <==> r in b
  }

  lemma {:induction false} DistinctOnce(xs: seq<Record>, r: Record)
    requires O.DistinctKeys(xs, IdOf)
    ensures multiset(xs)[r] <= 1
  {
    if |xs| > 0 {
      var n := |xs| - 1;
      assert xs == xs[..n] + [xs[n]];
      DistinctOnce(xs[..n], r);
      assert xs[n] !in xs[..n];
      assert xs[n] !in multiset(xs[..n]);
    }
  }

  lemma TwiceInMultiset(xs: seq<Record>, i: nat, j: nat)
    requires i < j < |xs| && xs[i] == xs[j]
    ensures multiset(xs)[xs[i]] >= 2
  {
    assert xs == xs[..j] + xs[j..] && xs[..j][i] == xs[i] && xs[j..][0] == xs[j];
    assert multiset(xs) == multiset(xs[..j]) + multiset(xs[j..]);
    assert xs[i] in multiset(xs[..j]) && xs[i] in multiset(xs[j..]);
  }

  lemma SameIdSameRecord(records: seq<Record>, a: Record, b: Record)
    requires O.DistinctKeys(records, IdOf) && a in records && b in records && a.id == b.id
    ensures a == b
  {
    var i :| 0 <= i < |records| && records[i] == a;
    var j :| 0 <= j < |records| && records[j] == b;
    assert IdOf(records[i]) == IdOf(records[j]);
  }

  /** Distinct ids do not depend on the order either. */
  lemma ReorderedDistinct(a: seq<Record>, b: seq<Record>)
    requires multiset(a) == multiset(b) && O.DistinctKeys(a, IdOf)
    ensures O.DistinctKeys(b, IdOf) && SameRecords(a, b)
  {
    forall r ensures r in a <==> r in b {
      O.InMultiset(a, r);
      O.InMultiset(b, r);
    }
    forall i, j | 0 <= i < j < |b| ensures IdOf(b[i]) != IdOf(b[j]) {
      assert b[i] in b && b[j] in b;
      if b[i].id == b[j].id {
        SameIdSameRecord(a, b[i], b[j]);
        DistinctOnce(a, b[i]);
        TwiceInMultiset(b, i, j);
      }
    }
  }

  /** Neither the order of the objects nor their split into pages can change the outcome: reordered
      objects have the same aggregations, of which there is at most one. */
  lemma AggregationIgnoresOrder(p: Rules, a: seq<Record>, b: seq<Record>, x: map<Key, Observed>, y: map<Key, Observed>)
    requires multiset(a) == multiset(b)
    ensures Aggregates(p, a, x) <==> Aggregates(p, b, x)
    ensures Aggregates(p, a, x) && Aggregates(p, b, y) ==> x == y
  {
    if O.DistinctKeys(a, IdOf) {
      ReorderedDistinct(a, b);
    }
    if O.DistinctKeys(b, IdOf) {
      ReorderedDistinct(b, a);
    }
    if Aggregates(p, a, x) {
      SameAggregation(p, a, b, x);
      if Aggregates(p, b, y) {
        AggregationUnique(p, b, x, y);
      }
    }
    if Aggregates(p, b, x) {
      SameAggregation(p, b, a, x);
    }
  }

  lemma AggregationUnique(p: Rules, records: seq<Record>, x: map<Key, Observed>, y: map<Key, Observed>)
    requires Aggregates(p, records, x) && Aggregates(p, records, y)
    ensures x == y
  {
    forall k | k in x ensures x[k] == y[k] {
      assert HasKey(p, records, k) && IsRrset(p, records, k, x[k]) && IsRrset(p, records, k, y[k]);
      GroupUnique(p, records, records, k, x[k].revision.members, y[k].revision.members);
    }
  }

  lemma SameAggregation(p: Rules, a: seq<Record>, b: seq<Record>, x: map<Key, Observed>)
    requires SameRecords(a, b) && Aggregates(p, a, x) && O.DistinctKeys(b, IdOf)
    ensures Aggregates(p, b, x)
  {
    forall k ensures HasKey(p, a, k) <==> HasKey(p, b, k) {
    }
    forall k | k in x ensures IsRrset(p, b, k, x[k]) {
      assert IsRrset(p, a, k, x[k]);
    }
  }

  /** Every object's id is under its own record set and under no other, and no id is made up. */
  lemma IdsPartition(p: Rules, records: seq<Record>, result: map<Key, Observed>, k: Key, id: string)
    requires Aggregates(p, records, result) && Conserving(p) && k in result
    ensures id in result[k].objectIds <==> exists r :: r in records && r.id == id && p.key(r) == Some(k)
  {
    var members := result[k].revision.members;
    assert IsRrset(p, records, k, result[k]);
    if id in result[k].objectIds {
      var r :| r in members && r.id == id;
      assert r in records;
    }
    if r :| r in records && r.id == id && p.key(r) == Some(k) {
      assert r in members;
    }
  }

  ghost function ValueCount(result: map<Key, Observed>, keys: seq<Key>): nat
    requires forall k :: k in keys ==> k in result
  {
    if |keys| == 0 then 0
    else ValueCount(result, keys[..|keys| - 1]) + |result[keys[|keys| - 1]].recordSet.values|
  }

  ghost function Under(p: Rules, records: seq<Record>, keys: set<Key>): set<Record> {
    set r | r in records && p.key(r).Some? && p.key(r).value in keys
  }

  lemma {:induction false} DistinctCount(xs: seq<Record>)
    requires O.DistinctKeys(xs, IdOf)
    ensures |set r | r in xs| == |xs|
  {
    if |xs| > 0 {
      var n := |xs| - 1;
      DistinctCount(xs[..n]);
      assert xs[n] !in xs[..n];
      assert (set r | r in xs) == (set r | r in xs[..n]) + {xs[n]};
    }
  }

  lemma UnderOneKey(p: Rules, records: seq<Record>, result: map<Key, Observed>, k: Key)
    requires Aggregates(p, records, result) && Conserving(p) && k in result
    ensures |Under(p, records, {k})| == |result[k].recordSet.values|
  {
    assert IsRrset(p, records, k, result[k]);
    var members := result[k].revision.members;
    assert Under(p, records, {k}) == set r | r in members;
    forall i, j | 0 <= i < j < |members| ensures IdOf(members[i]) != IdOf(members[j]) {
      O.Irreflexive(IdOf(members[i]));
    }
    DistinctCount(members);
  }

  ghost function KeySet(keys: seq<Key>): set<Key> {
    set k | k in keys
  }

  lemma {:induction false} CountUnder(p: Rules, records: seq<Record>, result: map<Key, Observed>, keys: seq<Key>)
    requires forall k :: k in keys ==> k in result && |Under(p, records, {k})| == |result[k].recordSet.values|
    requires forall i, j :: 0 <= i < j < |keys| ==> keys[i] != keys[j]
    ensures |Under(p, records, KeySet(keys))| == ValueCount(result, keys)
  {
    if |keys| == 0 {
      assert Under(p, records, KeySet(keys)) == {};
    } else {
      var n := |keys| - 1;
      var front, last := keys[..n], keys[n];
      CountUnder(p, records, result, front);
      KeySetGrows(keys);
      UnderSplits(p, records, KeySet(front), last);
    }
  }

  lemma KeySetGrows(keys: seq<Key>)
    requires |keys| > 0 && forall i, j :: 0 <= i < j < |keys| ==> keys[i] != keys[j]
    ensures var n := |keys| - 1; keys[n] !in KeySet(keys[..n]) && KeySet(keys) == KeySet(keys[..n]) + {keys[n]}
  {
    var n := |keys| - 1;
    assert keys == keys[..n] + [keys[n]];
  }

  lemma UnderSplits(p: Rules, records: seq<Record>, keys: set<Key>, k: Key)
    requires k !in keys
    ensures |Under(p, records, keys + {k})| == |Under(p, records, keys)| + |Under(p, records, {k})|
  {
    assert Under(p, records, keys) !! Under(p, records, {k});
    assert Under(p, records, keys + {k}) == Under(p, records, keys) + Under(p, records, {k});
  }

  /** Conservation: the record sets together hold exactly as many values as there were objects. */
  lemma ValuesConserved(p: Rules, records: seq<Record>, result: map<Key, Observed>, keys: seq<Key>)
    requires Aggregates(p, records, result) && Conserving(p)
    requires forall k :: k in keys <==> k in result
    requires forall i, j :: 0 <= i < j < |keys| ==> keys[i] != keys[j]
    ensures ValueCount(result, keys) == |records|
  {
    forall k | k in keys ensures |Under(p, records, {k})| == |result[k].recordSet.values| {
      UnderOneKey(p, records, result, k);
    }
    CountUnder(p, records, result, keys);
    EveryRecordUnder(p, records, keys);
  }

  lemma EveryRecordUnder(p: Rules, records: seq<Record>, keys: seq<Key>)
    requires Sound(p, records) && forall k :: HasKey(p, records, k) ==> k in keys
    ensures |Under(p, records, KeySet(keys))| == |records|
  {
    DistinctCount(records);
    forall r | r in records ensures r in Under(p, records, KeySet(keys)) {
      assert RecordOk(p, r) && HasKey(p, records, p.key(r).value);
    }
    assert Under(p, records, KeySet(keys)) == set r | r in records;
  }

  /** The two fields that comparing members leaves out: flattening outside CNAME and a proxy outside
      the proxiable types. */
  predicate Clean(r: Record, kind: RecordType) {
    (kind == Cname || r.flatten.None?) && (ProxyType(kind) || r.proxied != Some(true))
  }

  /** The objects of a group without their ids. */
  function Contents(members: seq<Record>): multiset<Record> {
    multiset(Stripped(members))
  }

  function Stripped(members: seq<Record>): seq<Record> {
    seq(|members|, i requires 0 <= i < |members| => members[i].(id := ""))
  }

  /** Two lists of the same objects, up to their ids and hence their order: each object of one has
      a counterpart in the other. */
  lemma Counterpart(a: seq<Record>, b: seq<Record>, i: nat) returns (j: nat)
    requires Contents(a) == Contents(b) && i < |a|
    ensures j < |b| && a[i].(id := "") == b[j].(id := "")
  {
    var x := Stripped(a)[i];
    assert x in Stripped(a);
    O.InMultiset(Stripped(a), x);
    O.InMultiset(Stripped(b), x);
    j :| 0 <= j < |Stripped(b)| && Stripped(b)[j] == x;
  }

  lemma SameSize(a: seq<Record>, b: seq<Record>)
    requires Contents(a) == Contents(b)
    ensures |a| == |b|
  {
    assert |multiset(Stripped(a))| == |Stripped(a)| && |multiset(Stripped(b))| == |Stripped(b)|;
  }

  ghost predicate Homogeneous(members: seq<Record>, kind: RecordType) {
    forall i, j :: 0 <= i < |members| && 0 <= j < |members| ==>
      SignatureOf(members[i], kind) == SignatureOf(members[j], kind)
  }

  lemma SameValues(a: seq<Record>, b: seq<Record>)
    requires Contents(a) == Contents(b)
    ensures ValuesOf(a) == ValuesOf(b)
  {
    forall v ensures v in ValuesOf(a) ==> v in ValuesOf(b) {
      if v in ValuesOf(a) {
        var i :| 0 <= i < |a| && a[i].value == v;
        var j := Counterpart(a, b, i);
        assert b[j] in b && b[j].value == v;
      }
    }
    forall v ensures v in ValuesOf(b) ==> v in ValuesOf(a) {
      if v in ValuesOf(b) {
        var i :| 0 <= i < |b| && b[i].value == v;
        var j := Counterpart(b, a, i);
        assert a[j] in a && a[j].value == v;
      }
    }
  }

  lemma SameHomogeneity(a: seq<Record>, b: seq<Record>, kind: RecordType)
    requires Contents(a) == Contents(b) && Homogeneous(a, kind)
    ensures Homogeneous(b, kind)
    ensures |a| > 0 && |b| > 0 ==> SignatureOf(a[0], kind) == SignatureOf(b[0], kind)
  {
    forall i, j | 0 <= i < |b| && 0 <= j < |b| ensures SignatureOf(b[i], kind) == SignatureOf(b[j], kind) {
      var x := Counterpart(b, a, i);
      var y := Counterpart(b, a, j);
    }
    if |a| > 0 && |b| > 0 {
      var x := Counterpart(b, a, 0);
    }
  }

  /** What reading a group needs, naming its head only for the two fields. */
  lemma ReadNeeds(z: Zone, k: Key, members: seq<Record>)
    requires |members| > 0
    ensures Rrset(z, k, members).Ok? ==>
      Clean(members[0], k.kind) && Homogeneous(members, k.kind) && |ValuesOf(members)| == |members|
    ensures Homogeneous(members, k.kind) <==>
      !exists i :: 0 <= i < |members| && SignatureOf(members[i], k.kind) != SignatureOf(members[0], k.kind)
  {
  }

  lemma HeadsAgree(r: Record, q: Record, kind: RecordType)
    requires SignatureOf(r, kind) == SignatureOf(q, kind) && Clean(r, kind) && Clean(q, kind)
    ensures ExtensionOf(r, kind) == ExtensionOf(q, kind) && r.ttl == q.ttl
  {
  }

  /** Ids decide through the head alone. For two lists of the same objects under different ids: if one
      is read, the other is read if and only if its head is clean, and as the same record set; and if
      both heads are clean, one is read if and only if the other is. */
  lemma IdsDecideByHead(z: Zone, k: Key, a: seq<Record>, b: seq<Record>)
    requires Contents(a) == Contents(b) && |a| > 0
    ensures |b| > 0
    ensures Rrset(z, k, a).Ok? ==> (Rrset(z, k, b).Ok? <==> Clean(b[0], k.kind))
    ensures Rrset(z, k, a).Ok? && Rrset(z, k, b).Ok? ==>
      Rrset(z, k, a).value.recordSet == Rrset(z, k, b).value.recordSet
    ensures Clean(a[0], k.kind) && Clean(b[0], k.kind) ==> (Rrset(z, k, a).Ok? <==> Rrset(z, k, b).Ok?)
  {
    SameSize(a, b);
    SameValues(a, b);
    ReadNeeds(z, k, a);
    ReadNeeds(z, k, b);
    if Homogeneous(a, k.kind) || Homogeneous(b, k.kind) {
      if Homogeneous(a, k.kind) {
        SameHomogeneity(a, b, k.kind);
      } else {
        SameHomogeneity(b, a, k.kind);
      }
      if Clean(a[0], k.kind) && Clean(b[0], k.kind) {
        HeadsAgree(a[0], b[0], k.kind);
      }
    }
  }

  /** So ids never decide, exactly when every member is clean: the objects of a group are read under
      all ids, each time in the order of those ids, if and only if they are read under some and each of
      them is clean. */
  lemma ReadUnderAllIds(z: Zone, k: Key, a: seq<Record>)
    requires |a| > 0
    ensures (forall b :: O.Increasing(b, IdOf) && Contents(a) == Contents(b) ==> Rrset(z, k, b).Ok?) <==>
      Rrset(z, k, a).Ok? && forall m :: m in a ==> Clean(m, k.kind)
  {
    if forall b :: O.Increasing(b, IdOf) && Contents(a) == Contents(b) ==> Rrset(z, k, b).Ok? {
      forall m | m in a ensures Clean(m, k.kind) {
        var i :| 0 <= i < |a| && a[i] == m;
        var b := Numbered(Fronted(a, i));
        FrontedContents(a, i);
        NumberedIncreases(Fronted(a, i));
        assert Rrset(z, k, b).Ok?;
        ReadNeeds(z, k, b);
      }
      var b := Numbered(a);
      NumberedIncreases(a);
      assert Rrset(z, k, b).Ok? && a[0] in a;
      IdsDecideByHead(z, k, b, a);
    }
    if Rrset(z, k, a).Ok? && forall m :: m in a ==> Clean(m, k.kind) {
      forall b | O.Increasing(b, IdOf) && Contents(a) == Contents(b) ensures Rrset(z, k, b).Ok? {
        IdsDecideByHead(z, k, a, b);
        var j := Counterpart(b, a, 0);
        assert Clean(a[j], k.kind);
      }
    }
  }

  /** Ids that increase with the position. */
  function Ones(n: nat): string {
    seq(n, _ => '1')
  }

  lemma {:induction false} OnesIncrease(m: nat, n: nat)
    requires m < n
    ensures O.Less(Ones(m), Ones(n))
  {
    if m > 0 {
      OnesIncrease(m - 1, n - 1);
      assert Ones(m)[1..] == Ones(m - 1) && Ones(n)[1..] == Ones(n - 1);
    }
  }

  function Numbered(members: seq<Record>): seq<Record> {
    seq(|members|, i requires 0 <= i < |members| => members[i].(id := Ones(i)))
  }

  lemma NumberedIncreases(members: seq<Record>)
    ensures O.Increasing(Numbered(members), IdOf) && Contents(Numbered(members)) == Contents(members)
  {
    var b := Numbered(members);
    forall i, j | 0 <= i < j < |b| ensures O.Less(IdOf(b[i]), IdOf(b[j])) {
      OnesIncrease(i, j);
    }
    assert Stripped(b) == Stripped(members);
  }

  function Fronted(a: seq<Record>, i: nat): seq<Record>
    requires i < |a|
  {
    [a[i]] + a[..i] + a[i + 1..]
  }

  lemma FrontedContents(a: seq<Record>, i: nat)
    requires i < |a|
    ensures Contents(Fronted(a, i)) == Contents(a)
  {
    var s := Stripped(a);
    assert Stripped(Fronted(a, i)) == [s[i]] + s[..i] + s[i + 1..];
    assert s == s[..i] + [s[i]] + s[i + 1..];
  }

  function ZeroId(): string { seq(32, _ => '0') }
  function OneId(): string { seq(32, _ => '1') }

  /** So the ids that the provider hands out can decide whether the same two TXT objects are read. */
  lemma LowestIdDecides(z: Zone, owner: string, v: Value, w: Value)
    requires v != w && v.kind == w.kind == Txt && z.valueOk(v) && z.valueOk(w) && z.within(owner)
    ensures var k := Key(owner, Txt, Simple);
      var plain := Record(ZeroId(), owner, 300, v, None, false, None, false, false, false, None, {}, None);
      var proxied := Record(OneId(), owner, 300, w, Some(true), false, None, false, false, false, None, {}, None);
      Rrset(z, k, [plain, proxied]).Ok? && Rrset(z, k, [proxied.(id := ZeroId()), plain.(id := OneId())]).Err?
  {
    var plain := Record(ZeroId(), owner, 300, v, None, false, None, false, false, false, None, {}, None);
    var proxied := Record(OneId(), owner, 300, w, Some(true), false, None, false, false, false, None, {}, None);
    var members := [plain, proxied];
    assert members[0] == plain && members[1] == proxied;
    assert ValuesOf(members) == {v, w} by {
      assert members[0] in members && members[1] in members;
    }
    assert |ValuesOf(members)| == 2;
    assert SignatureOf(plain, Txt) == SignatureOf(proxied, Txt);
  }

  // ---------------------------------------------------------------- a group as a value

  ghost function Filtered(p: Rules, records: seq<Record>, k: Key): (r: seq<Record>)
    ensures forall x :: x in r <==> x in records && p.key(x) == Some(k)
  {
    if |records| == 0 then []
    else
      var n := |records| - 1;
      assert records == records[..n] + [records[n]];
      Filtered(p, records[..n], k) + (if p.key(records[n]) == Some(k) then [records[n]] else [])
  }

  lemma {:induction false} FilteredDistinct(p: Rules, records: seq<Record>, k: Key)
    requires O.DistinctKeys(records, IdOf)
    ensures O.DistinctKeys(Filtered(p, records, k), IdOf)
  {
    if |records| > 0 {
      var n := |records| - 1;
      FilteredDistinct(p, records[..n], k);
      forall x | x in Filtered(p, records[..n], k) ensures x.id != records[n].id {
        assert x in records[..n];
        var i :| 0 <= i < n && records[i] == x;
        assert IdOf(records[i]) != IdOf(records[n]);
      }
    }
  }

  /** The objects under `k`, sorted: the witness that aggregation needs. */
  ghost function GroupUnder(p: Rules, records: seq<Record>, k: Key): seq<Record> {
    O.Sort(Filtered(p, records, k), IdOf)
  }

  lemma GroupUnderIsGroup(p: Rules, records: seq<Record>, k: Key)
    requires O.DistinctKeys(records, IdOf)
    ensures IsGroup(p, records, k, GroupUnder(p, records, k))
  {
    FilteredDistinct(p, records, k);
    O.Sorted(Filtered(p, records, k), IdOf);
  }
}
