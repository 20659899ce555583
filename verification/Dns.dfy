/** The provider-neutral record sets and guarded changes that both DNS planners work on
    (crates/center-core/src/cloud/dns.rs). Owner names, values and identifiers are text. */
module Dns {
  import opened Basics

  datatype RecordType = A | Aaaa | Cname | Txt | Mx | Srv | Caa | Ns | Soa

  datatype Routing = Simple | SetIdentifier(id: string)

  datatype Key = Key(owner: string, kind: RecordType, routing: Routing)

  datatype Ttl = Automatic | Inherited | Seconds(seconds: nat)

  datatype Value = Value(kind: RecordType, data: string)

  datatype FailoverRole = Primary | Secondary

  datatype GeoLocation = Default | Continent(code: string) | Country(code: string) | UsSubdivision(code: string)

  datatype Policy =
    | Weighted(weight: nat)
    | Failover(role: FailoverRole)
    | Latency(region: string)
    | Geolocation(location: GeoLocation)
    | Multivalue

  datatype Alias = Alias(zone: string, target: string, evaluateHealth: bool)

  datatype Proxy = DnsOnly | Proxied

  datatype Flattening = ProviderDefault | Flatten | DoNotFlatten

  datatype Extension =
    | Cloudflare(proxy: Option<Proxy>, flattening: Flattening, comment: Option<string>, tags: set<string>)
    | Route53(alias: Option<Alias>, policy: Option<Policy>, health: Option<string>)

  datatype RecordSet = RecordSet(key: Key, ttl: Ttl, values: set<Value>, extension: Option<Extension>)

  /** One Cloudflare object as its API returns it. */
  datatype Record = Record(
    id: string, name: string, ttl: nat, value: Value,
    proxied: Option<bool>, proxiable: bool, flatten: Option<bool>,
    ipv4Only: bool, ipv6Only: bool, privateRouting: bool,
    comment: Option<string>, tags: set<string>, modified: Option<string>)

  /** Revisions are SHA-256 digests of canonical JSON, taken as injective: Route 53 digests the
      record set, Cloudflare the member objects in id order. */
  datatype Revision = OfRecordSet(recordSet: RecordSet) | OfMembers(members: seq<Record>)

  datatype Observed = Observed(zone: string, recordSet: RecordSet, objectIds: set<string>, revision: Revision)

  datatype Change =
    | Create(recordSet: RecordSet)
    | Replace(previous: Observed, desired: RecordSet)
    | Delete(previous: Observed)

  function ChangeKey(c: Change): Key {
    match c
    case Create(recordSet) => recordSet.key
    case Replace(_, desired) => desired.key
    case Delete(previous) => previous.recordSet.key
  }

  /** What `validate_dns_changes` settles before a planner runs: a record identity occurs in at most
      one change, and a replacement keeps its identity. */
  predicate ValidChanges(changes: seq<Change>) {
    && (forall i, j :: 0 <= i < j < |changes| ==> ChangeKey(changes[i]) != ChangeKey(changes[j]))
    && (forall i :: 0 <= i < |changes| && changes[i].Replace? ==>
          changes[i].previous.recordSet.key == changes[i].desired.key)
  }

  /** The meaning of a change on an inventory. */
  function Applied(c: Change, inventory: map<Key, RecordSet>): map<Key, RecordSet> {
    match c
    case Create(recordSet) => inventory[recordSet.key := recordSet]
    case Replace(_, desired) => inventory[desired.key := desired]
    case Delete(previous) => inventory - {previous.recordSet.key}
  }

  function AppliedAll(changes: seq<Change>, inventory: map<Key, RecordSet>): map<Key, RecordSet> {
    if |changes| == 0 then inventory
    else Applied(changes[|changes| - 1], AppliedAll(changes[..|changes| - 1], inventory))
  }

  function Touched(changes: seq<Change>): set<Key> {
    set i | 0 <= i < |changes| :: ChangeKey(changes[i])
  }

  lemma TouchedAppends(changes: seq<Change>, c: Change)
    ensures Touched(changes + [c]) == Touched(changes) + {ChangeKey(c)}
  {
    var all := changes + [c];
    forall k ensures k in Touched(all) <==> k in Touched(changes) + {ChangeKey(c)} {
      if k in Touched(changes) {
        var i :| 0 <= i < |changes| && k == ChangeKey(changes[i]);
        assert all[i] == changes[i];
      }
      assert all[|changes|] == c;
    }
  }

  /** The record sets that changes ask for. */
  function Expected(changes: seq<Change>): map<Key, RecordSet> {
    if |changes| == 0 then map[]
    else
      var n := |changes| - 1;
      match changes[n]
      case Create(recordSet) => Expected(changes[..n])[recordSet.key := recordSet]
      case Replace(_, desired) => Expected(changes[..n])[desired.key := desired]
      case Delete(_) => Expected(changes[..n])
  }

  /** Changes to distinct identities: every touched record set is dropped and the expected ones are
      put in, in any order. */
  lemma {:induction false} AppliedIsOverlay(changes: seq<Change>, inventory: map<Key, RecordSet>)
    requires ValidChanges(changes)
    ensures Expected(changes).Keys <= Touched(changes)
    ensures AppliedAll(changes, inventory) == (inventory - Touched(changes)) + Expected(changes)
  {
    if |changes| == 0 {
      assert inventory - Touched(changes) == inventory;
    } else {
      var n := |changes| - 1;
      var front, c := changes[..n], changes[n];
      assert forall i :: 0 <= i < n ==> front[i] == changes[i];
      assert changes == front + [c];
      AppliedIsOverlay(front, inventory);
      TouchedAppends(front, c);
      OverlayOne(c, inventory, Touched(front), Expected(front));
    }
  }

  lemma OverlayOne(c: Change, inventory: map<Key, RecordSet>, touched: set<Key>, expected: map<Key, RecordSet>)
    requires ChangeKey(c) !in touched && expected.Keys <= touched
    ensures Applied(c, (inventory - touched) + expected) ==
      (inventory - (touched + {ChangeKey(c)})) +
      (if c.Delete? then expected else expected[ChangeKey(c) := if c.Create? then c.recordSet else c.desired])
  {
  }

  /** Changes leave every other record set alone. */
  lemma {:induction false} UntouchedStays(changes: seq<Change>, inventory: map<Key, RecordSet>, k: Key)
    requires k !in Touched(changes)
    ensures k in AppliedAll(changes, inventory) <==> k in inventory
    ensures k in inventory ==> AppliedAll(changes, inventory)[k] == inventory[k]
  {
    if |changes| > 0 {
      var n := |changes| - 1;
      assert ChangeKey(changes[n]) != k;
      assert forall i :: 0 <= i < n ==> changes[..n][i] == changes[i];
      UntouchedStays(changes[..n], inventory, k);
    }
  }

  /** A record set whose identity is changed once ends up as that change says. */
  lemma {:induction false} TouchedBecomes(changes: seq<Change>, inventory: map<Key, RecordSet>, i: nat)
    requires ValidChanges(changes) && i < |changes|
    ensures var k, r := ChangeKey(changes[i]), AppliedAll(changes, inventory);
      match changes[i]
      case Create(recordSet) => k in r && r[k] == recordSet
      case Replace(_, desired) => k in r && r[k] == desired
      case Delete(_) => k !in r
  {
    var n := |changes| - 1;
    if i < n {
      assert forall j :: 0 <= j < n ==> changes[..n][j] == changes[j];
      TouchedBecomes(changes[..n], inventory, i);
      assert ChangeKey(changes[n]) != ChangeKey(changes[i]);
    }
  }
}
