/** Well-formedness of a Route 53 zone and the check of only the parts a batch affects
    (crates/center-adapter-route53/src/lib.rs, `validate_resultant_inventory`). */
module Route53Inventory {
  import opened Basics
  import opened Dns

  const MAX_WEIGHTED_MEMBERS := 100

  type Inventory = map<Key, RecordSet>

  type Group = (string, RecordType)

  datatype Family =
    | SimpleFamily | WeightedFamily | FailoverFamily | LatencyFamily | GeolocationFamily | MultivalueFamily

  /** `resultant_selector`; its text forms are injective. */
  datatype Selector = ByRole(role: FailoverRole) | ByRegion(region: string) | ByLocation(location: GeoLocation)

  function PolicyOf(r: RecordSet): Option<Policy> {
    if r.extension.Some? && r.extension.value.Route53? then r.extension.value.policy else None
  }

  function FamilyOf(r: RecordSet): Family {
    match PolicyOf(r)
    case None => SimpleFamily
    case Some(Weighted(_)) => WeightedFamily
    case Some(Failover(_)) => FailoverFamily
    case Some(Latency(_)) => LatencyFamily
    case Some(Geolocation(_)) => GeolocationFamily
    case Some(Multivalue) => MultivalueFamily
  }

  function SelectorOf(r: RecordSet): Option<Selector> {
    match PolicyOf(r)
    case Some(Failover(role)) => Some(ByRole(role))
    case Some(Latency(region)) => Some(ByRegion(region))
    case Some(Geolocation(location)) => Some(ByLocation(location))
    case _ => None
  }

  function Members(inv: Inventory, g: Group): set<Key> {
    set k | k in inv && k.owner == g.0 && k.kind == g.1
  }

  /** A CNAME shares its owner name with no other type. */
  ghost predicate OwnerOk(inv: Inventory, owner: string) {
    forall a, b :: a in inv && b in inv && a.owner == b.owner == owner && a.kind == Cname ==> b.kind == Cname
  }

  ghost predicate OneFamily(inv: Inventory, members: set<Key>)
    requires members <= inv.Keys
  {
    forall a, b :: a in members && b in members ==> FamilyOf(inv[a]) == FamilyOf(inv[b])
  }

  ghost predicate OneTtl(inv: Inventory, members: set<Key>)
    requires members <= inv.Keys
  {
    forall a, b :: a in members && b in members && inv[a].ttl.Seconds? && inv[b].ttl.Seconds? ==>
      inv[a].ttl == inv[b].ttl
  }

  ghost predicate DistinctSelectors(inv: Inventory, members: set<Key>)
    requires members <= inv.Keys
  {
    forall a, b :: a in members && b in members && a != b && SelectorOf(inv[a]).Some? ==>
      SelectorOf(inv[a]) != SelectorOf(inv[b])
  }

  ghost predicate WithinWeightedLimit(inv: Inventory, members: set<Key>)
    requires members <= inv.Keys
  {
    (exists a :: a in members && FamilyOf(inv[a]) == WeightedFamily) ==> |members| <= MAX_WEIGHTED_MEMBERS
  }

  ghost predicate GroupOk(inv: Inventory, g: Group) {
    var m := Members(inv, g);
    OneFamily(inv, m) && OneTtl(inv, m) && DistinctSelectors(inv, m) && WithinWeightedLimit(inv, m)
  }

  ghost predicate WellFormed(inv: Inventory) {
    (forall o :: OwnerOk(inv, o)) && (forall g :: GroupOk(inv, g))
  }

  // ---------------------------------------------------------------- what it means

  predicate HasPolicy(r: RecordSet) {
    r.extension.Some? && r.extension.value.Route53? && r.extension.value.policy.Some?
  }

  function ThePolicy(r: RecordSet): Policy
    requires HasPolicy(r)
  {
    r.extension.value.policy.value
  }

  predicate SameKind(p: Policy, q: Policy) {
    && (p.Weighted? <==> q.Weighted?) && (p.Failover? <==> q.Failover?) && (p.Latency? <==> q.Latency?)
    && (p.Geolocation? <==> q.Geolocation?) && (p.Multivalue? <==> q.Multivalue?)
  }

  /** Both have a policy of the same kind or neither has one. */
  predicate SamePolicyKind(a: RecordSet, b: RecordSet) {
    (HasPolicy(a) <==> HasPolicy(b)) && (HasPolicy(a) && HasPolicy(b) ==> SameKind(ThePolicy(a), ThePolicy(b)))
  }

  /** Two members of a group: one kind of policy, one TTL in seconds, and no failover role, latency region or
      location twice. Weights and multivalue answers may repeat. */
  predicate Compatible(a: RecordSet, b: RecordSet) {
    && SamePolicyKind(a, b)
    && (a.ttl.Seconds? && b.ttl.Seconds? ==> a.ttl.seconds == b.ttl.seconds)
    && (HasPolicy(a) && HasPolicy(b) ==>
          var p, q := ThePolicy(a), ThePolicy(b);
          && !(p.Failover? && q.Failover? && p.role == q.role)
          && !(p.Latency? && q.Latency? && p.region == q.region)
          && !(p.Geolocation? && q.Geolocation? && p.location == q.location))
  }

  predicate SomeWeighted(inv: Inventory, g: Group) {
    exists k :: k in inv && k.owner == g.0 && k.kind == g.1 && HasPolicy(inv[k]) && ThePolicy(inv[k]).Weighted?
  }

  /** A group is in order, in terms of the policies of its members alone. */
  lemma GroupOkMeans(inv: Inventory, g: Group)
    ensures GroupOk(inv, g) <==>
      && (forall a, b :: a in Members(inv, g) && b in Members(inv, g) && a != b ==> Compatible(inv[a], inv[b]))
      && (SomeWeighted(inv, g) ==> |Members(inv, g)| <= MAX_WEIGHTED_MEMBERS)
  {
    var m := Members(inv, g);
    if GroupOk(inv, g) {
      forall a, b | a in m && b in m && a != b ensures Compatible(inv[a], inv[b]) {
        PairOk(inv[a], inv[b]);
      }
      if k :| k in inv && k.owner == g.0 && k.kind == g.1 && HasPolicy(inv[k]) && ThePolicy(inv[k]).Weighted? {
        assert k in m && FamilyOf(inv[k]) == WeightedFamily;
      }
    }
    if forall a, b :: a in m && b in m && a != b ==> Compatible(inv[a], inv[b]) {
      forall a, b | a in m && b in m && a != b
        ensures FamilyOf(inv[a]) == FamilyOf(inv[b])
        ensures inv[a].ttl.Seconds? && inv[b].ttl.Seconds? ==> inv[a].ttl == inv[b].ttl
        ensures SelectorOf(inv[a]).Some? ==> SelectorOf(inv[a]) != SelectorOf(inv[b])
      {
        PairOk(inv[a], inv[b]);
      }
    }
    if SomeWeighted(inv, g) ==> |m| <= MAX_WEIGHTED_MEMBERS {
      if k :| k in m && FamilyOf(inv[k]) == WeightedFamily {
        assert SomeWeighted(inv, g);
      }
    }
  }

  lemma PairOk(a: RecordSet, b: RecordSet)
    ensures Compatible(a, b) <==>
      && FamilyOf(a) == FamilyOf(b)
      && (a.ttl.Seconds? && b.ttl.Seconds? ==> a.ttl == b.ttl)
      && (SelectorOf(a).Some? ==> SelectorOf(a) != SelectorOf(b))
  {
  }

  /** A zone is well formed exactly when a CNAME has its owner name to itself, any two record sets of one
      owner and type are compatible, and no weighted group exceeds the limit. */
  lemma WellFormedMeans(inv: Inventory)
    ensures WellFormed(inv) <==>
      && (forall a, b :: a in inv && b in inv && a.owner == b.owner && a.kind == Cname ==> b.kind == Cname)
      && (forall a, b :: a in inv && b in inv && a != b && a.owner == b.owner && a.kind == b.kind ==>
            Compatible(inv[a], inv[b]))
      && (forall g: Group :: SomeWeighted(inv, g) ==> |Members(inv, g)| <= MAX_WEIGHTED_MEMBERS)
  {
    forall g: Group
      ensures GroupOk(inv, g) <==>
        && (forall a, b :: a in Members(inv, g) && b in Members(inv, g) && a != b ==> Compatible(inv[a], inv[b]))
        && (SomeWeighted(inv, g) ==> |Members(inv, g)| <= MAX_WEIGHTED_MEMBERS)
    {
      GroupOkMeans(inv, g);
    }
    if WellFormed(inv) {
      forall a, b | a in inv && b in inv && a != b && a.owner == b.owner && a.kind == b.kind
        ensures Compatible(inv[a], inv[b])
      {
        var g := (a.owner, a.kind);
        assert GroupOk(inv, g) && a in Members(inv, g) && b in Members(inv, g);
      }
      forall a, b | a in inv && b in inv && a.owner == b.owner && a.kind == Cname ensures b.kind == Cname {
        assert OwnerOk(inv, a.owner);
      }
      forall g: Group | SomeWeighted(inv, g) ensures |Members(inv, g)| <= MAX_WEIGHTED_MEMBERS {
        assert GroupOk(inv, g);
      }
    }
  }

  // ---------------------------------------------------------------- the check

  method CheckOwner(inv: Inventory, owner: string) returns (ok: bool)
    ensures ok <==> OwnerOk(inv, owner)
  {
    var hasCname, hasOther := false, false;
    var rest := inv.Keys;
    while rest != {}
      invariant rest <= inv.Keys
      invariant hasCname <==> exists k :: k in inv.Keys - rest && k.owner == owner && k.kind == Cname
      invariant hasOther <==> exists k :: k in inv.Keys - rest && k.owner == owner && k.kind != Cname
      decreases rest
    {
      var k :| k in rest;
      if k.owner == owner {
        if k.kind == Cname {
          hasCname := true;
        } else {
          hasOther := true;
        }
      }
      rest := rest - {k};
    }
    ok := !(hasCname && hasOther);
  }

  /** What the member loop has established about the members it has passed. */
  ghost predicate Passed(inv: Inventory, done: set<Key>, family: Family, ttl: Option<nat>, selectors: set<Selector>)
    requires done <= inv.Keys
  {
    && (forall a :: a in done ==> FamilyOf(inv[a]) == family)
    && (forall a :: a in done && inv[a].ttl.Seconds? ==> ttl == Some(inv[a].ttl.seconds))
    && (ttl.Some? ==> exists a :: a in done && inv[a].ttl == Seconds(ttl.value))
    && (forall a :: a in done && SelectorOf(inv[a]).Some? ==> SelectorOf(inv[a]).value in selectors)
    && (forall x :: x in selectors ==> exists a :: a in done && SelectorOf(inv[a]) == Some(x))
    && DistinctSelectors(inv, done)
  }

  predicate Clashes(member: RecordSet, family: Family, ttl: Option<nat>, selectors: set<Selector>) {
    || FamilyOf(member) != family
    || (member.ttl.Seconds? && ttl.Some? && ttl.value != member.ttl.seconds)
    || (SelectorOf(member).Some? && SelectorOf(member).value in selectors)
  }

  lemma PassOne(inv: Inventory, done: set<Key>, k: Key, family: Family, ttl: Option<nat>, selectors: set<Selector>)
    requires done <= inv.Keys && k in inv && Passed(inv, done, family, ttl, selectors)
    requires !Clashes(inv[k], family, ttl, selectors)
    ensures Passed(inv, done + {k}, family, if inv[k].ttl.Seconds? then Some(inv[k].ttl.seconds) else ttl,
                   if SelectorOf(inv[k]).Some? then selectors + {SelectorOf(inv[k]).value} else selectors)
  {
    SelectorsStayDistinct(inv, done, k, selectors);
  }

  lemma SelectorsStayDistinct(inv: Inventory, done: set<Key>, k: Key, selectors: set<Selector>)
    requires done <= inv.Keys && k in inv && DistinctSelectors(inv, done)
    requires forall a :: a in done && SelectorOf(inv[a]).Some? ==> SelectorOf(inv[a]).value in selectors
    requires SelectorOf(inv[k]).Some? ==> SelectorOf(inv[k]).value !in selectors
    ensures DistinctSelectors(inv, done + {k})
  {
    forall a, b | a in done + {k} && b in done + {k} && a != b && SelectorOf(inv[a]).Some?
      ensures SelectorOf(inv[a]) != SelectorOf(inv[b])
    {
    }
  }

  lemma FailOne(inv: Inventory, g: Group, done: set<Key>, first: Key, k: Key, ttl: Option<nat>,
                selectors: set<Selector>)
    requires done <= Members(inv, g) && first in Members(inv, g) && k in Members(inv, g) - done
    requires Passed(inv, done, FamilyOf(inv[first]), ttl, selectors)
    requires Clashes(inv[k], FamilyOf(inv[first]), ttl, selectors)
    ensures !GroupOk(inv, g)
  {
    if FamilyOf(inv[k]) == FamilyOf(inv[first]) {
      if inv[k].ttl.Seconds? && ttl.Some? && ttl.value != inv[k].ttl.seconds {
        var a :| a in done && inv[a].ttl == Seconds(ttl.value);
        assert inv[a].ttl != inv[k].ttl;
      } else {
        var a :| a in done && SelectorOf(inv[a]) == Some(SelectorOf(inv[k]).value);
        assert a != k && SelectorOf(inv[a]) == SelectorOf(inv[k]);
      }
    }
  }

  /** The check of one group, and what it means. */
  method CheckGroup(inv: Inventory, g: Group) returns (ok: bool)
    ensures ok <==> GroupOk(inv, g)
    ensures ok <==>
      && (forall a, b :: a in Members(inv, g) && b in Members(inv, g) && a != b ==> Compatible(inv[a], inv[b]))
      && (SomeWeighted(inv, g) ==> |Members(inv, g)| <= MAX_WEIGHTED_MEMBERS)
  {
    ok := ScanGroup(inv, g);
    GroupOkMeans(inv, g);
  }

  method ScanGroup(inv: Inventory, g: Group) returns (ok: bool)
    ensures ok <==> GroupOk(inv, g)
  {
    var members := Members(inv, g);
    if members == {} {
      return true;
    }
    var first :| first in members;
    var family := FamilyOf(inv[first]);
    var ttl: Option<nat> := None;
    var selectors: set<Selector> := {};
    var rest := members;
    while rest != {}
      invariant rest <= members
      invariant Passed(inv, members - rest, family, ttl, selectors)
      decreases rest
    {
      var k :| k in rest;
      if Clashes(inv[k], family, ttl, selectors) {
        FailOne(inv, g, members - rest, first, k, ttl, selectors);
        return false;
      }
      PassOne(inv, members - rest, k, family, ttl, selectors);
      if inv[k].ttl.Seconds? {
        ttl := Some(inv[k].ttl.seconds);
      }
      if SelectorOf(inv[k]).Some? {
        selectors := selectors + {SelectorOf(inv[k]).value};
      }
      assert members - (rest - {k}) == (members - rest) + {k};
      rest := rest - {k};
    }
    assert members - rest == members;
    ok := !(family == WeightedFamily && |members| > MAX_WEIGHTED_MEMBERS);
    assert WithinWeightedLimit(inv, members) <==> ok;
  }

  ghost predicate AffectedOk(inv: Inventory, owners: set<string>, groups: set<Group>) {
    (forall o :: o in owners ==> OwnerOk(inv, o)) && (forall g :: g in groups ==> GroupOk(inv, g))
  }

  /** `validate_resultant_inventory`: exactly the affected owners and groups are in order. */
  method ValidateResultantInventory(inv: Inventory, owners: set<string>, groups: set<Group>) returns (ok: bool)
    ensures ok <==> AffectedOk(inv, owners, groups)
  {
    var o := owners;
    while o != {}
      invariant o <= owners
      invariant forall x :: x in owners - o ==> OwnerOk(inv, x)
      decreases o
    {
      var x :| x in o;
      var good := CheckOwner(inv, x);
      if !good {
        return false;
      }
      o := o - {x};
    }
    var rest := groups;
    while rest != {}
      invariant rest <= groups
      invariant forall x :: x in groups - rest ==> GroupOk(inv, x)
      decreases rest
    {
      var x :| x in rest;
      var good := CheckGroup(inv, x);
      if !good {
        return false;
      }
      rest := rest - {x};
    }
    return true;
  }

  // ---------------------------------------------------------------- affected only

  function Owners(touched: set<Key>): set<string> {
    set k | k in touched :: k.owner
  }

  function Groups(touched: set<Key>): set<Group> {
    set k | k in touched :: (k.owner, k.kind)
  }

  ghost predicate SameElsewhere(before: Inventory, after: Inventory, touched: set<Key>) {
    forall k :: k !in touched ==> (k in before <==> k in after) && (k in before ==> before[k] == after[k])
  }

  lemma UnaffectedOwner(before: Inventory, after: Inventory, touched: set<Key>, owner: string)
    requires SameElsewhere(before, after, touched) && OwnerOk(before, owner)
    requires owner !in Owners(touched)
    ensures OwnerOk(after, owner)
  {
    forall a, b | a in after && b in after && a.owner == b.owner == owner && a.kind == Cname ensures b.kind == Cname {
      assert a in before && b in before;
    }
  }

  lemma UnaffectedGroup(before: Inventory, after: Inventory, touched: set<Key>, g: Group)
    requires SameElsewhere(before, after, touched) && GroupOk(before, g)
    requires g !in Groups(touched)
    ensures GroupOk(after, g)
  {
    var m := Members(before, g);
    forall k ensures k in m <==> k in Members(after, g) {
    }
    assert m == Members(after, g);
    forall k | k in m ensures before[k] == after[k] {
    }
  }

  /** Checking only the affected owners and groups is the same as checking the whole zone, provided
      the zone was well formed before the batch. */
  lemma AffectedCheckIsFullCheck(before: Inventory, after: Inventory, touched: set<Key>)
    requires WellFormed(before) && SameElsewhere(before, after, touched)
    ensures AffectedOk(after, Owners(touched), Groups(touched)) <==> WellFormed(after)
  {
    if AffectedOk(after, Owners(touched), Groups(touched)) {
      forall o ensures OwnerOk(after, o) {
        if o !in Owners(touched) {
          UnaffectedOwner(before, after, touched, o);
        }
      }
      forall g ensures GroupOk(after, g) {
        if g !in Groups(touched) {
          UnaffectedGroup(before, after, touched, g);
        }
      }
    }
  }
}
