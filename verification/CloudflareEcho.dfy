/** Rendering a record set into Cloudflare objects and reading those objects back: when a batch that the
    provider carried out to the letter is recognised as such
    (crates/center-adapter-cloudflare/src/lib.rs, `render_record_set`, `aggregate_records`,
    `validate_batch_result`). */
module CloudflareEcho {
  import opened Basics
  import opened Dns
  import opened CloudflareRecords
  import opened CloudflareBatch
  import O = Ordering

  /** The object that the provider makes of a post: the posted fields under an id of its choosing. It
      may report an absent proxy state as false and decides what is proxiable. */
  ghost predicate Echoes(post: Post, r: Record, proxiable: bool) {
    && r.name == post.name && r.ttl == post.ttl && r.value == post.value
    && (if post.proxied.Some? then r.proxied == post.proxied else r.proxied != Some(true))
    && r.proxiable == proxiable && (r.proxied == Some(true) ==> proxiable)
    && r.flatten == post.flatten && r.comment == post.comment && r.tags == post.tags
    && !r.ipv4Only && !r.ipv6Only && !r.privateRouting
  }

  /** Valid record sets that survive the way through the provider's form: a TTL of one second means
      automatic there, and an explicit but empty extension leaves no trace. */
  predicate Canonical(r: RecordSet) {
    && r.ttl != Seconds(1)
    && !(r.ttl.Seconds? && r.extension == Some(Cloudflare(None, ProviderDefault, None, {})))
  }

  function ReadTtl(r: RecordSet): Ttl {
    if r.ttl == Seconds(1) then Automatic else r.ttl
  }

  function ReadExtension(r: RecordSet): Option<Extension> {
    if r.extension.None? then (if r.ttl == Seconds(1) then Some(Cloudflare(None, ProviderDefault, None, {})) else None)
    else if r.ttl.Seconds? && r.extension == Some(Cloudflare(None, ProviderDefault, None, {})) then None
    else r.extension
  }

  function EchoSignature(r: RecordSet, proxiable: bool): Signature
    requires !r.ttl.Inherited?
  {
    var post := PostOf(r, Value(r.key.kind, ""));
    Signature(post.ttl, post.proxied, if ProxyType(r.key.kind) then Some(proxiable)
        else None, post.flatten, post.comment, post.tags)
  }

  lemma EchoedMember(z: Zone, r: RecordSet, m: Record, proxiable: bool)
    requires Validate(z, r) && Echoes(PostOf(r, m.value), m, proxiable)
    ensures SignatureOf(m, r.key.kind) == EchoSignature(r, proxiable)
    ensures ExtensionOf(m, r.key.kind) == Ok(ReadExtension(r))
    ensures (if m.ttl == 1 then Automatic else Seconds(m.ttl)) == ReadTtl(r)
  {
  }

  lemma {:induction false} DistinctValues(members: seq<Record>)
    requires forall i, j :: 0 <= i < j < |members| ==> members[i].value != members[j].value
    ensures |ValuesOf(members)| == |members|
  {
    if |members| > 0 {
      var n := |members| - 1;
      DistinctValues(members[..n]);
      assert ValuesOf(members) == ValuesOf(members[..n]) + {members[n].value};
      assert members[n].value !in ValuesOf(members[..n]);
    }
  }

  /** The objects of one record set, as echoed: each value once. */
  ghost predicate EchoesAll(r: RecordSet, members: seq<Record>, proxiable: bool)
    requires !r.ttl.Inherited?
  {
    && (forall m :: m in members ==> Echoes(PostOf(r, m.value), m, proxiable))
    && ValuesOf(members) == r.values
    && (forall i, j :: 0 <= i < j < |members| ==> members[i].value != members[j].value)
  }

  /** What aggregation makes of an echoed record set. */
  lemma EchoedRrset(z: Zone, r: RecordSet, members: seq<Record>, proxiable: bool)
    requires Validate(z, r) && EchoesAll(r, members, proxiable)
    ensures var read := RecordSet(r.key, ReadTtl(r), r.values, ReadExtension(r));
      Rrset(z, r.key, members) ==
        if Validate(z, read) then Ok(Observed(z.id, read, IdsOf(members), OfMembers(members))) else Err(InvalidRrset)
  {
    assert |members| > 0 by {
      var v :| v in r.values;
      assert v in ValuesOf(members);
    }
    DistinctValues(members);
    forall m | m in members
      ensures SignatureOf(m, r.key.kind) == EchoSignature(r, proxiable)
      ensures ExtensionOf(m, r.key.kind) == Ok(ReadExtension(r))
    {
      EchoedMember(z, r, m, proxiable);
    }
    EchoedMember(z, r, members[0], proxiable);
    assert forall i :: 0 <= i < |members| ==>
      SignatureOf(members[i], r.key.kind) == SignatureOf(members[0], r.key.kind);
  }

  /** A record set reads back as itself exactly when it is canonical. */
  lemma EchoReadsBack(z: Zone, r: RecordSet, members: seq<Record>, proxiable: bool)
    requires Validate(z, r) && EchoesAll(r, members, proxiable)
    ensures (Rrset(z, r.key, members).Ok? && Rrset(z, r.key, members).value.recordSet == r) <==> Canonical(r)
  {
    EchoedRrset(z, r, members, proxiable);
    assert (ReadTtl(r) == r.ttl && ReadExtension(r) == r.extension) <==> Canonical(r);
  }

  /** Both exceptions are valid record sets, in any zone that takes the value. */
  lemma ValidButNotCanonical(z: Zone, owner: string, v: Value)
    requires z.within(owner) && v.kind == Txt && z.valueOk(v) && z.metadataOk(None, {})
    ensures var second := RecordSet(Key(owner, Txt, Simple), Seconds(1), {v}, None);
      Validate(z, second) && !Canonical(second)
    ensures var extension := Cloudflare(None, ProviderDefault, None, {});
      var blank := RecordSet(Key(owner, Txt, Simple), Seconds(300), {v}, Some(extension));
      Validate(z, blank) && !Canonical(blank)
  {
  }

  // ---------------------------------------------------------------- whole batches

  /** The provider answered with an echo of every post of the expected record sets, and nothing else. */
  ghost predicate EchoesBatch(z: Zone, expected: map<Key, RecordSet>, posted: seq<Record>, proxiable: Key -> bool) {
    && O.DistinctKeys(posted, IdOf)
    && (forall r :: r in posted ==>
          && ValidId(r.id)
          && KeyOf(z, r).Some? && KeyOf(z, r).value in expected
          && var k := KeyOf(z, r).value;
             && r.value in expected[k].values && !expected[k].ttl.Inherited?
             && Echoes(PostOf(expected[k], r.value), r, proxiable(k)))
    && (forall k, v :: k in expected && v in expected[k].values ==>
      exists r :: r in posted && KeyOf(z, r) == Some(k) && r.value == v)
    && (forall a, b :: a in posted && b in posted && KeyOf(z, a) == KeyOf(z, b) && a.value == b.value ==> a == b)
  }

  ghost predicate Desirable(z: Zone, expected: map<Key, RecordSet>) {
    forall k :: k in expected ==> expected[k].key == k && Validate(z, expected[k])
  }

  lemma EchoedGroup(z: Zone, expected: map<Key, RecordSet>, posted: seq<Record>, proxiable: Key -> bool, k: Key,
                    members: seq<Record>)
    requires Desirable(z, expected) && EchoesBatch(z, expected, posted, proxiable) && k in expected
    requires IsGroup(RulesOf(z), posted, k, members)
    ensures EchoesAll(expected[k], members, proxiable(k))
  {
    forall r ensures r in members <==> r in posted && KeyOf(z, r) == Some(k) {
    }
    forall v ensures v in ValuesOf(members) <==> v in expected[k].values {
      if v in expected[k].values {
        var r :| r in posted && KeyOf(z, r) == Some(k) && r.value == v;
        assert r in members;
      }
    }
    forall i, j | 0 <= i < j < |members| ensures members[i].value != members[j].value {
      assert members[i] in posted && members[j] in posted;
      O.InOrder(members, IdOf, i, j);
      O.Irreflexive(IdOf(members[i]));
    }
  }

  lemma EchoedKeys(z: Zone, expected: map<Key, RecordSet>, posted: seq<Record>, proxiable: Key -> bool)
    requires Desirable(z, expected) && EchoesBatch(z, expected, posted, proxiable)
    ensures Sound(RulesOf(z), posted)
    ensures forall k :: k in expected <==> HasKey(RulesOf(z), posted, k)
  {
    forall r | r in posted ensures RecordOk(RulesOf(z), r) {
      assert Validate(z, expected[KeyOf(z, r).value]);
    }
    forall k ensures k in expected <==> HasKey(RulesOf(z), posted, k) {
      if k in expected {
        var v :| v in expected[k].values;
        var r :| r in posted && KeyOf(z, r) == Some(k) && r.value == v;
        assert RulesOf(z).key(r) == Some(k);
      }
    }
  }

  /** A batch carried out to the letter is accepted exactly when every expected record set is
      canonical. */
  lemma FaithfulAnswerAccepted(z: Zone, changes: seq<Change>, posted: seq<Record>, proxiable: Key -> bool)
    requires Desirable(z, Expected(changes)) && EchoesBatch(z, Expected(changes), posted, proxiable)
    ensures (exists actual :: AnswersWith(z, changes, posted, actual)) <==>
      forall k :: k in Expected(changes) ==> Canonical(Expected(changes)[k])
  {
    var expected := Expected(changes);
    if exists actual :: AnswersWith(z, changes, posted, actual) {
      var actual :| AnswersWith(z, changes, posted, actual);
      forall k | k in expected ensures Canonical(expected[k]) {
        AnsweredIsCanonical(z, changes, posted, proxiable, actual, k);
      }
    }
    if forall k :: k in expected ==> Canonical(expected[k]) {
      CanonicalIsAnswered(z, changes, posted, proxiable);
    }
  }

  lemma AnsweredIsCanonical(z: Zone, changes: seq<Change>, posted: seq<Record>, proxiable: Key -> bool,
                            actual: map<Key, Observed>, k: Key)
    requires Desirable(z, Expected(changes)) && EchoesBatch(z, Expected(changes), posted, proxiable)
    requires AnswersWith(z, changes, posted, actual) && k in Expected(changes)
    ensures Canonical(Expected(changes)[k])
  {
    var expected := Expected(changes);
    assert k in RecordSets(actual) && RecordSets(actual)[k] == expected[k];
    assert IsRrset(RulesOf(z), posted, k, actual[k]);
    var members := actual[k].revision.members;
    EchoedGroup(z, expected, posted, proxiable, k, members);
    EchoReadsBack(z, expected[k], members, proxiable(k));
  }

  ghost predicate ReadsAs(p: Rules, posted: seq<Record>, k: Key, r: RecordSet, o: Observed) {
    IsRrset(p, posted, k, o) && o.recordSet == r
  }

  ghost function Reading(p: Rules, posted: seq<Record>, k: Key, r: RecordSet): (o: Observed)
    requires exists o :: ReadsAs(p, posted, k, r, o)
    ensures ReadsAs(p, posted, k, r, o)
  {
    var o :| ReadsAs(p, posted, k, r, o);
    o
  }

  lemma Assembled(p: Rules, posted: seq<Record>, expected: map<Key, RecordSet>) returns (actual: map<Key, Observed>)
    requires Sound(p, posted) && forall k :: k in expected <==> HasKey(p, posted, k)
    requires forall k :: k in expected ==> exists o :: ReadsAs(p, posted, k, expected[k], o)
    ensures Aggregates(p, posted, actual) && RecordSets(actual) == expected
  {
    actual := map k | k in expected :: Reading(p, posted, k, expected[k]);
  }

  lemma CanonicalIsAnswered(z: Zone, changes: seq<Change>, posted: seq<Record>, proxiable: Key -> bool)
    requires Desirable(z, Expected(changes)) && EchoesBatch(z, Expected(changes), posted, proxiable)
    requires forall k :: k in Expected(changes) ==> Canonical(Expected(changes)[k])
    ensures exists actual :: AnswersWith(z, changes, posted, actual)
  {
    var expected, p := Expected(changes), RulesOf(z);
    EchoedKeys(z, expected, posted, proxiable);
    forall k | k in expected ensures exists o :: ReadsAs(p, posted, k, expected[k], o) {
      CanonicalGroup(z, expected, posted, proxiable, k);
    }
    var actual := Assembled(p, posted, expected);
    assert AnswersWith(z, changes, posted, actual);
  }

  lemma CanonicalGroup(z: Zone, expected: map<Key, RecordSet>, posted: seq<Record>, proxiable: Key -> bool, k: Key)
    requires Desirable(z, expected) && EchoesBatch(z, expected, posted, proxiable)
    requires k in expected && Canonical(expected[k])
    ensures exists o :: ReadsAs(RulesOf(z), posted, k, expected[k], o)
  {
    var members := GroupUnder(RulesOf(z), posted, k);
    GroupUnderIsGroup(RulesOf(z), posted, k);
    EchoedGroup(z, expected, posted, proxiable, k, members);
    EchoReadsBack(z, expected[k], members, proxiable(k));
    RulesConserve(z);
    assert RulesOf(z).build(k, members) == Rrset(z, k, members);
    assert ReadsAs(RulesOf(z), posted, k, expected[k], Rrset(z, k, members).value);
  }

  // ---------------------------------------------------------------- the planned posts

  ghost predicate IsPostOf(expected: map<Key, RecordSet>, k: Key, p: Post) {
    k in expected && !expected[k].ttl.Inherited? && p.value in expected[k].values && p == PostOf(expected[k], p.value)
  }

  ghost predicate Rendered(utf8: Value -> bool, expected: map<Key, RecordSet>) {
    forall k :: k in expected ==> Render(utf8, expected[k]).Some?
  }

  lemma RenderedPost(utf8: Value -> bool, r: RecordSet, p: Post)
    requires Render(utf8, r).Some?
    ensures p in Render(utf8, r).value <==> p.value in r.values && p == PostOf(r, p.value)
  {
  }

  lemma OneKeyPerPost(z: Zone, expected: map<Key, RecordSet>, j: Key, k: Key, p: Post)
    requires Desirable(z, expected) && IsPostOf(expected, j, p) && IsPostOf(expected, k, p)
    ensures j == k
  {
    assert Validate(z, expected[j]) && Validate(z, expected[k]);
  }

  ghost function PostCount(expected: map<Key, RecordSet>, p: Post): nat {
    if exists k :: IsPostOf(expected, k, p) then 1 else 0
  }

  lemma PostCountGrows(z: Zone, some: map<Key, RecordSet>, key: Key, r: RecordSet, p: Post)
    requires Desirable(z, some[key := r]) && key !in some
    ensures PostCount(some[key := r], p) == PostCount(some, p) + if IsPostOf(some[key := r], key, p) then 1 else 0
  {
    var all := some[key := r];
    assert forall k :: k != key ==> (IsPostOf(all, k, p) <==> IsPostOf(some, k, p));
    if k :| IsPostOf(some, k, p) {
      assert IsPostOf(all, k, p);
      if IsPostOf(all, key, p) {
        OneKeyPerPost(z, all, k, key, p);
      }
    }
  }

  /** The planned posts are the posts of the expected record sets, each of them once. */
  lemma {:induction false} PostsAreExpected(z: Zone, utf8: Value -> bool, changes: seq<Change>, p: Post)
    requires ValidChanges(changes) && Desirable(z, Expected(changes)) && Rendered(utf8, Expected(changes))
    ensures Posts(utf8, changes)[p] == PostCount(Expected(changes), p)
  {
    if |changes| > 0 {
      var n := |changes| - 1;
      var front, c := changes[..n], changes[n];
      ExpectedGrows(changes);
      SmallerIsDesirable(z, utf8, Expected(front), Expected(changes));
      PostsAreExpected(z, utf8, front, p);
      PostsOneMore(z, utf8, c, Expected(front), Expected(changes), p);
    }
  }

  lemma SmallerIsDesirable(z: Zone, utf8: Value -> bool, some: map<Key, RecordSet>, all: map<Key, RecordSet>)
    requires Desirable(z, all) && Rendered(utf8, all)
    requires forall k :: k in some ==> k in all && all[k] == some[k]
    ensures Desirable(z, some) && Rendered(utf8, some)
  {
  }

  lemma PostsOneMore(z: Zone, utf8: Value -> bool, c: Change, some: map<Key, RecordSet>, all: map<Key, RecordSet>,
                     p: Post)
    requires Desirable(z, all) && Rendered(utf8, all) && ChangeKey(c) !in some
    requires all == if c.Delete? then some else some[ChangeKey(c) := if c.Create? then c.recordSet else c.desired]
    ensures PostCount(all, p) == PostCount(some, p) + PostsOf(utf8, c)[p]
  {
    if !c.Delete? {
      PostCountGrows(z, some, ChangeKey(c), if c.Create? then c.recordSet else c.desired, p);
      assert Render(utf8, all[ChangeKey(c)]).Some?;
      ChangePosts(utf8, c, all, p);
    }
  }

  lemma ChangePosts(utf8: Value -> bool, c: Change, expected: map<Key, RecordSet>, p: Post)
    requires !c.Delete? && ChangeKey(c) in expected
    requires expected[ChangeKey(c)] == (if c.Create? then c.recordSet else c.desired)
    requires Render(utf8, expected[ChangeKey(c)]).Some?
    ensures PostsOf(utf8, c)[p] == if IsPostOf(expected, ChangeKey(c), p) then 1 else 0
  {
    RenderedPost(utf8, expected[ChangeKey(c)], p);
  }

  lemma ExpectedGrows(changes: seq<Change>)
    requires ValidChanges(changes) && |changes| > 0
    ensures var n := |changes| - 1; var c := changes[n];
      && ValidChanges(changes[..n])
      && ChangeKey(c) !in Expected(changes[..n])
      && (forall k :: k in Expected(changes[..n]) ==>
        k in Expected(changes) && Expected(changes)[k] == Expected(changes[..n])[k])
  {
    var n := |changes| - 1;
    var front := changes[..n];
    assert forall i :: 0 <= i < n ==> front[i] == changes[i];
    AppliedIsOverlay(front, map[]);
    assert ChangeKey(changes[n]) !in Touched(front);
  }

  lemma {:induction false} DistinctMultiset(ps: seq<Post>, p: Post)
    requires forall i, j :: 0 <= i < j < |ps| ==> ps[i] != ps[j]
    ensures multiset(ps)[p] == if p in ps then 1 else 0
  {
    if |ps| > 0 {
      var n := |ps| - 1;
      DistinctMultiset(ps[..n], p);
      assert ps == ps[..n] + [ps[n]];
    }
  }

  ghost function PostFor(z: Zone, expected: map<Key, RecordSet>, r: Record): Post {
    var k := KeyOf(z, r);
    if k.Some? && k.value in expected && !expected[k.value].ttl.Inherited? then PostOf(expected[k.value], r.value)
    else PostOf(RecordSet(Key("", A, Simple), Automatic, {}, None), r.value)
  }

  lemma EchoedPosts(z: Zone, expected: map<Key, RecordSet>, posted: seq<Record>, proxiable: Key -> bool, p: Post)
    requires Desirable(z, expected) && EchoesBatch(z, expected, posted, proxiable)
    ensures PostCount(expected, p) == 1 <==> exists r :: r in posted && PostFor(z, expected, r) == p
  {
    if k :| IsPostOf(expected, k, p) {
      var r :| r in posted && KeyOf(z, r) == Some(k) && r.value == p.value;
      assert PostFor(z, expected, r) == p;
    }
    if r :| r in posted && PostFor(z, expected, r) == p {
      assert IsPostOf(expected, KeyOf(z, r).value, p);
    }
  }

  lemma PostForInjective(z: Zone, expected: map<Key, RecordSet>, posted: seq<Record>, proxiable: Key -> bool,
                         a: Record, b: Record)
    requires Desirable(z, expected) && EchoesBatch(z, expected, posted, proxiable)
    requires a in posted && b in posted && PostFor(z, expected, a) == PostFor(z, expected, b)
    ensures a == b
  {
    var j, k, p := KeyOf(z, a).value, KeyOf(z, b).value, PostFor(z, expected, a);
    assert IsPostOf(expected, j, p) && IsPostOf(expected, k, p);
    OneKeyPerPost(z, expected, j, k, p);
  }

  /** The posts behind an answer, each of them once. */
  lemma PostsBehind(z: Zone, expected: map<Key, RecordSet>, posted: seq<Record>, proxiable: Key -> bool)
    returns (ps: seq<Post>)
    requires Desirable(z, expected) && EchoesBatch(z, expected, posted, proxiable)
    ensures |ps| == |posted|
    ensures forall i :: 0 <= i < |ps| ==> ps[i] == PostFor(z, expected, posted[i])
    ensures forall i, j :: 0 <= i < j < |ps| ==> ps[i] != ps[j]
  {
    ps := seq(|posted|, i requires 0 <= i < |posted| => PostFor(z, expected, posted[i]));
    forall i, j | 0 <= i < j < |ps| ensures ps[i] != ps[j] {
      assert IdOf(posted[i]) != IdOf(posted[j]);
      if ps[i] == ps[j] {
        PostForInjective(z, expected, posted, proxiable, posted[i], posted[j]);
      }
    }
  }

  lemma PostListed(z: Zone, expected: map<Key, RecordSet>, posted: seq<Record>, ps: seq<Post>, p: Post)
    requires |ps| == |posted| && forall i :: 0 <= i < |ps| ==> ps[i] == PostFor(z, expected, posted[i])
    ensures p in ps <==> exists r :: r in posted && PostFor(z, expected, r) == p
  {
    if r :| r in posted && PostFor(z, expected, r) == p {
      var i :| 0 <= i < |posted| && posted[i] == r;
      assert ps[i] == p;
    }
  }

  /** An answer carried out to the letter has as many posts as the batch asked for. */
  lemma EchoHasEveryPost(z: Zone, utf8: Value -> bool, changes: seq<Change>, posted: seq<Record>,
                         proxiable: Key -> bool)
    requires ValidChanges(changes) && Desirable(z, Expected(changes)) && Rendered(utf8, Expected(changes))
    requires EchoesBatch(z, Expected(changes), posted, proxiable)
    ensures |posted| == |Posts(utf8, changes)|
  {
    var ps := PostsBehind(z, Expected(changes), posted, proxiable);
    forall p ensures multiset(ps)[p] == Posts(utf8, changes)[p] {
      DistinctMultiset(ps, p);
      PostsAreExpected(z, utf8, changes, p);
      EchoedPosts(z, Expected(changes), posted, proxiable, p);
      PostListed(z, Expected(changes), posted, ps, p);
    }
    assert multiset(ps) == Posts(utf8, changes);
  }

  // ---------------------------------------------------------------- the whole call

  /** An expected record set is the one some change asks for. */
  lemma {:induction false} ExpectedHasChange(changes: seq<Change>, k: Key) returns (i: nat)
    requires k in Expected(changes)
    ensures i < |changes| && !changes[i].Delete? && ChangeKey(changes[i]) == k
    ensures Expected(changes)[k] == if changes[i].Create? then changes[i].recordSet else changes[i].desired
  {
    var n := |changes| - 1;
    if !changes[n].Delete? && ChangeKey(changes[n]) == k {
      i := n;
    } else {
      i := ExpectedHasChange(changes[..n], k);
    }
  }

  /** What may be sent asks for valid record sets that can be rendered. */
  lemma SendableIsDesirable(z: Zone, utf8: Value -> bool, current: map<Key, Observed>, changes: seq<Change>)
    requires Admitted(z, changes) && Plannable(utf8, current, changes)
    ensures Desirable(z, Expected(changes)) && Rendered(utf8, Expected(changes))
  {
    forall k | k in Expected(changes)
      ensures Expected(changes)[k].key == k && Validate(z, Expected(changes)[k])
      ensures Render(utf8, Expected(changes)[k]).Some?
    {
      var i := ExpectedHasChange(changes, k);
      assert AdmittedChange(z, changes[i]) && Turndown(utf8, current, changes[i]).None?;
    }
  }

  /** A batch that was sent and carried out to the letter, every delete confirmed and every post
      echoed, is reported as done if and only if every expected record set is canonical. */
  lemma FaithfulBatchIsDone(z: Zone, utf8: Value -> bool, guard: GuardStrength, changes: seq<Change>,
                            records: seq<Record>,
                            deleted: seq<string>, posted: seq<Record>, current: map<Key, Observed>,
                            proxiable: Key -> bool)
    requires Sendable(z, utf8, guard, changes, records, current) && DeletesConfirmed(changes, deleted)
    requires EchoesBatch(z, Expected(changes), posted, proxiable)
    ensures (exists c, actual :: Succeeds(z, utf8, guard, changes, records, deleted, posted, c, actual)) <==>
      forall k :: k in Expected(changes) ==> Canonical(Expected(changes)[k])
  {
    SendableIsDesirable(z, utf8, current, changes);
    FaithfulAnswerAccepted(z, changes, posted, proxiable);
    EchoHasEveryPost(z, utf8, changes, posted, proxiable);
    if actual :| AnswersWith(z, changes, posted, actual) {
      assert Succeeds(z, utf8, guard, changes, records, deleted, posted, current, actual);
    }
  }
}
