/** The provider account store: optimistic replacement by generation, and keyset pages
    (crates/center-adapter-kubernetes/src/provider_account_store.rs). */
module ProviderAccounts {
  import opened Basics
  import opened ApiServer
  import opened Ordering

  const MAX_CONFLICT_RETRIES := 8

  datatype Spec = Spec(id: string, generation: nat, desired: string)

  /** `metadata` is the generation that the API server itself counts. */
  datatype Resource = Resource(spec: Spec, metadata: nat)

  datatype Account = Account(id: string, generation: nat, desired: string)

  datatype Refusal = OutOfRange | NameCollision | GenerationDiverged | Contended

  datatype Replaced = Stored(account: Account) | Mismatch(actual: nat) | NotFound

  /** The API server counts a generation for every change of the spec. */
  function Served(was: Option<Resource>, spec: Spec): Resource {
    Resource(spec, if was.None? then 1 else if was.value.spec == spec then was.value.metadata
        else was.value.metadata + 1)
  }

  /** The generation in the spec is the one that the API server counts. */
  predicate Consistent(res: Resource) {
    res.spec.generation == res.metadata
  }

  /** `core`: a resource whose two generations disagree is refused. */
  function Core(res: Resource): Result<Account, Refusal> {
    if res.metadata != res.spec.generation then Err(GenerationDiverged)
    else Ok(Account(res.spec.id, res.spec.generation, res.spec.desired))
  }

  /** What a call stored: nothing, the first version, or one over a version of generation `expected`. */
  datatype Made = Unmade | FirstVersion | OverGeneration(expected: nat)

  /** Of all versions since `from`, `me` stored just what `made` says, and as the last one. */
  ghost predicate Did(log: seq<Entry<Resource>>, from: nat, me: nat, made: Made) {
    && from <= |log|
    && (forall i :: from <= i < |log| && log[i].writer == me ==> !made.Unmade? && i == |log| - 1)
    && (!made.Unmade? ==> |log| > from && log[|log| - 1].writer == me && MadeBy(log, |log| - 1, made))
  }

  /** The version is what the API server makes of the spec submitted over the version before it. */
  predicate MadeBy(log: seq<Entry<Resource>>, i: nat, made: Made)
    requires i < |log| && !made.Unmade?
  {
    var now := log[i].value;
    match made
    case FirstVersion => i == 0 && now == Served(None, now.spec) && now.spec.generation == 1
    case OverGeneration(expected) =>
      && i > 0
      && var was := log[i - 1].value;
      && Consistent(was) && was.spec.generation == expected
      && now == Served(Some(was), now.spec) && now.spec.id == was.spec.id && now.spec.generation == expected + 1
  }

  class ProviderAccountStore {

    /** `create`: at most one version, the first, with generation 1. */
    static method Create(api: Object<Resource>, env: Schedule<Resource>, me: nat, id: string, desired: string)
      returns (r: Result<bool, Refusal>)
      requires Excludes(env, me)
      modifies api
      ensures old(api.log) <= api.log
      ensures Did(api.log, |old(api.log)|, me, if r == Ok(true) then FirstVersion else Unmade)
      ensures r == Ok(true) ==> Core(api.log[0].value) == Ok(Account(id, 1, desired))
      ensures r == Ok(true) <==> |old(api.log) + env(0)| == 0
      ensures r == Ok(false) ==>
        |api.log| > 0 && api.log[|api.log| - 1].value.spec.id == id && Consistent(api.log[|api.log| - 1].value)
      ensures r == Err(NameCollision) ==> |api.log| > 0 && api.log[|api.log| - 1].value.spec.id != id
      ensures r == Err(GenerationDiverged) ==> |api.log| > 0 && !Consistent(api.log[|api.log| - 1].value)
    {
      var spec := Spec(id, 1, desired);
      var stored := api.Put(env(0), me, 0, Served(None, spec));
      if stored {
        return Ok(true);
      }
      var _, existing := api.Get(env(1));
      if existing.Some? && existing.value.spec.id != id {
        return Err(NameCollision);
      }
      if existing.Some? && Core(existing.value).Err? {
        return Err(GenerationDiverged);
      }
      r := Ok(false);
    }

    /** `replace_if_generation`: at most one version, the last, and only over a version that carried
        exactly the expected generation. */
    static method ReplaceIfGeneration(api: Object<Resource>, env: Schedule<Resource>, me: nat,
                                      id: string, expected: nat, desired: string)
      returns (r: Result<Replaced, Refusal>)
      requires Excludes(env, me)
      modifies api
      ensures old(api.log) <= api.log
      ensures Did(api.log, |old(api.log)|, me, if r.Ok? && r.value.Stored? then OverGeneration(expected) else Unmade)
      ensures r == Err(OutOfRange) <==> expected == 0 || expected >= I64_MAX
      ensures r.Ok? && r.value.Stored? ==>
        && r.value.account == Account(id, expected + 1, desired)
        && Core(api.log[|api.log| - 1].value) == Ok(r.value.account)
      ensures r.Ok? && r.value.Mismatch? ==>
        && |api.log| > 0 && Consistent(api.log[|api.log| - 1].value)
        && api.log[|api.log| - 1].value.spec.generation == r.value.actual != expected
      ensures r.Ok? && r.value.NotFound? ==> |api.log| == 0
      ensures r == Err(NameCollision) ==> |api.log| > 0 && api.log[|api.log| - 1].value.spec.id != id
      ensures r == Err(GenerationDiverged) ==> |api.log| > 0 && !Consistent(api.log[|api.log| - 1].value)
      ensures r == Err(Contended) ==> forall a: nat :: a < MAX_CONFLICT_RETRIES ==> Disturbed(env, a, 2)
    {
      if expected == 0 || expected >= I64_MAX {
        return Err(OutOfRange);
      }
      ghost var start := api.log;
      var attempt := 0;
      while attempt < MAX_CONFLICT_RETRIES
        invariant 0 <= attempt <= MAX_CONFLICT_RETRIES
        invariant start <= api.log
        invariant forall i :: |start| <= i < |api.log| ==> api.log[i].writer != me
        invariant forall a: nat :: a < attempt ==> Disturbed(env, a, 2)
      {
        var version, current := api.Get(env(2 * attempt));
        if current.None? {
          return Ok(NotFound);
        }
        if current.value.spec.id != id {
          return Err(NameCollision);
        }
        var account := Core(current.value);
        if account.Err? {
          return Err(account.error);
        }
        if account.value.generation != expected {
          return Ok(Mismatch(account.value.generation));
        }
        var resource := Served(current, Spec(id, expected + 1, desired));
        var stored := api.Put(env(2 * attempt + 1), me, version, resource);
        if stored {
          return Ok(Stored(Account(id, expected + 1, desired)));
        }
        attempt := attempt + 1;
      }
      r := Err(Contended);
    }

    /** `retain`: keep what lies beyond the cursor. */
    static method Retain(items: seq<Account>, after: Option<string>) returns (kept: seq<Account>)
      ensures kept == Beyond(items, after)
    {
      if after.None? {
        return items;
      }
      kept := [];
      var i := 0;
      ghost var keep := (a: Account) => Less(after.value, a.id);
      while i < |items|
        invariant 0 <= i <= |items|
        invariant kept == Kept(items[..i], keep)
      {
        assert items[..i + 1][..i] == items[..i];
        if Less(after.value, items[i].id) {
          kept := kept + [items[i]];
        }
        i := i + 1;
      }
      assert items[..i] == items;
    }

    /** `list`: sort, drop what the cursor already covered, keep one page. */
    static method List(accounts: seq<Account>, after: Option<string>, limit: nat) returns (page: Page)
      requires limit > 0
      ensures page == PageOf(Sort(accounts, IdOf), after, limit)
    {
      var items := Sort(accounts, IdOf);
      items := Retain(items, after);
      page := Truncate(items, limit);
    }

    static method Truncate(retained: seq<Account>, limit: nat) returns (page: Page)
      requires limit > 0
      ensures page == FirstPage(retained, limit)
    {
      var items := retained;
      var hasMore := |items| > limit;
      if hasMore {
        items := items[..limit];
      }
      page := Page(items, if hasMore then Some(items[|items| - 1].id) else None);
    }
  }

  // ---------------------------------------------------------------- all calls together

  /** One call: the versions it found when it began and when it returned, and what it stored. */
  datatype Call = Call(from: nat, to: nat, made: Made)

  /** Every version was stored by some call, or by somebody who left spec and generation alone (labels,
      annotations). Calls may overlap in any way; a writer is one call. */
  ghost predicate IsHistory(log: seq<Entry<Resource>>, calls: map<nat, Call>) {
    && (forall me :: me in calls ==>
          calls[me].from <= calls[me].to <= |log| && Did(log[..calls[me].to], calls[me].from, me, calls[me].made))
    && (forall i :: 0 <= i < |log| ==> Accounted(log, calls, i))
  }

  predicate Accounted(log: seq<Entry<Resource>>, calls: map<nat, Call>, i: int)
    requires 0 <= i < |log|
  {
    if log[i].writer in calls then calls[log[i].writer].from <= i < calls[log[i].writer].to
    else i > 0 && log[i].value == log[i - 1].value
  }

  /** A version stored by a call is the one thing that call made. */
  lemma VersionHasCall(log: seq<Entry<Resource>>, calls: map<nat, Call>, i: nat)
    requires IsHistory(log, calls) && i < |log| && log[i].writer in calls
    ensures var c := calls[log[i].writer]; !c.made.Unmade? && c.to == i + 1 && MadeBy(log, i, c.made)
  {
    var c := calls[log[i].writer];
    assert Accounted(log, calls, i);
    var known := log[..c.to];
    assert known[i] == log[i] && (i > 0 ==> known[i - 1] == log[i - 1]);
  }

  /** What a call made is the version just before it returned. */
  lemma CallHasVersion(log: seq<Entry<Resource>>, calls: map<nat, Call>, me: nat)
    requires IsHistory(log, calls) && me in calls && !calls[me].made.Unmade?
    ensures 0 < calls[me].to <= |log| && log[calls[me].to - 1].writer == me
    ensures MadeBy(log, calls[me].to - 1, calls[me].made)
  {
    var known := log[..calls[me].to];
    assert known[|known| - 1] == log[calls[me].to - 1];
    VersionHasCall(log, calls, calls[me].to - 1);
  }

  /** How many of the versions 1 to n were stored by replace calls. */
  ghost function Replacements(log: seq<Entry<Resource>>, calls: map<nat, Call>, n: nat): nat
    requires n < |log|
  {
    if n == 0 then 0 else Replacements(log, calls, n - 1) + if log[n].writer in calls then 1 else 0
  }

  /** Over every history the stored and the metadata generation agree at every version, and count the
      successful replacements so far. */
  lemma {:induction false} GenerationsCountReplacements(log: seq<Entry<Resource>>, calls: map<nat, Call>, n: nat)
    requires IsHistory(log, calls) && n < |log|
    ensures log[n].value.metadata == log[n].value.spec.generation == 1 + Replacements(log, calls, n)
    ensures Core(log[n].value).Ok?
  {
    assert Accounted(log, calls, n);
    if log[n].writer in calls {
      VersionHasCall(log, calls, n);
    }
    if n > 0 {
      GenerationsCountReplacements(log, calls, n - 1);
    }
  }

  lemma {:induction false} GenerationsGrow(log: seq<Entry<Resource>>, calls: map<nat, Call>, i: nat, j: nat)
    requires IsHistory(log, calls) && i <= j < |log|
    ensures log[i].value.spec.generation <= log[j].value.spec.generation
    decreases j
  {
    if i < j {
      GenerationsGrow(log, calls, i, j - 1);
      GenerationsCountReplacements(log, calls, j - 1);
      GenerationsCountReplacements(log, calls, j);
    }
  }

  /** Over every history each generation has at most one successful replacement: two calls that both
      replaced the same generation are one call. */
  lemma OneReplacementPerGeneration(log: seq<Entry<Resource>>, calls: map<nat, Call>, a: nat, b: nat)
    requires IsHistory(log, calls) && a in calls && b in calls
    requires calls[a].made.OverGeneration? && calls[a].made == calls[b].made
    ensures a == b
  {
    CallHasVersion(log, calls, a);
    CallHasVersion(log, calls, b);
    if calls[a].to < calls[b].to {
      GenerationsGrow(log, calls, calls[a].to - 1, calls[b].to - 2);
    } else if calls[b].to < calls[a].to {
      GenerationsGrow(log, calls, calls[b].to - 1, calls[a].to - 2);
    }
  }

  /** And every generation after the first came from exactly such a call. */
  lemma {:induction false} GenerationHasReplacement(log: seq<Entry<Resource>>, calls: map<nat, Call>, n: nat)
    returns (me: nat)
    requires IsHistory(log, calls) && n < |log| && log[n].value.spec.generation > 1
    ensures me in calls && calls[me].made == OverGeneration(log[n].value.spec.generation - 1) && calls[me].to <= n + 1
  {
    assert Accounted(log, calls, n);
    if log[n].writer in calls {
      VersionHasCall(log, calls, n);
      me := log[n].writer;
    } else {
      me := GenerationHasReplacement(log, calls, n - 1);
    }
  }

  // ---------------------------------------------------------------- pages

  datatype Page = Page(items: seq<Account>, next: Option<string>)

  function IdOf(a: Account): string {
    a.id
  }

  function Kept(items: seq<Account>, keep: Account -> bool): seq<Account> {
    if |items| == 0 then []
    else
      var last := items[|items| - 1];
      Kept(items[..|items| - 1], keep) + if keep(last) then [last] else []
  }

  /** The accounts after the cursor, in order. */
  function Beyond(items: seq<Account>, after: Option<string>): seq<Account> {
    if after.None? then items else Kept(items, (a: Account) => Less(after.value, a.id))
  }

  function PageOf(sorted: seq<Account>, after: Option<string>, limit: nat): (p: Page)
    requires limit > 0
    ensures |p.items| <= limit && (p.next.Some? ==> |p.items| == limit)
  {
    FirstPage(Beyond(sorted, after), limit)
  }

  function FirstPage(rest: seq<Account>, limit: nat): (p: Page)
    requires limit > 0
    ensures |p.items| <= limit && (p.next.Some? ==> |p.items| == limit)
  {
    if |rest| > limit then Page(rest[..limit], Some(rest[limit - 1].id)) else Page(rest, None)
  }

  /** The cursor left by the n-th account resumes exactly at the next one. */
  lemma CursorResumes(sorted: seq<Account>, n: nat)
    requires Increasing(sorted, IdOf) && n < |sorted|
    ensures Beyond(sorted, Some(sorted[n].id)) == sorted[n + 1..]
  {
    var keep := (a: Account) => Less(sorted[n].id, a.id);
    var before, after := sorted[..n + 1], sorted[n + 1..];
    forall m: nat | m < |sorted| ensures keep(sorted[m]) <==> n < m {
      OnlyLaterIdsAreGreater(sorted, n, m);
    }
    assert forall a :: a in before ==> !keep(a);
    assert forall a :: a in after ==> keep(a);
    KeptJoins(before, after, keep);
    assert before + after == sorted;
  }

  lemma {:induction false} KeptJoins(before: seq<Account>, after: seq<Account>, keep: Account -> bool)
    requires (forall a :: a in before ==> !keep(a)) && (forall a :: a in after ==> keep(a))
    ensures Kept(before + after, keep) == after
    decreases |before| + |after|
  {
    if |after| > 0 {
      var n := |after| - 1;
      assert (before + after)[..|before + after| - 1] == before + after[..n];
      KeptJoins(before, after[..n], keep);
    } else if |before| > 0 {
      assert before + after == before;
      KeptJoins(before[..|before| - 1], [], keep);
      assert before[..|before| - 1] + [] == before[..|before| - 1];
    }
  }

  lemma OnlyLaterIdsAreGreater(sorted: seq<Account>, n: nat, m: nat)
    requires Increasing(sorted, IdOf) && n < |sorted| && m < |sorted|
    ensures Less(sorted[n].id, sorted[m].id) <==> n < m
  {
    if n < m {
      InOrder(sorted, IdOf, n, m);
    } else if m < n {
      InOrder(sorted, IdOf, m, n);
      Asymmetric(IdOf(sorted[m]), IdOf(sorted[n]));
    } else {
      Irreflexive(sorted[n].id);
    }
  }

  /** The cursor with which a client that has received `from` accounts goes on. */
  function Cursor(sorted: seq<Account>, from: nat): Option<string>
    requires from <= |sorted|
  {
    if from == 0 then None else Some(sorted[from - 1].id)
  }

  /** A page served to that client is the next stretch, and its cursor is that of its end. */
  lemma PageAt(sorted: seq<Account>, from: nat, limit: nat)
    requires Increasing(sorted, IdOf) && from <= |sorted| && limit > 0
    ensures PageOf(sorted, Cursor(sorted, from), limit) == Stretch(sorted, from, limit)
  {
    if from > 0 {
      CursorResumes(sorted, from - 1);
    }
    assert Beyond(sorted, Cursor(sorted, from)) == sorted[from..];
    if from + limit < |sorted| {
      assert sorted[from..][..limit] == sorted[from..from + limit];
    }
  }

  /** All that a client receives that follows `next`, choosing any page size for each request. */
  function Crawl(serve: (Option<string>, nat) -> Page, cursor: Option<string>, limits: nat -> nat, request: nat,
                 requests: nat): seq<Account>
    decreases requests
  {
    var page := serve(cursor, limits(request));
    if page.next.None? || requests == 0 then page.items
    else page.items + Crawl(serve, page.next, limits, request + 1, requests - 1)
  }

  /** `list` over a fixed store; a limit of zero never reaches it. */
  function Serving(sorted: seq<Account>): (Option<string>, nat) -> Page {
    (after: Option<string>, limit: nat) => if limit == 0 then Page([], None) else PageOf(sorted, after, limit)
  }

  /** Every page is the next stretch of the sorted accounts. */
  ghost predicate ServesStretches(serve: (Option<string>, nat) -> Page, sorted: seq<Account>) {
    forall from: nat, limit: nat :: from <= |sorted| && limit > 0 ==>
      serve(Cursor(sorted, from), limit) == Stretch(sorted, from, limit)
  }

  function Stretch(sorted: seq<Account>, from: nat, limit: nat): Page
    requires from <= |sorted|
  {
    if from + limit < |sorted| then Page(sorted[from..from + limit], Cursor(sorted, from + limit))
    else Page(sorted[from..], None)
  }

  lemma ListServesStretches(sorted: seq<Account>)
    requires Increasing(sorted, IdOf)
    ensures ServesStretches(Serving(sorted), sorted)
  {
    forall from: nat, limit: nat | from <= |sorted| && limit > 0
      ensures Serving(sorted)(Cursor(sorted, from), limit) == Stretch(sorted, from, limit)
    {
      PageAt(sorted, from, limit);
    }
  }

  /** Keyset pages of any sizes return every account exactly once, in order. One request more than
      there are accounts is always enough. */
  lemma {:induction false} PagesCoverExactlyOnce(serve: (Option<string>, nat) -> Page, sorted: seq<Account>,
                                                 from: nat, limits: nat -> nat, request: nat, requests: nat)
    requires ServesStretches(serve, sorted) && from <= |sorted| && forall k: nat :: limits(k) > 0
    requires requests >= |sorted| - from
    ensures Crawl(serve, Cursor(sorted, from), limits, request, requests) == sorted[from..]
    decreases requests
  {
    var limit := limits(request);
    assert limit > 0;
    assert serve(Cursor(sorted, from), limit) == Stretch(sorted, from, limit);
    if from + limit < |sorted| {
      PagesCoverExactlyOnce(serve, sorted, from + limit, limits, request + 1, requests - 1);
      Stretches(sorted, from, limit);
    }
  }

  lemma Stretches(sorted: seq<Account>, from: nat, limit: nat)
    requires from + limit <= |sorted|
    ensures sorted[from..from + limit] + sorted[from + limit..] == sorted[from..]
  {
  }

  /** From the first request on, over the accounts as the API server lists them in any order. */
  lemma CrawlListsEveryAccountOnce(accounts: seq<Account>, limits: nat -> nat)
    requires DistinctKeys(accounts, IdOf) && forall k: nat :: limits(k) > 0
    ensures var listed := Crawl(Serving(Sort(accounts, IdOf)), None, limits, 0, |accounts|);
      && listed == Sort(accounts, IdOf)
      && multiset(listed) == multiset(accounts)
      && Increasing(listed, IdOf)
  {
    SortIncreasing(accounts, IdOf);
    var sorted := Sort(accounts, IdOf);
    assert |sorted| == |multiset(sorted)| == |multiset(accounts)| == |accounts|;
    ListServesStretches(sorted);
    PagesCoverExactlyOnce(Serving(sorted), sorted, 0, limits, 0, |accounts|);
    assert sorted[0..] == sorted;
  }
}
