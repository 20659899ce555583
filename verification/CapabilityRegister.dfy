/** What a capability snapshot store promises for one key: a register that hands out discovery
    fences, commits a snapshot only under the newest fence that was not revoked, and revokes one
    exact (account generation, credential revision) pair
    (the contract of `CapabilitySnapshotStore`, crates/center-core/src/cloud/capabilities.rs). */
module CapabilityRegister {
  import opened Basics

  datatype Fence = Fence(generation: nat, revision: Option<string>, epoch: nat, token: string)

  datatype Snapshot = Snapshot(fence: Fence, payload: string)

  datatype Register = Register(epoch: nat, active: Option<Fence>, committed: Option<Snapshot>)

  datatype Event =
    | Begun(fence: Fence)
    | Stored(snapshot: Snapshot)
    | Revoked(generation: nat, revision: Option<string>)
    | Idle

  const Empty := Register(0, None, None)

  predicate Pair(f: Fence, generation: nat, revision: Option<string>) {
    f.generation == generation && f.revision == revision
  }

  predicate ActivePair(r: Register, generation: nat, revision: Option<string>) {
    r.active.Some? && Pair(r.active.value, generation, revision)
  }

  predicate CommittedPair(r: Register, generation: nat, revision: Option<string>) {
    r.committed.Some? && Pair(r.committed.value.fence, generation, revision)
  }

  predicate Next(a: Register, e: Event, b: Register) {
    match e
    case Begun(f) => f.epoch == a.epoch + 1 && b == Register(f.epoch, Some(f), a.committed)
    case Stored(s) =>
      && a.active == Some(s.fence)
      && (a.committed.Some? && a.committed.value.fence == s.fence ==> a.committed.value == s)
      && b == a.(committed := Some(s))
    case Revoked(g, r) =>
      && b.active == (if ActivePair(a, g, r) then None else a.active)
      && b.committed == (if CommittedPair(a, g, r) then None else a.committed)
      && (if ActivePair(a, g, r) then b.epoch > a.epoch
          else if a.active.Some? then b.epoch == a.epoch
          else b.epoch >= a.epoch)
    case Idle => b == a
  }

  ghost predicate IsRun(rs: seq<Register>, es: seq<Event>) {
    |rs| == |es| + 1 && rs[0] == Empty && forall i: nat :: i < |es| ==> StepAt(rs, es, i)
  }

  predicate StepAt(rs: seq<Register>, es: seq<Event>, i: nat)
    requires |rs| == |es| + 1 && i < |es|
  {
    Next(rs[i], es[i], rs[i + 1])
  }

  /** The active fence carries the register's epoch, and committed snapshots are not newer. */
  predicate Inv(r: Register) {
    && (r.active.Some? ==> r.active.value.epoch == r.epoch)
    && (r.committed.Some? ==> r.committed.value.fence.epoch <= r.epoch)
  }

  lemma {:induction false} InvAt(rs: seq<Register>, es: seq<Event>, i: nat)
    requires IsRun(rs, es) && i < |rs|
    ensures Inv(rs[i])
  {
    if i > 0 {
      InvAt(rs, es, i - 1);
      assert StepAt(rs, es, i - 1);
    }
  }

  lemma {:induction false} EpochGrows(rs: seq<Register>, es: seq<Event>, i: nat, j: nat)
    requires IsRun(rs, es) && i <= j < |rs|
    ensures rs[i].epoch <= rs[j].epoch
    decreases j
  {
    if i < j {
      EpochGrows(rs, es, i, j - 1);
      assert StepAt(rs, es, j - 1);
    }
  }

  /** Issued epochs are distinct and increase. */
  lemma IssuedEpochsIncrease(rs: seq<Register>, es: seq<Event>, i: nat, j: nat)
    requires IsRun(rs, es) && i < j < |es| && es[i].Begun? && es[j].Begun?
    ensures es[i].fence.epoch < es[j].fence.epoch
  {
    assert StepAt(rs, es, i) && StepAt(rs, es, j);
    EpochGrows(rs, es, i + 1, j);
  }

  /** Where an active fence comes from: it was the last one begun, and nothing revoked it since. */
  lemma {:induction false} ActiveIsLatest(rs: seq<Register>, es: seq<Event>, j: nat) returns (i: nat)
    requires IsRun(rs, es) && j < |rs| && rs[j].active.Some?
    ensures i < j && es[i] == Begun(rs[j].active.value)
    ensures forall k :: i < k < j ==>
      !es[k].Begun? && !(es[k].Revoked? && Pair(rs[j].active.value, es[k].generation, es[k].revision))
  {
    assert StepAt(rs, es, j - 1);
    if es[j - 1].Begun? {
      i := j - 1;
    } else {
      i := ActiveIsLatest(rs, es, j - 1);
    }
  }

  /** Only the latest fence that was not revoked can store. */
  lemma OnlyLatestUnrevokedStores(rs: seq<Register>, es: seq<Event>, j: nat) returns (i: nat)
    requires IsRun(rs, es) && j < |es| && es[j].Stored?
    ensures i < j && es[i] == Begun(es[j].snapshot.fence)
    ensures forall k :: i < k < j ==>
      !es[k].Begun? && !(es[k].Revoked? && Pair(es[j].snapshot.fence, es[k].generation, es[k].revision))
  {
    assert StepAt(rs, es, j);
    i := ActiveIsLatest(rs, es, j);
  }

  /** `s` is committed under the fence that is still active. */
  predicate Holds(r: Register, s: Snapshot) {
    r.active == Some(s.fence) && r.committed == Some(s)
  }

  /** As long as the fence that committed `s` stays active, so does `s`; and it never comes back. */
  lemma {:induction false} CommitSticks(rs: seq<Register>, es: seq<Event>, i: nat, j: nat, s: Snapshot)
    requires IsRun(rs, es) && i <= j < |rs| && Holds(rs[i], s)
    ensures rs[j].epoch >= s.fence.epoch
    ensures rs[j].active.Some? && rs[j].active.value.epoch == s.fence.epoch ==> Holds(rs[j], s)
    decreases j
  {
    InvAt(rs, es, i);
    if i < j {
      CommitSticks(rs, es, i, j - 1, s);
      assert StepAt(rs, es, j - 1);
      InvAt(rs, es, j - 1);
    }
  }

  /** At any two moments at which a fence is active with its snapshot, the snapshot is the same. */
  lemma OneSnapshotPerFence(rs: seq<Register>, es: seq<Event>, i: nat, j: nat, s: Snapshot, t: Snapshot)
    requires IsRun(rs, es) && i <= j < |rs| && Holds(rs[i], s) && Holds(rs[j], t) && s.fence == t.fence
    ensures s == t
  {
    CommitSticks(rs, es, i, j, s);
  }

  /** Over a whole run one fence commits at most one snapshot value. */
  lemma FenceCommitsOnce(rs: seq<Register>, es: seq<Event>, i: nat, j: nat)
    requires IsRun(rs, es) && i < j < |es| && es[i].Stored? && es[j].Stored?
    requires es[i].snapshot.fence == es[j].snapshot.fence
    ensures es[i].snapshot == es[j].snapshot
  {
    assert StepAt(rs, es, i) && StepAt(rs, es, j);
    OneSnapshotPerFence(rs, es, i + 1, j + 1, es[i].snapshot, es[j].snapshot);
  }

  /** A reader loses a committed snapshot only to a newer store or to the revocation of its own
      pair; beginning a refresh never hides it. */
  lemma {:induction false} RefreshNeverHides(rs: seq<Register>, es: seq<Event>, i: nat, j: nat)
    requires IsRun(rs, es) && i <= j < |rs| && rs[i].committed.Some?
    requires forall k :: i <= k < j ==> !es[k].Stored?
    requires forall k :: i <= k < j ==>
      !(es[k].Revoked? && CommittedPair(rs[i], es[k].generation, es[k].revision))
    ensures rs[j].committed == rs[i].committed
    decreases j
  {
    if i < j {
      RefreshNeverHides(rs, es, i, j - 1);
      assert StepAt(rs, es, j - 1);
    }
  }

  /** Exact revocation, first half: a fence of the revoked pair stores only if it was begun after
      the revocation. */
  lemma RevokedFencesNeverStore(rs: seq<Register>, es: seq<Event>, i: nat, j: nat) returns (k: nat)
    requires IsRun(rs, es) && i < j < |es| && es[i].Revoked? && es[j].Stored?
    requires Pair(es[j].snapshot.fence, es[i].generation, es[i].revision)
    ensures i < k < j && es[k] == Begun(es[j].snapshot.fence)
  {
    k := OnlyLatestUnrevokedStores(rs, es, j);
  }

  /** Exact revocation, second half: no snapshot of the revoked pair is readable until a later
      store, and what belongs to any other pair is untouched. */
  lemma {:induction false} RevokedSnapshotsStayHidden(rs: seq<Register>, es: seq<Event>, i: nat, j: nat)
    requires IsRun(rs, es) && i < j < |rs| && es[i].Revoked?
    requires forall k :: i < k < j && es[k].Stored? ==> !Pair(es[k].snapshot.fence, es[i].generation, es[i].revision)
    ensures !CommittedPair(rs[j], es[i].generation, es[i].revision)
    ensures !ActivePair(rs[i], es[i].generation, es[i].revision) ==> rs[i + 1].active == rs[i].active
    ensures !CommittedPair(rs[i], es[i].generation, es[i].revision) ==> rs[i + 1].committed == rs[i].committed
    decreases j
  {
    assert StepAt(rs, es, i) && StepAt(rs, es, j - 1);
    if j > i + 1 {
      RevokedSnapshotsStayHidden(rs, es, i, j - 1);
    }
  }

  /** A pair that is not active at some moment becomes active only through a later begin. */
  lemma {:induction false} PairBegunAgain(rs: seq<Register>, es: seq<Event>, i: nat, j: nat, generation: nat,
                                          revision: Option<string>)
    returns (k: nat)
    requires IsRun(rs, es) && i <= j < |rs|
    requires !ActivePair(rs[i], generation, revision) && ActivePair(rs[j], generation, revision)
    ensures i <= k < j && es[k] == Begun(rs[j].active.value)
    decreases j
  {
    assert StepAt(rs, es, j - 1);
    if es[j - 1].Begun? {
      k := j - 1;
    } else {
      k := PairBegunAgain(rs, es, i, j - 1, generation, revision);
    }
  }

  /** A pair of which no snapshot is readable at some moment becomes readable only through a later store. */
  lemma {:induction false} PairStoredAgain(rs: seq<Register>, es: seq<Event>, i: nat, j: nat, generation: nat,
                                           revision: Option<string>)
    returns (k: nat)
    requires IsRun(rs, es) && i <= j < |rs|
    requires !CommittedPair(rs[i], generation, revision) && CommittedPair(rs[j], generation, revision)
    ensures i <= k < j && es[k] == Stored(rs[j].committed.value)
    decreases j
  {
    assert StepAt(rs, es, j - 1);
    if es[j - 1].Stored? {
      k := j - 1;
    } else {
      k := PairStoredAgain(rs, es, i, j - 1, generation, revision);
    }
  }
}
