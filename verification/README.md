# Edgion Center, verified

A Dafny model of the parts of Edgion Center that several replicas, or the Center and a DNS provider, have to
agree on, with proofs that they do.

* **Leases** (`Leases`, `LeaseMachine`): replicas elect an owner per role through one Kubernetes Lease.
* **Controller directory** (`Directory`, `Ownership`, `Reports`, `Sweep`, `OwnerSweeps`): owners project controller
  status under the fence of their Lease; a sweep marks controllers of expired owners offline.
* **Capability snapshots** (`CapabilityRegister`, `SqlCapabilities`, `KubeCapabilities`, `ScopeKeys`): one
  fenced register, refined by a SQL table and by a Kubernetes object.
* **Provider accounts** (`ProviderAccounts`): generation compare-and-swap and keyset pages.
* **DNS** (`Dns`, `Route53Inventory`, `Route53Plan`, `CloudflareRecords`, `CloudflareReading`, `CloudflareBatch`,
  `CloudflareAdmission`, `CloudflareEcho`, `CharacterStrings`, `TxtGrammar`, `Cursors`): guarded changes planned into provider batches, what an accepted batch does
  to the zone, TXT presentation forms and authenticated page cursors.
* `Basics`, `Ordering` and `ApiServer` hold what they share. `ApiServer.Object` is a Kubernetes object under
  optimistic concurrency: the log of all its versions, where a write succeeds only on the version it read.

Two forms are used. Code that loops over an API object is a class or method with the source's loop. Other
writers appear as a schedule of what they store before each request, and the contract says what this call
stored, under any schedule. An attempt is `Disturbed` if the schedule has others write during it, and a schedule is
`Quiet` if nobody else ever writes; contracts use the two to say when a call may give up and when it must succeed. Properties of all calls together are stated in one of two ways. A history is an
object's log in which every version lies in the span of a call that kept its contract, the spans overlapping
in any way. A step machine has the individual clock samples, reads, judgements and writes of any number of
callers as steps, and a run is any sequence of enabled steps. Lost answers are runs in which a call is
dropped, and a restart also drops what the replica remembered of the Lease.

Digests, HMACs and canonical JSON are taken as injective, drawn tokens as fresh, and each is written as a
constructor or a parameter. No cryptographic claim is made. Clocks, tokens and provider answers are
parameters. A put to the SQL store may carry any fence, except one that names a token drawn by an
invalidation, which no caller was told.

Four promises turned out to hold only under a condition:

* A takeover is guaranteed to wait only for the Lease duration less the time between the contender's clock sample
  and its read being served, because `acquire` samples the clock first. `LeaseMachine.TakeoverWaits` is the
  bound, for all runs, and `LeaseMachine.TakeoverBoundIsTight` shows for every duration and delay that it is met.
* A renewal that comes in time protects an owner from being swept offline by other replicas
  (`OwnerSweeps.OtherReplicaWaits`, `OwnerSweeps.RenewedOwnerStaysOnline`), but not by its own, whose acquire is
  never refused (`OwnerSweeps.OwnSweepUnseatsOwner`).
* A Cloudflare batch carried out to the letter is reported as done if and only if every record set it asks for
  is canonical. `CloudflareEcho.FaithfulBatchIsDone` has the condition and `CloudflareEcho.ValidButNotCanonical`
  two valid record sets outside it.
* Which of several Cloudflare objects has the lowest id can decide whether they are read at all.
  `CloudflareRecords.IdsDecideByHead` and `CloudflareRecords.ReadUnderAllIds` have the condition and
  `CloudflareRecords.LowestIdDecides` an example.

Verify everything with `dafny verify dfyconfig.toml`.

## Model

| member | source | states |
|---|---|---|
| `Leases.RunStartIsFirstOfUnbrokenRun` | crates/center-adapter-kubernetes/src/lease.rs:207-242 | The moment from which expiry is counted is a real sighting of the version in question; every later sighting was of that version and the one before was not. |
| `Leases.ObserveRemembers` | crates/center-adapter-kubernetes/src/lease.rs:217-237 | The one sighting kept per Lease always equals the start of the unbroken run in the whole history of sightings. |
| `Leases.LeaseCoordinator.constructor` | crates/center-adapter-kubernetes/src/lease.rs:95-143 | A coordinator starts with a holder, a duration between 3 s and the 32-bit limit and no sightings. |
| `Leases.LeaseCoordinator.IsActive` | crates/center-adapter-kubernetes/src/lease.rs:207-242 | Alive exactly when the unbroken run of sightings is shorter than the Lease duration, whatever the stored wall-clock fields say; unwatchable Leases are never alive and leave no trace. |
| `Leases.MayReplaceExactlyWhen` | crates/center-adapter-kubernetes/src/lease.rs:207-316 | When a version may be replaced, field by field: absent, no holder or an empty one, own holder, no positive duration, or its very version seen for duration seconds or longer. |
| `Leases.LeaseCoordinator.Assess` | crates/center-adapter-kubernetes/src/lease.rs:296-322 | Goes on if and only if the role fits, the epoch is below the limit and the version is free, its own, or seen unchanged for its whole duration; a foreign role and a live foreign holder are reported exactly when they are the reason. |
| `Leases.LeaseCoordinator.Acquire` | crates/center-adapter-kubernetes/src/lease.rs:291-345 | Whatever others write in between: at most one version stored, the last one, equal to the acquired form (next epoch, fresh token) of exactly the version it replaced, which it was entitled to replace. Every refusal names a state of the last version, and contention is reported only if others wrote in every attempt. With nobody else writing it succeeds if and only if the Lease it finds fits and may be replaced. |
| `Leases.LeaseCoordinator.Renew` | crates/center-adapter-kubernetes/src/lease.rs:347-389 | At most one version stored, over one this claim owned, keeping holder, token, role and epoch; whenever it answers, it answers kept exactly when the claim owns the last version; it fails only over another role or if others wrote in every attempt. |
| `Leases.LeaseCoordinator.Release` | crates/center-adapter-kubernetes/src/lease.rs:391-431 | At most one version stored, over one this claim owned, with holder and token cleared; on any success the claim no longer owns the Lease; it fails only over another role or if others wrote in every attempt. |
| `LeaseMachine.StepKeepsInv` | crates/center-adapter-kubernetes/src/lease.rs:291-431 | Every step of every replica keeps: fences numbered 1, 2, 3, ... under one role, the current version carrying the last fence or its bare epoch, and each call in flight consistent with the version it read. |
| `LeaseMachine.JudgesAsAcquireDoes` | crates/center-adapter-kubernetes/src/lease.rs:296-322 | The judging step of the machine goes on if and only if `Assess` does. |
| `LeaseMachine.StoredVersions` | crates/center-adapter-kubernetes/src/lease.rs:244-431 | In every run, what each step stores: an acquire the role, holder, token and duration of its caller, a renewal only a new duration, a release no holder and no token, and no other step anything. |
| `LeaseMachine.TransitionsCountMoves` | crates/center-adapter-kubernetes/src/lease.rs:244-286 | In every run the stored transition count is the number of versions in which one holder directly followed another, up to the 32-bit limit. |
| `LeaseMachine.SturdyAt` | crates/center-adapter-kubernetes/src/lease.rs:244-431 | In every run epochs fit 64 bits, and a held Lease always has a usable duration, so it can be watched. |
| `LeaseMachine.EpochsNeverReused` | crates/center-adapter-kubernetes/src/lease.rs:291-345 | In every run the n-th stored acquire has epoch n, for ever, across renewals and releases; two acquires never share an epoch. |
| `LeaseMachine.AcquireIssuesNextEpoch` | crates/center-adapter-kubernetes/src/lease.rs:244-286 | Acquire is the only step that issues a fence and it issues exactly the next epoch, owned by the version stored. |
| `LeaseMachine.KeepIsNewest` | crates/center-adapter-kubernetes/src/lease.rs:347-431 | Any stored renew or release was made by the newest leadership of the whole run so far. |
| `LeaseMachine.SupersededNeverWrites` | crates/center-adapter-kubernetes/src/lease.rs:291-431 | Once a later acquire is stored, no renew or release of an earlier leadership ever stores a version. |
| `LeaseMachine.ReleasedNeverWrites` | crates/center-adapter-kubernetes/src/lease.rs:391-431 | After a release, only leaderships with a newer epoch ever store anything. |
| `LeaseMachine.StepKeepsTimely` | crates/center-adapter-kubernetes/src/lease.rs:207-242 | Every step, restarts included, keeps: each sighting that a prompt replica remembers lies no earlier than its read delay before the seen version was stored, and each of its cleared takeovers has waited out the duration. |
| `LeaseMachine.TakeoverWaits` | crates/center-adapter-kubernetes/src/lease.rs:207-242 | In every run in which the reads of the replica that takes over are served within L of its clock samples, taking an unreleased Lease from another holder lands no earlier than D - L after the replaced version was stored. |
| `LeaseMachine.LongestDelay` | crates/center-adapter-kubernetes/src/lease.rs:291-300 | Every run is prompt for some delay, so the takeover theorem applies to every run. |
| `LeaseMachine.TakeoverBoundIsTight` | crates/center-adapter-kubernetes/src/lease.rs:291-345 | For every duration and every L up to it there is a run, prompt for L, in which the takeover lands exactly D - L after the store: the bound cannot be improved. |
| `LeaseMachine.SlowReadTakesOverAtOnce` | crates/center-adapter-kubernetes/src/lease.rs:291-345 | So without a bound on the read delay nothing is guaranteed: for every duration a Lease can be taken over at the very moment it was stored. |
| `LeaseMachine.LocatorWaitsFully` | crates/center-adapter-kubernetes/src/owner_locator.rs:101-170 | The owner locator never judges a version expired before its full duration has passed since it was stored, however slow reads are. |
| `Directory.TransitionsAdvance` | crates/center-adapter-kubernetes/src/controller_directory.rs:258-385 | No accepted transition decreases (epoch, observation time); every accepted registration strictly increases it. |
| `Directory.AcceptedExactlyWhen` | crates/center-adapter-kubernetes/src/controller_directory.rs:250-565 | For each of the four calls, the exact condition on fence, session, phase, eviction and observation time under which it is accepted. |
| `Directory.AcceptedLeaves` | crates/center-adapter-kubernetes/src/controller_directory.rs:250-501 | What an accepted call leaves: session, replica, fence, phase, both times and generation, for each kind of call. |
| `Directory.EvictionLeaves` | crates/center-adapter-kubernetes/src/controller_directory.rs:503-565 | An eviction clears session and replica and keeps all else. |
| `Directory.OlderFencesRefused` | crates/center-adapter-kubernetes/src/controller_directory.rs:310-501 | A fenced status yields only to fences at least as new, or to eviction, which keeps epoch, token and time. |
| `Directory.ListEntry` | crates/center-adapter-kubernetes/src/controller_directory.rs:393-449 | Evicted and never projected controllers are hidden, exactly; session, replica and fence show just while Online, as stored. |
| `Directory.ControllerDirectory.GetOrCreate` | crates/center-adapter-kubernetes/src/controller_directory.rs:167-186 | Writes nothing but this controller's own spec over the version read, and hands back the current version. |
| `Directory.ControllerDirectory.ReplaceStatusWithRetry` | crates/center-adapter-kubernetes/src/controller_directory.rs:201-233 | Under any interference: everything stored refreshes the spec with the status kept, except at most one last version, the accepted transition of exactly the version it replaced; refused only if the current status refuses, contended only if others wrote in every attempt. |
| `Directory.ControllerDirectory.EvictController` | crates/center-adapter-kubernetes/src/controller_directory.rs:503-565 | At most one version stored, evicted and unlisted, returning session, replica and fence of exactly the version it replaced; reports absence only when nothing is listed, contention only if others wrote in every attempt. |
| `Ownership.StepKeepsInv` | crates/center-adapter-kubernetes/src/controller_directory.rs:250-565 | Every step of the composed Lease and directory system keeps: each stored status and each call in flight is unfenced or carries a fence that was issued. |
| `Ownership.EpochNeverAhead` | crates/center-adapter-kubernetes/src/controller_directory.rs:250-565 | In every interleaving no stored status has an epoch above the Lease epoch, and a positive epoch comes with the token of that very acquire. |
| `Ownership.SameEpochSameToken` | crates/center-adapter-kubernetes/src/controller_directory.rs:250-565 | Two statuses stored anywhere in a run under the same epoch carry the same token. |
| `Ownership.NeverGoesBack` | crates/center-adapter-kubernetes/src/controller_directory.rs:258-385 | (epoch, observation time) never decreases over any interleaving of register, offline, project and evict with retries. |
| `Ownership.RegistrationIsNewer` | crates/center-adapter-kubernetes/src/controller_directory.rs:250-308 | Every accepted registration is strictly newer than every status current before it in the run. |
| `Ownership.StaleCallsNeverWrite` | crates/center-adapter-kubernetes/src/controller_directory.rs:310-501 | Once a status with epoch e > 0 was current, no unfenced call and no call with a lower epoch changes the status again; only eviction can. |
| `Ownership.EvictEvicts` | crates/center-adapter-kubernetes/src/controller_directory.rs:503-565 | A committed evict leaves the evicted form of exactly the status it found. |
| `Ownership.EvictionIsDurable` | crates/center-adapter-kubernetes/src/controller_directory.rs:503-565 | From eviction on, until a strictly newer registration is accepted, the status does not change, nothing is listed and no offline or runtime write succeeds. |
| `Ownership.EpochWasWritten` | crates/center-adapter-kubernetes/src/controller_directory.rs:250-565 | Every stored positive epoch was brought in by some earlier call under that very fence. |
| `Ownership.OwnerRefusedOnlyByNewer` | crates/center-adapter-kubernetes/src/controller_directory.rs:258-285 | A fenced registration is refused only after a call under a fence at least as new has written. |
| `Ownership.OwnerStaysOnline` | crates/center-adapter-kubernetes/src/controller_directory.rs:310-391 | A stored owner registration stays Online with its session, replica and fence until something at least as new, or an evict, writes. |
| `Ownership.SweepCannotDisplaceOwner` | bins/edgion-center-kubernetes/src/lib.rs:45-84 | If the owner acquired after the sweep did, the sweep's offline mark is never why the owner is refused and is never written after the owner's registration. |
| `Reports.ReportStaysCurrent` | crates/center-adapter-kubernetes/src/controller_directory.rs:250-501 | In every interleaving, a runtime field (sync version, watch server, resource count, counts by kind, either update time) that an accepted projection reported shows that report until a registration or a projection that reports the field is accepted. |
| `Reports.UnreportedFieldsStay` | crates/center-adapter-kubernetes/src/controller_directory.rs:250-501 | No other step changes the field; in particular a projection that leaves it out keeps it. |
| `Reports.ShownWasReported` | crates/center-adapter-kubernetes/src/controller_directory.rs:250-501 | Conversely, whatever such a field shows at any point of any run was reported by an earlier accepted projection, with no registration and no later report of it in between. |
| `Reports.MetadataIsLastRegistration` | crates/center-adapter-kubernetes/src/controller_directory.rs:258-308 | Cluster, environments and tags are those of the last accepted registration. |
| `Reports.SpecIsLastWriters` | crates/center-adapter-kubernetes/src/controller_directory.rs:167-233 | Whatever call last had its status accepted, the spec beside it is that call's own. |
| `Reports.OwnerIsServed` | crates/center-adapter-kubernetes/src/controller_directory.rs:310-449 | Until something at least as new writes, the owner's own runtime projections and offline marks are accepted, and the controller is listed Online with the owner's session, replica and fence. |
| `OwnerSweeps.LeaseRun` | bins/edgion-center-kubernetes/src/lib.rs:45-84 | The Lease steps of any run of the composed system are a run of the Lease alone, so all that is proved of the Lease holds in it. |
| `OwnerSweeps.OtherReplicaWaits` | bins/edgion-center-kubernetes/src/lib.rs:53-68 | In the composed system, too, a replica other than the holder stores an acquire over a held Lease no earlier than D - L after the version it replaces: against it a renewal in time wins. |
| `OwnerSweeps.RenewedOwnerStaysOnline` | bins/edgion-center-kubernetes/src/lib.rs:45-84 | An owner whose registration is stored while it holds the Lease, and whose Lease is renewed before D - L has passed each time, stays Online with its session, replica and fence against every other replica's sweep. |
| `OwnerSweeps.OwnSweepUnseatsOwner` | bins/edgion-center-kubernetes/src/lib.rs:490-503 | The promise that a concurrent renewal wins fails for the owner's own replica: from every reachable state with an Online owner whose replica holds the Lease there is a run in which that replica's lookup finds the Lease expired, the renewal is then stored, and at that very moment the sweep's acquire and offline mark are stored. |
| `Sweep.ReconcileExpiredOwner` | bins/edgion-center-kubernetes/src/lib.rs:45-84 | The leadership is obtained only over a Lease that is free, its own, or seen unchanged for its whole duration; otherwise the sweep reports a conflict and the directory is untouched. With it, the only status written is the offline mark of the listed session under the new fence, and the release follows whether or not the mark succeeded; each outcome is reported exactly when it occurred. With nobody else writing the leadership is obtained if and only if the Lease allows it, and then the sweep succeeds unless the directory object is another controller's. |
| `CapabilityRegister.IssuedEpochsIncrease` | crates/center-core/src/cloud/capabilities.rs:876-884 | Over every run of the fenced register issued epochs are distinct and increasing. |
| `CapabilityRegister.OnlyLatestUnrevokedStores` | crates/center-core/src/cloud/capabilities.rs:886-911 | Only the latest begun fence, not revoked since, ever stores. |
| `CapabilityRegister.FenceCommitsOnce` | crates/center-core/src/cloud/capabilities.rs:886-911 | Over a whole run one fence commits at most one snapshot value. |
| `CapabilityRegister.OneSnapshotPerFence` | crates/center-core/src/cloud/capabilities.rs:886-911 | At any two moments at which a fence is active with a snapshot committed under it, the snapshot is the same. |
| `CapabilityRegister.RefreshNeverHides` | crates/center-core/src/cloud/capabilities.rs:866-874 | A committed snapshot stays readable until a later store or the revocation of its own pair; beginning a refresh never hides it. |
| `CapabilityRegister.RevokedFencesNeverStore` | crates/center-adapter-kubernetes/src/cloud_capability_store.rs:227-300 | After a revocation of (generation, revision) a fence of that pair stores only if begun later. |
| `CapabilityRegister.RevokedSnapshotsStayHidden` | crates/center-adapter-kubernetes/src/cloud_capability_store.rs:227-300 | After a revocation no snapshot of that pair is readable until a later store of that pair; authority and snapshot of any other pair are unchanged. |
| `ScopeKeys.BigEndian` | crates/center-adapter-sql/src/cloud_capabilities.rs:39-47 | Four bytes whose base-256 value is the length. |
| `ScopeKeys.ScopeKey` | crates/center-adapter-sql/src/cloud_capabilities.rs:49-73 | The buffer built in place is the tagged, length-prefixed encoding, with an error exactly for parts or keys that are too long. |
| `ScopeKeys.PrefixedSplits` | crates/center-adapter-sql/src/cloud_capabilities.rs:39-47 | A length-prefixed part can be read back off the front of any buffer. |
| `ScopeKeys.ScopeKeyInjective` | crates/center-adapter-sql/src/cloud_capabilities.rs:49-73 | Distinct scopes never share a key. |
| `SqlCapabilities.BeginKeepsInv` | crates/center-adapter-sql/src/cloud_capabilities.rs:172-259 | Begin keeps: rows well formed, tokens unique, snapshot fence columns equal to the authority only with a non-NULL snapshot. |
| `SqlCapabilities.UpdateKeepsInv` | crates/center-adapter-sql/src/cloud_capabilities.rs:261-336 | The conditional UPDATE of a put keeps the same invariant. |
| `SqlCapabilities.InvalidateKeepsInv` | crates/center-adapter-sql/src/cloud_capabilities.rs:418-482 | Both UPDATEs of an invalidation keep the same invariant. |
| `SqlCapabilities.MissedPutLostOrConflicts` | crates/center-adapter-sql/src/cloud_capabilities.rs:337-415 | In every run of concurrent statements, after an UPDATE that matched no row the SELECT finds a lost fence or another snapshot under the same fence: the arms for a NULL snapshot and for an equal snapshot are unreachable. |
| `SqlCapabilities.PutCommitsExactlyWhen` | crates/center-adapter-sql/src/cloud_capabilities.rs:261-336 | In every run an UPDATE commits if and only if its fence is the active one and nothing else is committed under it. |
| `SqlCapabilities.MissedPutAnswers` | crates/center-adapter-sql/src/cloud_capabilities.rs:337-416 | In every run an UPDATE that missed answers conflict if and only if, when it looks, its fence is active and another snapshot is committed under it, and fence lost if and only if its fence is not active; it answers nothing else. |
| `SqlCapabilities.DistinctKeysDistinctRows` | crates/center-adapter-sql/src/cloud_capabilities.rs:49-73 | Distinct accounts or scopes never share a row. |
| `SqlCapabilities.StatementRefines` | crates/center-adapter-sql/src/cloud_capabilities.rs:172-482 | Each statement is one step of the fenced register for every key at once. |
| `SqlCapabilities.RunRefinesRegister` | crates/center-adapter-sql/src/cloud_capabilities.rs:172-482 | Every run of interleaved statements is, for every key, a run of the fenced register. |
| `SqlCapabilities.FenceCommitsOneSnapshot` | crates/center-adapter-sql/src/cloud_capabilities.rs:261-416 | Two successful puts under one fence of one key, anywhere in any run, wrote the same snapshot. |
| `SqlCapabilities.OnlyLatestUnrevokedPuts` | crates/center-adapter-sql/src/cloud_capabilities.rs:261-336 | An UPDATE that commits follows the begin of its fence, with no begin for that key and no invalidation of its pair in between. |
| `SqlCapabilities.RevokedFencesNeverPut` | crates/center-adapter-sql/src/cloud_capabilities.rs:418-482 | After an invalidation a fence of that pair commits only if begun later. |
| `SqlCapabilities.RevokedSnapshotsStayHidden` | crates/center-adapter-sql/src/cloud_capabilities.rs:418-482 | And a snapshot of that pair is readable again only once a later UPDATE has committed it. |
| `SqlCapabilities.RevocationIsExact` | crates/center-adapter-sql/src/cloud_capabilities.rs:418-482 | The invalidation leaves authority and snapshot of every other pair, and every other account, alone. |
| `KubeCapabilities.KubernetesCapabilityStore.LoadOrCreate` | crates/center-adapter-kubernetes/src/cloud_capability_store.rs:199-225 | Stores nothing but the empty object and hands back the current version; it comes back without one only if others wrote. |
| `KubeCapabilities.KubernetesCapabilityStore.BeginDiscovery` | crates/center-adapter-kubernetes/src/cloud_capability_store.rs:319-389 | The only register step stored is the begin of the returned fence, with the token drawn in the attempt that stored it, over exactly the version read, with the committed snapshot kept; it fails only at the last epoch or if others wrote in every attempt. |
| `KubeCapabilities.KubernetesCapabilityStore.PutIfCurrent` | crates/center-adapter-kubernetes/src/cloud_capability_store.rs:391-432 | Stores at most one register step, that snapshot under the still active fence; each outcome tells what the last version holds, and contention that others wrote in every attempt. |
| `KubeCapabilities.KubernetesCapabilityStore.Revoke` | crates/center-adapter-kubernetes/src/cloud_capability_store.rs:245-285 | The edit is the exact revocation of the pair as a register step, nothing exactly when the pair is absent, and an error exactly when an active pair has the last epoch. |
| `KubeCapabilities.KubernetesCapabilityStore.InvalidateKey` | crates/center-adapter-kubernetes/src/cloud_capability_store.rs:227-300 | Stores at most the exact revocation of the pair; on success the pair is neither active nor committed; it fails only for an active pair at the last epoch or if others wrote in every attempt. |
| `KubeCapabilities.VersionIsStep` | crates/center-adapter-kubernetes/src/cloud_capability_store.rs:227-432 | In every history of overlapping calls each version is the register step of the call that stored it. |
| `KubeCapabilities.HistoryRefinesRegister` | crates/center-adapter-kubernetes/src/cloud_capability_store.rs:227-432 | Every history of overlapping calls is a run of the fenced register whose events are just the steps that the calls made. |
| `KubeCapabilities.BegunEpochsIncrease` | crates/center-adapter-kubernetes/src/cloud_capability_store.rs:319-389 | Epochs handed out by begin calls are distinct and increase in the order in which the calls stored. |
| `KubeCapabilities.OnlyLatestUnrevokedPuts` | crates/center-adapter-kubernetes/src/cloud_capability_store.rs:391-432 | A put that stored follows the begin call of its fence, with no begin and no revocation of its pair in between. |
| `KubeCapabilities.FenceCommitsOneSnapshot` | crates/center-adapter-kubernetes/src/cloud_capability_store.rs:391-432 | Two puts that returned stored under one fence, whether they wrote or found it written, had the same snapshot. |
| `KubeCapabilities.RevokedFencesNeverPut` | crates/center-adapter-kubernetes/src/cloud_capability_store.rs:227-300 | Once an invalidation has returned, a put under a fence of that pair stores only if a later call began the fence. |
| `KubeCapabilities.RevokedSnapshotsStayHidden` | crates/center-adapter-kubernetes/src/cloud_capability_store.rs:227-300 | And a snapshot of that pair is readable again only after a later put of that very snapshot. |
| `KubeCapabilities.RevocationIsExact` | crates/center-adapter-kubernetes/src/cloud_capability_store.rs:227-300 | The invalidation itself leaves authority and snapshot of every other pair as they were. |
| `ProviderAccounts.ProviderAccountStore.Create` | crates/center-adapter-kubernetes/src/provider_account_store.rs:196-230 | Stores at most the first version, with generation 1, and does so if and only if there is no object yet; otherwise the outcome tells what the last version is. |
| `ProviderAccounts.ProviderAccountStore.ReplaceIfGeneration` | crates/center-adapter-kubernetes/src/provider_account_store.rs:280-324 | Stores at most one version, the last, over one that carried exactly the expected generation, and both generations advance by one; mismatch, absence, collision and diverged generations each reflect the last version, and contention means others wrote in every attempt. |
| `ProviderAccounts.GenerationsCountReplacements` | crates/center-adapter-kubernetes/src/provider_account_store.rs:142-159 | Over every history of overlapping calls and foreign metadata edits the stored and the metadata generation agree at every version and equal one plus the number of successful replacements. |
| `ProviderAccounts.OneReplacementPerGeneration` | crates/center-adapter-kubernetes/src/provider_account_store.rs:280-324 | Over every such history two successful replacements of the same generation are one call. |
| `ProviderAccounts.GenerationHasReplacement` | crates/center-adapter-kubernetes/src/provider_account_store.rs:280-324 | And every generation after the first came from a call that replaced exactly the one before. |
| `ProviderAccounts.ProviderAccountStore.Retain` | crates/center-adapter-kubernetes/src/provider_account_store.rs:241-278 | Keeps exactly what lies beyond the cursor. |
| `ProviderAccounts.ProviderAccountStore.List` | crates/center-adapter-kubernetes/src/provider_account_store.rs:241-278 | Sorting, retaining and truncating in place give the page of the specification. |
| `ProviderAccounts.CursorResumes` | crates/center-adapter-kubernetes/src/provider_account_store.rs:241-278 | The cursor left by an account resumes exactly at the next one. |
| `ProviderAccounts.PageAt` | crates/center-adapter-kubernetes/src/provider_account_store.rs:241-278 | A page is the next stretch of the sorted accounts and its cursor is that of its end. |
| `ProviderAccounts.PagesCoverExactlyOnce` | crates/center-adapter-kubernetes/src/provider_account_store.rs:241-278 | Pages of any positive sizes concatenate to the sorted accounts from the starting point, each once. |
| `ProviderAccounts.CrawlListsEveryAccountOnce` | crates/center-adapter-kubernetes/src/provider_account_store.rs:241-278 | From the first request on, over accounts listed in any order, a client receives each account exactly once in increasing order. |
| `Dns.UntouchedStays` | crates/center-core/src/cloud/dns.rs:884-1016 | Changes leave every other record set alone. |
| `Dns.TouchedBecomes` | crates/center-core/src/cloud/dns.rs:884-1016 | A record set changed once ends up as that change says. |
| `Dns.AppliedIsOverlay` | crates/center-core/src/cloud/dns.rs:966-1016 | Changes to distinct identities amount to dropping every touched record set and putting in the expected ones, whatever their order. |
| `Route53Inventory.CheckOwner` | crates/center-adapter-route53/src/lib.rs:1316-1333 | Accepts an owner exactly when a CNAME shares it with no other type. |
| `Route53Inventory.CheckGroup` | crates/center-adapter-route53/src/lib.rs:1334-1402 | Accepts a group if and only if any two members agree in TTL and kind of routing policy and do not select the same, and it has at most 100 members if one is weighted. |
| `Route53Inventory.GroupOkMeans` | crates/center-adapter-route53/src/lib.rs:1334-1402 | The code's family and selector tests, in terms of policies: all members have a policy of one kind or none has one, TTLs agree where given, failover members differ in role, latency members in region, geolocation members in location, while weights and multivalue answers may repeat. |
| `Route53Inventory.WellFormedMeans` | crates/center-adapter-route53/src/lib.rs:1301-1402 | A whole zone is in order if and only if CNAMEs stand alone, any two record sets of one name and type are compatible in that sense, and weighted groups have at most 100 members. |
| `Route53Inventory.ValidateResultantInventory` | crates/center-adapter-route53/src/lib.rs:1311-1366 | Accepts exactly when all affected owners and groups are in order. |
| `Route53Inventory.AffectedCheckIsFullCheck` | crates/center-adapter-route53/src/lib.rs:1301-1403 | If the zone was well formed, the check of only the affected parts accepts exactly when the whole resulting zone is well formed. |
| `Route53Plan.Render` | crates/center-adapter-route53/src/model.rs:187-277 | A rendered record set reads back as itself. |
| `Route53Plan.ValidateChangeRequest` | crates/center-adapter-route53/src/lib.rs:1405-1429 | Accepts exactly the requests within the action, value and element limits. |
| `Route53Plan.SameShapeMeans` | crates/center-adapter-route53/src/lib.rs:1265-1299 | A replacement keeps the shape if and only if the kind of routing policy, being an alias and the health check are the same. |
| `Route53Plan.AcceptedExactlyWhen` | crates/center-adapter-route53/src/lib.rs:1197-1299 | One change is accepted if and only if what it is based on is in the inventory as observed, a replacement keeps its shape and changes something, and the record set renders; otherwise the reason given is the one that applies. |
| `Route53Plan.Collect` | crates/center-adapter-route53/src/lib.rs:1188-1255 | Accepts exactly when every guard, shape and rendering does, and otherwise gives the reason of the first change that fails; the request, the resulting inventory and the affected owners and groups are those of the changes. |
| `Route53Plan.PlanChangeBatch` | crates/center-adapter-route53/src/lib.rs:1188-1263 | Accepted exactly when all changes are, the affected part of the result is in order and the request fits; the plan is the deletes and creates of the changes in order; a refusal names the first of these that fails. |
| `Route53Plan.BatchRunsIffGuardsHold` | crates/center-adapter-route53/src/lib.rs:1188-1263 | On any live inventory, also one with record sets that cannot be read, the batch succeeds exactly when every change's guard holds there; then every change has taken effect and nothing else is different, otherwise nothing changes. |
| `Route53Plan.ReadsAsApplied` | crates/center-adapter-route53/src/lib.rs:1188-1263 | Where the whole zone can be read, it then reads as exactly the changes applied to what it read before. |
| `Route53Plan.HeldGuardIsObservation` | crates/center-adapter-route53/src/lib.rs:1431-1438 | A held replace or delete guard means that the live record set is the one observed. |
| `Route53Plan.PlanPreservesMeaning` | crates/center-adapter-route53/src/lib.rs:1188-1263 | On the inventory it was planned from an accepted plan always succeeds and yields exactly the resulting inventory that was checked; a well-formed zone stays well formed. |
| `CloudflareRecords.AggregateRecords` | crates/center-adapter-cloudflare/src/lib.rs:2321-2400 | Returns the aggregation of the objects, and an error exactly when they have none; the error is that of an object or of a group. |
| `CloudflareReading.ReadExactlyWhen` | crates/center-adapter-cloudflare/src/lib.rs:2361-2472 | A group is read if and only if its name is in the zone, its members agree in TTL, comment, tags and, for types that have them, proxy state and flattening, its values are of the type, valid and distinct (one only for CNAME and SOA), and the first member's proxy state, flattening and TTL go together. |
| `CloudflareReading.ReadAs` | crates/center-adapter-cloudflare/src/lib.rs:2361-2472 | What a group is read as: key, TTL, exactly its values and ids, revision, and proxy, flattening, comment and tags as the first member has them. |
| `CloudflareReading.AggregatesExactlyWhen` | crates/center-adapter-cloudflare/src/lib.rs:2321-2472 | Objects have an aggregation if and only if their ids differ, each is admissible (valid id, no unsupported setting, a name in the zone) and every group is readable. |
| `CloudflareReading.ObjectReasons` | crates/center-adapter-cloudflare/src/lib.rs:2326-2347 | Each reason to refuse an object is given when it applies. |
| `CloudflareReading.GroupReasons` | crates/center-adapter-cloudflare/src/lib.rs:2353-2472 | Each reason to refuse a group is given when it applies. |
| `CloudflareRecords.SortMembers` | crates/center-adapter-cloudflare/src/lib.rs:2348-2352 | Members in id order, none lost or added. |
| `CloudflareRecords.AggregationIgnoresOrder` | crates/center-adapter-cloudflare/src/lib.rs:2321-2400 | Reordered objects, and so any page split, succeed or fail alike and with the same result. |
| `CloudflareRecords.IdsPartition` | crates/center-adapter-cloudflare/src/lib.rs:2385-2394 | Every object id is under its own record set and no other, and no id is made up. |
| `CloudflareRecords.ValuesConserved` | crates/center-adapter-cloudflare/src/lib.rs:2361-2367 | The value counts of the record sets sum to the number of objects. |
| `CloudflareRecords.IdsDecideByHead` | crates/center-adapter-cloudflare/src/lib.rs:2402-2472 | For the same objects under other ids: if one list is read, the other is read if and only if its lowest-id member carries no flattening outside CNAME and no proxy outside the proxiable types, and as the same record set. |
| `CloudflareRecords.ReadUnderAllIds` | crates/center-adapter-cloudflare/src/lib.rs:2402-2472 | The objects of a group are read under all ids, each time in the order of those ids, if and only if they are read under some and every one is clean in that sense. |
| `CloudflareRecords.LowestIdDecides` | crates/center-adapter-cloudflare/src/lib.rs:2402-2472 | Concrete family where those two fields differ: the same two TXT objects are read or refused depending on their ids. |
| `CloudflareBatch.CollectDeleteIds` | crates/center-adapter-cloudflare/src/lib.rs:1942-1955 | Accepts exactly non-empty sets of valid ids not yet collected, and adds just those. |
| `CloudflareBatch.PlanChange` | crates/center-adapter-cloudflare/src/lib.rs:1893-1922 | One change adds exactly its deletes and posts, or is refused exactly when its guard, rendering or ids are bad. |
| `CloudflareBatch.PlanBatch` | crates/center-adapter-cloudflare/src/lib.rs:1883-1940 | Accepted exactly when every change is and the batch is neither empty nor above 10000 operations; it is the deletes and posts of the changes, and the two size errors are given exactly when size is the reason. |
| `CloudflareAdmission.AdmittedExactlyWhen` | crates/center-core/src/cloud/dns.rs:884-1016 | Changes pass admission if and only if there are 1 to 1000 of them to distinct identities, all record sets asked for and all previous ones are valid, none is the SOA or NS set of the zone's apex, CNAMEs asked for stand alone, and previous observations are of this zone. |
| `CloudflareAdmission.ValidRenders` | crates/center-adapter-cloudflare/src/lib.rs:1957-2082 | A valid record set renders if and only if it is not SOA and its CAA values are text; there is one post per value, carrying name, TTL, proxy, flattening, comment and tags. |
| `CloudflareAdmission.PlannedExactlyWhen` | crates/center-adapter-cloudflare/src/lib.rs:1883-1940 | On an aggregated zone admitted changes can be planned if and only if each is based on the inventory as observed and every record set asked for renders. |
| `CloudflareAdmission.DelegationUntouched` | crates/center-core/src/cloud/dns.rs:979-990 | Whenever success is reported, the SOA and NS sets of the apex are as before. |
| `CloudflareBatch.DeleteIdsNeverClash` | crates/center-adapter-cloudflare/src/lib.rs:1942-1955 | From an aggregated inventory collecting delete ids cannot fail, so only guards, rendering and size stop a plan. |
| `CloudflareBatch.ValidateBatchResult` | crates/center-adapter-cloudflare/src/lib.rs:2107-2155 | Accepts exactly when the answer names just the planned deletes and its posts, aggregated, are just the expected record sets. |
| `CloudflareBatch.AcceptedBatchIsTheChanges` | crates/center-adapter-cloudflare/src/lib.rs:1883-2155 | If the answer is accepted and performed, aggregating the zone gives the old inventory updated by exactly the changes, with untouched record sets identical down to ids and revision. |
| `CloudflareBatch.ApplyRecordChanges` | crates/center-adapter-cloudflare/src/lib.rs:1400-1421 | Reading, planning and validating put together: refused exactly when nothing may be sent, successful exactly when the answer also fits, unknown otherwise. |
| `CloudflareBatch.SuccessIsTheChanges` | crates/center-adapter-cloudflare/src/lib.rs:1400-1421 | Whenever success is reported, every zone content the provider may have performed it into aggregates to the old inventory updated by exactly the changes. |
| `CloudflareEcho.EchoedRrset` | crates/center-adapter-cloudflare/src/lib.rs:1957-2009 | What aggregation makes of the objects that rendering asked for, field by field. |
| `CloudflareEcho.EchoReadsBack` | crates/center-adapter-cloudflare/src/lib.rs:1957-2009 | A valid record set, rendered and read back, is itself if and only if its TTL is not one second and it is not an explicit empty extension with a TTL in seconds. |
| `CloudflareEcho.ValidButNotCanonical` | crates/center-core/src/cloud/dns.rs:576-826 | Both exceptions pass validation. |
| `CloudflareEcho.FaithfulAnswerAccepted` | crates/center-adapter-cloudflare/src/lib.rs:2107-2155 | The posts of a batch carried out to the letter are recognised if and only if every expected record set is canonical in that sense. |
| `CloudflareEcho.PostsAreExpected` | crates/center-adapter-cloudflare/src/lib.rs:1883-1940 | The planned posts are those of the expected record sets, each exactly once. |
| `CloudflareEcho.EchoHasEveryPost` | crates/center-adapter-cloudflare/src/lib.rs:2126-2133 | Such an answer has exactly as many posts as the batch asked for. |
| `CloudflareEcho.FaithfulBatchIsDone` | crates/center-adapter-cloudflare/src/lib.rs:1400-1421 | A batch that was sent and carried out to the letter, deletes and posts, is reported as done if and only if every expected record set is canonical. |
| `Cursors.NextAnswer` | crates/center-adapter-cloudflare/src/lib.rs:2528-2697 | A request with an issued cursor is answered if and only if keys and clocks hand over, the inventory is unchanged and a further cursor can be dated; the answer is the next stretch. |
| `Cursors.FirstAnswer` | crates/center-adapter-cloudflare/src/lib.rs:2619-2697 | The first page and the exact condition for it. |
| `Cursors.AnsweredExactlyWhen` | crates/center-adapter-cloudflare/src/lib.rs:2528-2697 | Any token at all is answered if and only if a server with one of the ring's keys issued it for this page size and scope, at an offset within the same inventory, keys and clocks hand over, and a further cursor can be issued if needed. |
| `Cursors.AnsweredWasIssued` | crates/center-adapter-cloudflare/src/lib.rs:2528-2589 | An answered token is exactly one that was issued for this very page size, scope and inventory. |
| `Cursors.ForeignCursorRefused` | crates/center-adapter-cloudflare/src/lib.rs:2528-2581 | A cursor issued for another page size or another scope is refused. |
| `Cursors.RefusedBecause` | crates/center-adapter-cloudflare/src/lib.rs:2528-2697 | The reason an issued cursor is refused for: unknown key, other scope, other page size, not yet valid, expired or changed inventory, each exactly when it applies. |
| `Cursors.CrawlSoFar` | crates/center-adapter-cloudflare/src/lib.rs:2528-2697 | After m pages, whatever happened to keys, clocks and inventory, a client holds exactly the first m * limit items and the inventory was the same at every request. |
| `Cursors.CrawlListsInventory` | crates/center-adapter-cloudflare/src/lib.rs:2528-2697 | A completed crawl lists every item once, in order, in ceil(n / limit) pages, or one if there are no items; a changed inventory never gets this far. |
| `Cursors.CrawlGoesOn` | crates/center-adapter-cloudflare/src/lib.rs:2528-2697 | An unfinished crawl can go on if and only if keys and clocks hand over and the inventory is unchanged. |
| `Cursors.RotationHandsOver` | crates/center-adapter-cloudflare/src/lib.rs:646-711 | With the former active key as fallback, anything within lifetime plus skew hands over. |
| `CharacterStrings.RenderCharacterString` | crates/center-adapter-route53/src/model.rs:362-376 | The bytes pushed are the quoted, escaped segment, in decimal or octal style. |
| `CharacterStrings.RenderTxt` | crates/center-adapter-cloudflare/src/lib.rs:2084-2105 | The quoted segments joined by single spaces. |
| `CharacterStrings.ReadBody` | crates/center-adapter-cloudflare/src/http.rs:776-848 | The inner loop reads up to the closing quote, and gives up exactly on malformed text and, where the style limits it there, on over-long segments. |
| `CharacterStrings.ReadSegment` | crates/center-adapter-route53/src/model.rs:608-677 | One round of the outer loop takes exactly one quoted string off the text, with each style's separator rule. |
| `CharacterStrings.ParseCharacterStrings` | crates/center-adapter-cloudflare/src/http.rs:776-848 | The two parser loops compute the recursive specification, limits included. |
| `CharacterStrings.PrintedReadsBack` | crates/center-adapter-route53/src/model.rs:362-376 | Reading one printed octet gives it back, whatever follows, in both styles. |
| `CharacterStrings.PrintThenParse` | crates/center-adapter-cloudflare/src/lib.rs:2084-2105 | For every TXT value, in both styles, parsing the printed text returns the same segments. |
| `CharacterStrings.ParseThenPrintThenParse` | crates/center-adapter-route53/src/model.rs:608-677 | Whatever a parser accepts is a TXT value that survives being printed and parsed again. |
| `TxtGrammar.LexExactlyWhen` | crates/center-adapter-cloudflare/src/http.rs:792-835 | One step of either parser reads an octet off a chunk if and only if the grammar lets the chunk spell that octet. |
| `TxtGrammar.ParsesExactlyWhen` | crates/center-adapter-cloudflare/src/http.rs:776-848 | For both parsers and all texts: a text is read as given segments if and only if the grammar of quoted strings derives it from them and there are 1 to 64 segments of at most 255 and together at most 4096 octets. |
| `TxtGrammar.PrintedShortest` | crates/center-adapter-route53/src/model.rs:362-376 | Printing escapes just what must be: quotes and backslashes by a backslash, unprintable octets by number, all else not at all. |

## Left out

- Retry methods do not model transport errors. An answer that is lost appears only in the step machines, as a dropped call.
- HTTP, AWS SDK, kube and SQL driver plumbing, configuration, health checks, audit sinks and the web UI.
- Lease deletion, wall-clock fields of a Lease and timestamp range errors. Lease and controller resource names are taken as distinct per role and controller.
- Roles other than controller ownership (maintenance roles go through the same coordinator).
- States of custom resources and rows that the code itself cannot write: negative epochs, malformed payloads, retired snapshots.
- SqlCapabilities.StatementRefines: the MySQL begin, two statements in one transaction, is one step.
- SqlCapabilities.InvalidateKeepsInv: epochs are unbounded here; what a database does when an invalidation increments the largest 64-bit epoch is not modelled.
- CloudflareBatch.ApplyRecordChanges: the zone reference check, receipts and their signing keys are not modelled.
- KubeCapabilities.KubernetesCapabilityStore.InvalidateKey: one key's object; the listing of all objects of an account around it is not modelled.
- Directory.ListEntry: one entry; the sorting of the list and its presentation fields are not modelled.
- Pod lookup and endpoint formatting after the owner locator has found an owner.
- Route53Plan.Render: the mapping between Route 53 record sets and the neutral form is a parameter; only its built-in round-trip check is modelled.
- Route 53 inventory scanning and cursor paging, DNS name parsing and the validators inside values, tags and comments, which are parameters.
- Cloudflare values other than TXT are carried through rendering unchanged; their individual formats would only add easy members.
- CloudflareBatch.PlanBatch: posts are a multiset and deletes a set, since the provider does not depend on their order.
- CloudflareRecords.AggregateRecords: the result is a map from identity; that the source lists it in identity order is not modelled.
- Cursors.NextAnswer: the encoding of tokens as text is not modelled, and the encoded size of an inventory is a parameter.
- CharacterStrings.RenderTxt: segments are joined from the last to the first, with the same result as joining in order.
- DNSSEC, zone lifecycle and change-receipt tokens, provider error mapping, and authorization.
