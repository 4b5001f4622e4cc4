# KinTunnel control plane: a Dafny model

KinTunnel's engine keeps a declared state (peers, persons, audit events) in one
JSON file and drives a WireGuard interface, iptables and a snapshot store to
match it. This project models the protocols behind that and proves what they
keep.

- **Addresses** (`Bits`, `Text`, `Ipv4`): JavaScript's unsigned 32-bit arithmetic
  written out on natural numbers, dotted-quad texts, first-fit allocation.
- **The state store** (`Records`, `StoreRules`, `StateStore`, `StoreInvariants`,
  `StoreRuns`, `ExpirySweep`, `KeyPairs`, `StoreMeaning`, `PersonMeaning`,
  `SweepMeaning`): `StoreRules` says what each operation does to a state; the
  classes of `StateStore` do it step by step, as the source does, and are proved
  equal to the rules; the invariants and the statements over whole runs are proved
  of the rules, and the `Meaning` modules say of the records themselves what each
  operation does.
- **Concurrency** (`WriteQueue`, `StoreQueue`, `FileLock`, `LockOrder`): transition
  systems with any number of callers in which every `await` is a point where
  others step, and every file operation can fail.
- **Apply** (`Kernel`, `HostAudit`, `ApplyPlan`, `Apply`, `ApplyRun`,
  `ApplyOutcome`, `Reconcile`): a kernel in which each prefix belongs to its last
  claimant, commands that may fail having done part of their work, and the
  planning, driving, rollback and drift code over it.
- **Backup and restore** (`Backup`, `RestorePlan`), the **audit log** (`AuditLog`),
  the **networking policy** (`RuleTable`, `Networking`, `Firewall`), the **login limiter**
  (`LoginLimiter`) and **metric labels** (`Order`, `Labels`).

Assumptions are parameters or preconditions of the statements that use them:
`randomUUID` gives fresh identifiers, one clock reading serves a whole apply run,
JSON text reads back as it was printed, audit file names sort as their times,
the clock of the login handler does not run backwards.

## What the code does not keep

Where the source or its comments promise more than the code does, the model
follows the code; a lemma gives the exact condition and another an input.

- Mutual exclusion of `withFileLock` needs holding time plus the age of a `stat`
  answer within the stale age, not holding time alone, and one crashed holder or
  one failed unlink is enough to lose it (`FileLock.ExclusionExactly`,
  `FileLock.CrashBreaksExclusion`, `FileLock.FailedUnlinkBreaksExclusion`).
- The first creation of the state file is not atomic: exactly a fault between
  opening and completing it leaves a file nothing repairs
  (`WriteQueue.AbandonedExactly`, `WriteQueue.CreationCanBeAbandoned`).
- Rollback of iptables also deletes rules that were there before the call
  (`Networking.FailedRunsRestore`, `Networking.FirstRuleLost`); the comment at
  packages/engine/src/networking.ts:272-277 says otherwise.
- `networking.masquerade.applied` is recorded by every successful live run, and by
  no other, also when nothing was inserted (`Networking.ApplyNetworking`,
  `Networking.WarmRunRecordsAgain`); the comment at
  packages/engine/src/networking.ts:108-110 says otherwise.
- A creation request with both generated keys and a public key stores a private
  key of another pair (`KeyPairs.StepKeepsPairs`, `KeyPairs.MixingHappens`).
- Two audit log rotations in one millisecond lose the file in between
  (`AuditLog.RotationKeepsSuffix`, `AuditLog.SameNameLosesEvents`).
- A forced restore of bytes that do not parse leaves them in place, and force does
  not help when the current state does not parse (`Backup.ForcedRestoreReadable`,
  `Backup.UnreadableSnapshotRestored`).

## Model

| member | source | states |
|---|---|---|
| Ipv4.Ipv4ToNumberMeaning | packages/engine/src/ip.ts:29-38 | the shift-and-or reduction accepts exactly four decimal parts of at most 255 and yields their base-256 value, always below 2^32 |
| Ipv4.NumberRoundTrip | packages/engine/src/ip.ts:29-42 | reading a printed address gives the number back, for every number below 2^32 |
| Ipv4.CidrMeaning | packages/engine/src/ip.ts:16-26 | the 32-bit mask arithmetic computes the block of the address: network rounded down to the block size, host range without network and broadcast, no wrap past 2^32, for every prefix 1 to 30 |
| Ipv4.CidrRoundTrip | packages/engine/src/ip.ts:9-27 | a printed block parses to the block of that address and prefix (notation of RFC 4632, section 3.1) |
| Ipv4.AllocatePeerAddress | packages/engine/src/ip.ts:44-54 | the counting loop returns what the allocation rule says, including which input makes it throw |
| Ipv4.AllocationMeaning | packages/engine/src/ip.ts:44-54 | the lowest unused address of the peer range is returned, and it throws exactly when every one is used |
| Ipv4.PeerRangeSize | packages/engine/src/ip.ts:44-54 | a block with prefix p has 2^(32-p) - 3 peer addresses |
| Ipv4.PeerTextInjective | packages/engine/src/ip.ts:40-50 | different addresses have different texts |
| StateStore.EngineState.CreatePeerInState | packages/engine/src/state.ts:795-898 | a peer is appended with the chosen keys, address and defaults exactly when every check passes; on a throw the working copy is as it was |
| StateStore.EngineState.SweepPeers | packages/engine/src/state.ts:324-452 | the loop over peers does to peers, events and the dedupe map what the per-peer rules say, and reports expired, revoked and soon-expiring peers in peer order |
| StateStore.EngineState.RevokeBelonging | packages/engine/src/state.ts:621-640 | the forced-deletion cascade revokes exactly the devices of that person that were still in service, one event each |
| StateStore.EngineState.PatchPerson | packages/engine/src/state.ts:501-543 | fields are assigned one by one; success means the whole patch was valid and the record is the patched one |
| StateStore.StateStore.CreatePeer | packages/engine/src/state.ts:227-240 | what is on disk afterwards is the rule for creation, the error is the first failing check, and a throw leaves the disk alone |
| StateStore.StateStore.RevokePeer | packages/engine/src/state.ts:266-287 | revokes any peer that is not deleted, bumping the revision; otherwise not found and nothing saved |
| StateStore.StateStore.DeletePeer | packages/engine/src/state.ts:242-264 | deletes any peer that is not deleted, keeping an earlier revocation time; otherwise not found and nothing saved |
| StateStore.StateStore.SweepExpired | packages/engine/src/state.ts:304-452 | the saved state is the sweep rule; the reported identifiers are listed in peer order (who they are: `SweepMeaning.SweepReports`) |
| StateStore.StateStore.CreatePerson | packages/engine/src/state.ts:460-487 | appends the person exactly when the name is valid |
| StateStore.StateStore.UpdatePerson | packages/engine/src/state.ts:489-569 | a patch that fails part-way leaves the disk alone |
| StateStore.StateStore.DeletePerson | packages/engine/src/state.ts:585-656 | archives, or with force revokes the devices and removes the person |
| StateStore.StateStore.RevokePersonDevices | packages/engine/src/state.ts:664-706 | revokes every device in service of the person and counts the others |
| StoreMeaning.CreateVerdict | packages/engine/src/state.ts:795-853 | in a state with the invariant the error of a creation is that of the first failing check: name, generated keys, key, person, address; if none fails it succeeds |
| StoreMeaning.CreateMeaning | packages/engine/src/state.ts:795-866 | the new record comes last with every field as requested or defaulted, active, and with the lowest address nobody has |
| StoreMeaning.CreateEmits | packages/engine/src/state.ts:867-895 | the one or two events of a creation |
| StoreMeaning.RevokeMeaning | packages/engine/src/state.ts:266-287 | the first record of that identifier ends revoked at that time; nothing else changes but the revision and one event; a deleted or unknown one is not found |
| StoreMeaning.DeleteMeaning | packages/engine/src/state.ts:242-264 | the same for deletion, which keeps an earlier revocation time |
| StoreMeaning.RevocationIsFinal | packages/engine/src/state.ts:242-287 | over any run after a revocation or deletion, and at any time, the peer is never in use again |
| StoreMeaning.DeletionFrees | packages/engine/src/state.ts:242-264 | after a deletion the name and the key are free and the address is added to the free ones |
| StoreMeaning.ExportMeaning | packages/engine/src/app.ts:324-345 | a configuration is exported exactly of a peer in use, which changes nothing but records one event |
| StoreMeaning.EventsKept | packages/engine/src/state.ts:739-762 | the stored events after an operation are the latest 250 of those before and those it emitted |
| StoreMeaning.ReconcileMeaning | packages/engine/src/app.ts:389-410 | a reconcile bumps the revision and records the host events before its completion |
| StoreMeaning.InitialMeaning | packages/engine/src/state.ts:900-941 | a new state lists nobody and gives the server the first host of the block |
| PersonMeaning.CreatePersonMeaning | packages/engine/src/state.ts:460-487 | the person is added in service exactly when the name is valid |
| PersonMeaning.UpdatePersonMeaning | packages/engine/src/state.ts:489-546 | an update succeeds exactly for a known person and a valid patch; the fields it names are as it says, everything else is as it was |
| PersonMeaning.UpdatePersonEmits | packages/engine/src/state.ts:548-569 | an archival event besides the update event exactly when the person leaves service |
| PersonMeaning.ArchiveMeaning | packages/engine/src/state.ts:585-619 | deletion without force archives the person, with an event only the first time |
| PersonMeaning.ForcedDeletionMeaning | packages/engine/src/state.ts:621-656 | forced deletion removes the person alone and revokes exactly the devices in service |
| PersonMeaning.ForcedDeletionEmits | packages/engine/src/state.ts:621-656 | one removal event for each of these devices, then the deletion |
| PersonMeaning.RevokeDevicesMeaning | packages/engine/src/state.ts:664-706 | exactly the devices in service of that person end revoked at that time |
| PersonMeaning.RevokedIdsMeaning | packages/engine/src/state.ts:664-706 | the answer lists exactly the devices that were in service |
| PersonMeaning.DevicesCounted | packages/engine/src/state.ts:664-706 | listed and already revoked devices together are all devices of the person |
| StoreRuns.InitialInvariant | packages/engine/src/state.ts:900-941 | the initial state satisfies the store invariant |
| StoreInvariants.StepKeepsInvariant | packages/engine/src/state.ts:227-287 | every operation keeps: distinct names, keys and addresses among non-deleted peers, every address in the peer range, revocation and deletion times exactly where the status says, links only to existing persons, at most 250 events with nondecreasing bounded revisions; the peer list only grows, identity, keys and address of a peer never change, and its status only moves from active to revoked to deleted |
| StoreInvariants.AllocatedIsNew | packages/engine/src/state.ts:844-847 | in a state with the invariant a new address is in the tunnel and differs from every non-deleted peer's |
| StoreInvariants.EvolvesTransitive | packages/engine/src/state.ts:242-287 | the comparison of peer lists that every step obeys (identity, keys and address fixed, status only advancing) composes along a run |
| StoreRuns.RunKeepsInvariant | packages/engine/src/state.ts:776-793 | over any run of operations the invariant holds and the end evolves from the start |
| StoreRuns.EventsAreRecentHistory | packages/engine/src/state.ts:739-774 | after any run the stored events are exactly the last 250 ever emitted, and emitted revisions are nondecreasing and bounded by the state's, reconcile events included |
| StoreRuns.AddressesConserved | packages/engine/src/state.ts:844-847 | in every state with the invariant, free addresses plus non-deleted peers total 2^(32-p) - 3, and allocation succeeds exactly while one is free |
| StoreRuns.ServerAddressReserved | packages/engine/src/state.ts:900-915 | no peer ever has the server's address |
| StoreRuns.WarningsAreSpaced | packages/engine/src/state.ts:422-448 | from the initial state, over any run with any clock readings and options, two expiry warnings for one peer are more than 24 hours apart |
| StoreRuns.WarningStep | packages/engine/src/state.ts:392-448 | each operation keeps the dedupe map in step with the last warning for as long as the peer can be warned about; clearing it on revocation is harmless |
| ExpirySweep.ReportedExpired | packages/engine/src/peers.ts:22-31 | the sweep reports as expired exactly the peers whose API status is expired, and none of them as expiring soon |
| ExpirySweep.SweepKeepsActivePeers | packages/engine/src/peers.ts:29-31 | a sweep never changes the list of active peers at its own time |
| ExpirySweep.RepeatedSweep | packages/engine/src/state.ts:380-420 | repeating a sweep emits nothing and changes nothing if and only if it auto-revokes or nothing was expired |
| SweepMeaning.SweepReports | packages/engine/src/state.ts:324-452 | reported as expiring soon are exactly the active peers that expire after now and within the given days, as expired exactly the active peers whose expiry has come |
| SweepMeaning.WarnsExactly | packages/engine/src/state.ts:422-441 | a warning is emitted for a peer exactly when it is so reported and its last warning is absent or more than 24 hours old |
| SweepMeaning.SweepRecords | packages/engine/src/state.ts:324-452 | for each peer the events that are due, each once, and no other |
| SweepMeaning.SweepLeaves | packages/engine/src/state.ts:345-420 | a sweep revokes exactly the expired peers, if asked to, and leaves the others and the revision alone |
| SweepMeaning.SweepRemembersExactly | packages/engine/src/state.ts:392-448 | the dedupe map afterwards, for every identifier |
| KeyPairs.StepKeepsPairs | packages/engine/src/state.ts:811-815 | a stored private key belongs to the stored public key after every operation, except exactly when a creation succeeds that both asks for generated keys and brings another public key |
| KeyPairs.RunKeepsPairs | packages/engine/src/state.ts:811-853 | over any run without such a request every stored pair matches |
| KeyPairs.MixingHappens | packages/engine/src/state.ts:811-853 | on any block and for any name, such a request succeeds in the initial state and breaks the pairing |
| WriteQueue.StepKeepsInv | packages/engine/src/state.ts:776-793 | every step of every caller, and every load outside the queue, with or without a fault, keeps the queue invariant |
| WriteQueue.UpdatesAreSerial | packages/engine/src/state.ts:776-793 | at every moment of every run at most one caller is past its wait, nobody overtakes, and a complete file is the fold, in call order, of exactly the mutators whose update succeeded |
| WriteQueue.OnlySavesWrite | packages/engine/src/state.ts:43-66 | the file changes only by creation or by a rename that goes through; any failure leaves it alone |
| WriteQueue.SomeoneCanStep | packages/engine/src/state.ts:776-793 | the first unreleased caller can always take its next step, whatever became of those before it |
| WriteQueue.UpdatesFinish | packages/engine/src/state.ts:776-793 | every caller step brings the queue closer to empty, so every update returns (and how: `WriteQueue.UpdateFailsExactly`) |
| WriteQueue.UpdateFailsExactly | packages/engine/src/state.ts:776-793 | at every moment of every run a finished update failed if and only if it met a cause: a fault at its own step, a partial file, a mutator that threw, or an outside load that removed its temporary file; every other one is committed |
| WriteQueue.AbandonedForever | packages/engine/src/state.ts:943-955 | a first creation that is cut short leaves a file no step repairs and no update survives |
| WriteQueue.AbandonedExactly | packages/engine/src/state.ts:943-955 | in every run the file is abandoned exactly when a fault came between opening it for creation and completing it |
| WriteQueue.CreationCanBeAbandoned | packages/engine/src/state.ts:943-955 | a run that reaches that situation with one fault |
| StoreQueue.FileIsAlwaysReachable | packages/engine/src/state.ts:776-793 | under any interleaving and faults a complete file holds the run of the successful store operations in call order and so satisfies the store invariant |
| StoreQueue.FoldIsRun | packages/engine/src/state.ts:776-793 | folding mutators is running store operations |
| FileLock.BodiesRunOnce | packages/engine/src/state.ts:86-128 | a caller that times out never ran its body and one that returns ran it once, with no assumption on timing or crashes (when it times out: `FileLock.DeadlineIsReached`, `FileLock.JudgementExactly`) |
| FileLock.DeadlineIsFixed | packages/engine/src/state.ts:92-92 | a new caller's deadline is the time of its arrival plus the time-out, and no step moves a deadline |
| FileLock.JudgementExactly | packages/engine/src/state.ts:109-124 | a judgement reclaims exactly a lock that looks stale, gives up exactly at or past the deadline, and otherwise sleeps |
| FileLock.DeadlineIsReached | packages/engine/src/state.ts:117-123 | in every run nobody has timed out before the deadline |
| FileLock.DeadlineIsKept | packages/engine/src/state.ts:117-124 | in every run nobody goes to sleep at or past the deadline |
| FileLock.LockIsExclusive | packages/engine/src/state.ts:86-128 | while holding time plus the age of a stat answer stay within 300000 ms, nobody crashes and no unlink after the body fails, at most one body runs, under an existing lock file of its own, and the stale branch is never taken |
| FileLock.ExclusionExactly | packages/engine/src/state.ts:86-128 | all runs without a crash or a failed unlink are exclusive if and only if holding time plus stat delay is at most 300000 ms |
| FileLock.SlowJudge | packages/engine/src/state.ts:98-124 | a stat answer that waited too long lets a waiter remove the next holder's lock although no holder was slow |
| FileLock.SlowHolder | packages/engine/src/state.ts:98-124 | a holder that outlives the stale age is joined by a waiter |
| FileLock.CrashBreaksExclusion | packages/engine/src/state.ts:98-124 | after one crash two waiters can reclaim in turn and run together, however quick everyone is |
| FileLock.FailedUnlinkBreaksExclusion | packages/engine/src/state.ts:104-124 | the same after one unlink that fails when the body is done, an error the code swallows |
| LockOrder.ProgramsDisciplined | packages/engine/src/backup.ts:365-397 | every operation, also one that throws before its update, takes backup lock, write queue and apply lock only in that order and ends with none |
| LockOrder.LocksAtWork | packages/engine/src/app.ts:389-410 | which locks each kind of operation holds whenever it does its work |
| LockOrder.StepKeepsInv | packages/engine/src/backup.ts:306-318 | each file lock keeps at most one holder and only the head of the queue is past its wait |
| LockOrder.NoWaitCycle | packages/engine/src/apply.ts:280-409 | the wait-for graph has no cycle in any reachable state |
| LockOrder.NeverDeadlocks | packages/engine/src/app.ts:389-410 | in every reachable state of any number of operations that follow the order, if one is unfinished some operation can step |
| ApplyPlan.DiffPeers | packages/engine/src/apply.ts:117-140 | the two loops compute the diff of the two maps |
| ApplyPlan.PlanApply | packages/engine/src/apply.ts:75-109 | the two loops of the plan collect the keys of the diff, for every kernel report; bootstrap exactly when the interface is absent, reconfiguration exactly when it is there on another port |
| ApplyPlan.DiffPartitions | packages/engine/src/apply.ts:84-94 | every key is added, removed, modified or unchanged, in exactly one class, and each of the three lists is without repetition |
| ApplyPlan.PatchGivesIntended | packages/engine/src/apply.ts:117-140 | applying the diff to what the kernel has gives what is intended |
| ApplyPlan.ConfigChangedMeaning | packages/engine/src/apply.ts:150-158 | for an address without commas the comparison of joined texts says that the one allowed IP is the peer's own address and the keepalive agrees |
| ApplyPlan.RenderWgIni | packages/engine/src/apply.ts:166-197 | the loop renders the header and one section per selected peer |
| ApplyPlan.RenderRoundTrip | packages/engine/src/apply.ts:166-197 | reading the rendered file back gives exactly the port, the key and the peers, a missing keepalive meaning 0 |
| Apply.CheckDuplicates | packages/engine/src/apply.ts:217-237 | the gate throws for the first peer that repeats a key or an address |
| Apply.GateMeaning | packages/engine/src/apply.ts:217-237 | the gate passes exactly when no two active peers share a key or an address |
| Apply.GateError | packages/engine/src/apply.ts:217-237 | the error is that of the first peer that repeats something, and names the address only if the key is new |
| Apply.UpsertsGoal | packages/engine/src/apply.ts:311-319 | after one sync every listed peer owns its own address and only that, however prefixes were distributed before, although a prefix goes to its last claimant |
| Apply.SyncAndRemoveConverges | packages/engine/src/apply.ts:311-356 | one sync followed by removal of the undeclared peers converges from any kernel state |
| Kernel.Host.SyncConf | packages/engine/src/apply.ts:318-318 | the model of `wg syncconf`: listed peers are upserted, none removed, and a failure may leave any prefix applied |
| Kernel.Host.Dump | packages/engine/src/runtime.ts:101-138 | the model of the runtime read: a correct report of the interface, or, when it fails, a report of no interface |
| ApplyRun.PlanOfReport | packages/engine/src/apply.ts:75-109 | from a correct report the plan adds only peers the kernel lacks, so rollback can name only those, removes exactly the undeclared ones, and modifies exactly the declared ones the kernel serves otherwise than declared |
| ApplyRun.RollbackPlan | packages/engine/src/apply.ts:417-449 | best effort: unless the link was bootstrapped it stays up and only planned additions can go; without faults exactly those go; the event is always recorded |
| ApplyRun.BootstrapInterface | packages/engine/src/apply.ts:453-480 | an interface that is already there is never touched and a failed bootstrap leaves no peers |
| ApplyRun.RemovePeer | packages/engine/src/apply.ts:495-504 | one retry; the peer is gone, or the kernel is as it was |
| ApplyRun.PushPeers | packages/engine/src/apply.ts:311-356 | sync and removals: the exact kernel and actions on success; on failure which error, which events and what can be missing |
| ApplyRun.Drive | packages/engine/src/apply.ts:293-356 | from the plan to the last removal: success means converged and the exact list of actions; failure means a command failed, with the rollback recorded exactly for typed errors; active peers being served are kept either way |
| ApplyRun.SettleDrift | packages/engine/src/apply.ts:375-390 | drift is reported exactly when port or public key differ, and only port drift rolls back: then planned additions go and nothing else, or a bootstrapped link as a whole |
| ApplyRun.DriftMeaning | packages/engine/src/apply.ts:375-390 | which differences count as drift, and what is recorded for them |
| ApplyRun.ApplyLive | packages/engine/src/apply.ts:280-409 | the whole live run under any faults: success implies the kernel holds exactly the active peers each with its own address, and reports what was added, removed and modified; without faults it succeeds, and reports ok exactly when the private key in the kernel belongs to the declared public key; no served active peer is lost; events are appended under the cap |
| ApplyOutcome.ExecuteApply | packages/engine/src/apply.ts:208-410 | duplicates, dry run and a disabled host touch nothing; otherwise the live guarantees hold, and success means of the declared state itself: the interface serves every active peer that has not expired, with its own address and keepalive, and nobody else; whatever happens, such a peer that was served still is |
| Records.StatusMeaning | packages/engine/src/peers.ts:22-31 | a peer is active for the API exactly when its stored status is and its expiry, if it has a readable one, lies ahead |
| Records.ActiveMembers | packages/engine/src/runtime.ts:145-145 | the active list holds exactly the peers in use, each as often as it is declared |
| Records.ActiveInOrder | packages/engine/src/runtime.ts:145-145 | and in the order of the declared list |
| ApplyOutcome.ConvergedServes | packages/engine/src/apply.ts:311-356 | a converged interface serves exactly the declared peers in use, each with its own address and keepalive |
| ApplyOutcome.ServedInUse | packages/engine/src/apply.ts:311-356 | what no apply takes away, said of the declared peers |
| ApplyOutcome.ActiveDistinct | packages/engine/src/apply.ts:217-237 | the gate passes exactly when no two declared peers in use share a key or an address |
| ApplyOutcome.ActiveCount | packages/engine/src/runtime.ts:145-145 | the number of active peers is the number of declared peers in use |
| ApplyOutcome.ReportMeaning | packages/engine/src/apply.ts:280-409 | what a completed run reports, counted against the kernel before it and the declared peers: created, reconfigured, synced, removed, added, drifted |
| ApplyOutcome.DryRunFindsNothing | packages/engine/src/apply.ts:592-611 | the dry run compares declared peers with themselves, so its diff is always empty |
| ApplyOutcome.GenuineRunIsOk | packages/engine/src/apply.ts:293-390 | with a declared key pair that is a pair, a run without faults that has anything to push reports ok |
| ApplyOutcome.ForeignKeyStays | packages/engine/src/apply.ts:311-314 | with no peers on either side and the port as declared nothing is pushed, so a foreign key stays and each run reports the drift |
| ApplyOutcome.ConvergedPlanEmpty | packages/engine/src/apply.ts:75-158 | after convergence a new plan from whatever the kernel reports is empty: no bootstrap, reconfiguration, addition, removal or modification |
| ApplyOutcome.ApplyIsFinal | packages/engine/src/apply.ts:75-158 | the same in every state the store can reach |
| ApplyOutcome.GatesNeverFire | packages/engine/src/runtime.ts:147-154 | in every state with the store invariant the duplicate gates never fire |
| ApplyOutcome.SweepKeepsConfig | packages/engine/src/apply.ts:166-197 | an expiry sweep leaves the rendered configuration unchanged |
| Reconcile.DuplicateErrors | packages/engine/src/runtime.ts:147-154 | the gate reports a key error exactly when a key is repeated and an address error exactly when an address is |
| Reconcile.Reconcile | packages/engine/src/runtime.ts:141-221 | dry run and duplicates touch neither kernel nor rules; networking runs only after a successful apply; an applied live run serves exactly the declared peers in use, and a result without errors means also that, with NAT on, every managed rule and forwarding are in force |
| Reconcile.ReconcileRequest | packages/engine/src/app.ts:389-410 | the state after the request is the store's reconcile rule with the events emitted on the way |
| Backup.BackupStorage.Load | packages/engine/src/state.ts:173-205 | reads the file, or creates it with the initial state; a failed creation may leave it torn |
| Backup.BackupStorage.ReadVerified | packages/engine/src/backup.ts:426-434 | succeeds only for a snapshot whose manifest names the digest of its bytes; without faults, exactly for those, and a manifest that names another digest is a mismatch |
| Backup.BackupStorage.TakeSafetySnapshot | packages/engine/src/backup.ts:291-304 | the snapshot appears whole or not at all; it names the digest of exactly its bytes, and these read as the current state |
| Backup.BackupStorage.Overwrite | packages/engine/src/backup.ts:452-475 | success means the snapshot plus one event, failure the previous content or the bare snapshot |
| Backup.BackupStorage.Recover | packages/engine/src/backup.ts:509-533 | puts the safety snapshot back with one failure event, or reports that a step broke |
| Backup.BackupStorage.BackupRestore | packages/engine/src/backup.ts:423-537 | with a fault possible at every file operation: the file, at every moment, is the old state, the old state plus a failure event, the snapshot, or the snapshot plus a restore event; success is the last; completed recovery is the second; a recovery breaks only by a fault of its own; one fault never loses the old state; a mismatch, apply:false or an unreadable current file changes nothing; after an unforced success the safety snapshot can be restored |
| Backup.BackupStorage.RestoreAndUndo | packages/engine/src/backup.ts:423-480 | restoring, without faults, the safety snapshot a restore took brings back the state before it plus one restore event |
| Backup.NotedMeaning | packages/engine/src/backup.ts:456-470 | the file after a restore or a recovery reads as that state with one event of that kind, under the cap |
| Backup.ForcedRestoreReadable | packages/engine/src/backup.ts:445-475 | a forced restore without faults leaves a readable file if and only if both the file before it and the snapshot are readable |
| Backup.UnreadableSnapshotRestored | packages/engine/src/backup.ts:426-475 | the input: a snapshot that passes the checksum and does not parse replaces a good file |
| RestorePlan.ComputePeerDiff | packages/engine/src/backup.ts:331-362 | the loops compute the diff of the non-deleted peers of two states and the list of affected keys |
| RestorePlan.RestoreDiffPartitions | packages/engine/src/backup.ts:331-362 | each live key of either state is in exactly one class and listed once as affected |
| RestorePlan.UnlistedPeersAgree | packages/engine/src/backup.ts:320-329 | a key in both states is listed as modified exactly when the two records differ in name, address, status, expiry, keepalive, allowed IPs or DNS servers |
| RestorePlan.PlanPredictsRestore | packages/engine/src/backup.ts:539-580 | the peers of the restored file are the current ones without the removed and with the added |
| RestorePlan.RestoreKeepsInvariant | packages/engine/src/backup.ts:423-537 | if the state before and the snapshot satisfy the store invariant, so does whatever can be read from the file at any moment of a restore |
| AuditLog.AuditStore.Append | packages/engine/src/audit-store.ts:201-218 | one append, rotating when the file exceeds the limit, does to the directory what the rule says |
| AuditLog.AuditStore.Rotate | packages/engine/src/audit-store.ts:180-192 | rotates exactly when a file is open and over the limit |
| AuditLog.AuditStore.PruneOldFiles | packages/engine/src/audit-store.ts:250-267 | keeps the newest names up to the retention count and deletes all others |
| AuditLog.DirectoryRefinesLog | packages/engine/src/audit-store.ts:201-267 | from an empty directory, if the times of the rotations increase, the files on disk are those of the list model after every append |
| AuditLog.RetainedIsSuffix | packages/engine/src/audit-store.ts:201-267 | rotated files in name order and then the current file are the end of the history |
| AuditLog.AlwaysBounded | packages/engine/src/audit-store.ts:201-267 | at most the retention count of rotated files, a current file within the limit, every rotated file over it by at most one line |
| AuditLog.DiskBound | packages/engine/src/audit-store.ts:201-267 | total size is at most retention * (limit + longest line) + limit, and nothing is dropped before retention * limit bytes are kept |
| AuditLog.SameNameReplaces | packages/engine/src/audit-store.ts:226-240 | a rotation in the millisecond of the last one replaces that file, whatever it held |
| AuditLog.RotationKeepsSuffix | packages/engine/src/audit-store.ts:220-267 | with a clock that does not go back, a rotation leaves the end of the history if and only if its name is new, or at most one file is retained, or the replaced file was the only one |
| AuditLog.RunKeepsSuffixExactly | packages/engine/src/audit-store.ts:201-267 | the same at any point of a run from an empty directory |
| AuditLog.SameNameLosesEvents | packages/engine/src/audit-store.ts:226-240 | three appends from an empty directory, the last two rotated in one millisecond, after which the second event is gone and the first is not |
| Networking.InsertIdempotentRule | packages/engine/src/networking.ts:400-414 | an existing rule is left alone, a missing one appended, a failed append changes nothing |
| Networking.EnsureRules | packages/engine/src/networking.ts:211-225 | the loop leaves its rules present, each added at most once and, when checks are right, exactly when missing |
| Networking.RollbackNetworking | packages/engine/src/networking.ts:287-306 | deletes the first match of each rule the markers name, for the egress it resolves itself |
| Networking.RollbackSpecs | packages/engine/src/networking.ts:287-306 | the rules a rollback deletes do not depend on the egress interface it resolves |
| Networking.EgressMeaning | packages/engine/src/networking.ts:163-168 | the configured egress interface wins unless it is empty, then the default route |
| Firewall.ManagedRules | packages/engine/src/networking.ts:361-391 | which packets each managed rule matches and what it does to them |
| Firewall.PolicyInForce | packages/engine/src/networking.ts:361-391 | wherever the four rules are in place, in any order and number, a packet no other rule matches is accepted if its connection is known or opened from the tunnel, dropped if invalid, else left alone, and masqueraded exactly if it leaves the tunnel block by the egress interface |
| Networking.RecordedOnce | packages/engine/src/networking.ts:187-257 | what a live call records, each event once: forwarding exactly if it was off, masquerade and policy exactly on success, rollback exactly when a rule failed |
| RuleTable.ForeignCount | packages/engine/src/networking.ts:287-306 | what is compared of other rules is each of them, as often as it is in the table |
| RuleTable.ForeignInOrder | packages/engine/src/networking.ts:287-306 | and in its order |
| Networking.ApplyNetworking | packages/engine/src/networking.ts:116-270 | success: all managed rules present, absent ones added once, others in order; failure with working deletes: no rule more often than before, foreign rules untouched; skip and dry run touch nothing; the masquerade event is recorded exactly by a successful live run |
| Networking.SecondRunInsertsNothing | packages/engine/src/networking.ts:105-115 | a second call after a successful one, with checks that are right, succeeds and leaves the table as it is |
| Networking.WarmRunRecordsAgain | packages/engine/src/networking.ts:211-257 | on a table that holds all managed rules a live run appends nothing and records the masquerade event all the same |
| Networking.FailedRunFailsAt | packages/engine/src/networking.ts:227-247 | a failed run whose checks and deletions work stopped at a missing rule and deleted one copy of each rule before it |
| Networking.FailedRunRestores | packages/engine/src/networking.ts:272-306 | such a run restores the table if and only if none of the rules it deletes had been there before |
| Networking.FailedRunsRestore | packages/engine/src/networking.ts:272-306 | every such run on a table restores it if and only if no managed rule in it comes before one that is missing, contrary to the comment in the source |
| Networking.FailedRunLoses | packages/engine/src/networking.ts:272-306 | each deleted rule that had been there is lost once |
| Networking.FirstRuleLost | packages/engine/src/networking.ts:272-306 | an example: with only the first rule in place, failing at the second empties the table |
| LoginLimiter.Limiter.Login | packages/admin/src/app.ts:61-95 | one attempt changes only its own key and follows the window rule, with the clock read twice; eight failures in an open window turn it away, else the right token logs in |
| LoginLimiter.TurnedAwayExactly | packages/admin/src/app.ts:61-75 | over any run an attempt is turned away exactly when the last window of failures since the last login holds eight and has not passed; otherwise the token alone decides |
| LoginLimiter.RightTokenLogsIn | packages/admin/src/app.ts:61-75 | the right token logs in whenever fewer than eight failures were recorded since the last login, and ten minutes after the last of them at the latest |
| LoginLimiter.CountIsCapped | packages/admin/src/app.ts:573-591 | over any run with a clock that never goes back the stored count is at most 8 |
| LoginLimiter.GuessesAreBounded | packages/admin/src/app.ts:61-75 | between two successful logins any interval of at most ten minutes has at most 15 evaluated failures |
| LoginLimiter.FifteenHappens | packages/admin/src/app.ts:583-591 | 15 is reached, within two milliseconds |
| Labels.EscapeIsSimultaneous | packages/engine/src/metrics.ts:298-303 | the three replacements one after the other are one character map |
| Labels.UnescapeEscape | packages/engine/src/metrics.ts:298-303 | that map has an inverse |
| Labels.RenderAllInjective | packages/engine/src/metrics.ts:292-296 | lists of labels whose names lack an equals sign followed by a quote have different texts |
| Labels.SerializeIdentifies | packages/engine/src/metrics.ts:292-296 | two label records get one text exactly when they hold the same labels in any order, given such names |
| Labels.OpeningInName | packages/engine/src/metrics.ts:292-296 | with an equals sign and a quote in a name two different records can share a text |
| Labels.Counter.Get | packages/engine/src/metrics.ts:198-201 | what is read for a set of labels is the sum of all changes made to it since the last reset, in whatever order its labels were given, for names without an equals sign followed by a quote |
| Labels.Counter.Delta | packages/engine/src/metrics.ts:179-191 | a change to one set of labels changes that value and no other |

## Left out

- StateStore.StateStore.CreatePeer: takes the parsed and validated request; the field-by-field parsing of request bodies is not modelled.
- StateStore.EngineState.CreatePeerInState: peers are values in a sequence rather than objects, so aliasing between a returned record and the stored one is not captured.
- Apply.UpsertsGoal: prefixes are compared as texts, which is what the engine renders; a kernel that spells a prefix differently is outside the model.
- Kernel.Host.SyncConf: the kernel is a model of the parts the engine reads and writes; endpoints, handshakes and transfer counters are absent.
- ApplyRun.Sync: a temporary file that cannot be removed afterwards, which makes the source throw although the command went through, is not modelled; nor is it in bootstrap.
- ApplyRun.ApplyLive: the apply lock around it is part of `FileLock` and `LockOrder`, not of this method.
- Backup.BackupStorage.BackupRestore: no update runs at the same time (the source loads and saves outside the write queue), the reconcile that follows is an input, and the events that reconcile emits are not saved, as in the source.
- RestorePlan.UnlistedPeersAgree: expiry dates are compared as instants, while the source compares their texts.
- Firewall.PolicyInForce: an interface name ending in `+`, which iptables takes as a prefix, is compared as a whole; rules of others that match are outside the statement.
- LockOrder.NeverDeadlocks: lock time-outs and stale reclaim are left to `FileLock`; here a wait lasts until the holder releases.
- FileLock.LockIsExclusive: assumes that nobody crashes and no unlink fails, without which it is false; a body that itself throws EEXIST, which the source would take for contention, is excluded.
- WriteQueue.UpdatesAreSerial: mutators do not call `update` themselves.
- AuditLog.AuditStore.Append: file operations succeed; a failed write is logged and dropped by the source.
- AuditLog.AuditStore.Rotate: runs after the appends before it; in the source, appends made while it looks at the file can be interleaved.
- Labels.SerializeIdentifies: names are ordered by character, which is the source's order for characters of the basic plane.
- Event identifiers and metadata, and the audit sink, are not part of the events here; action, actor, target, revision and time are.
- Dates are integer milliseconds; SHA-256, JSON text and key derivation are functions with the laws stated where used.
- Creation, listing, import, export and deletion of snapshots, and retention pruning, beyond their locks.
- The query side of the audit log, metrics rendering, gauges and histograms.
- HTTP routing, sessions, CSRF, pages, environment reading, health probes and the engine client.
