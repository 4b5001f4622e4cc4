// executeApply as a whole, and what holds after it: nothing left to plan, and
// gates that stay shut in every state the store can reach.
module ApplyOutcome {
  import opened Wrappers
  import opened Text
  import opened Records
  import opened Kernel
  import opened ApplyPlan
  import opened Apply
  import opened ApplyRun
  import opened HostAudit
  import Ipv4
  import Rules = StoreRules
  import Invariants = StoreInvariants
  import ExpirySweep
  import Store = StateStore

  // ── The dry run ──────────────────────────────────────────────────────────

  function RowOf(peer: PeerRecord): RuntimePeer {
    RuntimePeer(peer.publicKey, [peer.addressV4], Some(peer.persistentKeepalive))
  }

  function DryRunRows(peers: seq<PeerRecord>): (r: seq<RuntimePeer>)
    ensures |r| == |peers| && forall i | 0 <= i < |r| :: r[i] == RowOf(peers[i])
  {
    seq(|peers|, i requires 0 <= i < |peers| => RowOf(peers[i]))
  }

  lemma {:induction false} DryRunMaps(peers: seq<PeerRecord>)
    ensures PeersByKey(peers).Keys == RowsByKey(DryRunRows(peers)).Keys
    ensures forall k | k in PeersByKey(peers) :: RowsByKey(DryRunRows(peers))[k] == RowOf(PeersByKey(peers)[k])
  {
    if peers != [] {
      var init, last := peers[..|peers| - 1], peers[|peers| - 1];
      DryRunMaps(init);
      assert DryRunRows(peers)[..|peers| - 1] == DryRunRows(init);
      assert RowsByKey(DryRunRows(peers)) == RowsByKey(DryRunRows(init))[last.publicKey := RowOf(last)];
      assert PeersByKey(peers) == PeersByKey(init)[last.publicKey := last];
      hide RowsByKey, PeersByKey, DryRunRows;
    }
  }

  // The dry run compares the declared peers with themselves: its diff is empty
  // whatever the kernel holds.
  lemma DryRunFindsNothing(peers: seq<PeerRecord>)
    ensures Diff(peers, DryRunRows(peers)) == PeerDiff([], [], [])
  {
    hide Diff, PeersByKey, RowsByKey, DryRunRows;
    var d := Diff(peers, DryRunRows(peers));
    forall k ensures k !in d.added && k !in d.removed && k !in d.modified {
      DiffPartitions(peers, DryRunRows(peers), k);
      DryRunMaps(peers);
    }
    NoMembers(d.added);
    NoMembers(d.removed);
    NoMembers(d.modified);
  }

  lemma NoMembers(keys: seq<Key>)
    ensures keys == [] || exists k :: k in keys
  {
    if keys != [] { assert keys[0] in keys; }
  }

  // ── What a successful run means ──────────────────────────────────────────

  lemma MemberAt<T>(list: seq<T>, x: T) returns (i: nat)
    requires x in list
    ensures i < |list| && list[i] == x
  {
    i :| 0 <= i < |list| && list[i] == x;
  }

  // Each declared peer owns exactly its own address.
  lemma {:induction false} GoalOf(peers: seq<PeerRecord>, i: nat, p: Prefix)
    requires NoDuplicates(peers) && i < |peers|
    ensures peers[i].publicKey in KeepaliveOf(peers) &&
            KeepaliveOf(peers)[peers[i].publicKey] == peers[i].persistentKeepalive
    ensures p in OwnerOf(peers) && OwnerOf(peers)[p] == peers[i].publicKey <==> p == peers[i].addressV4
  {
    var init, last := peers[..|peers| - 1], peers[|peers| - 1];
    GoalKeys(init);
    if i < |init| {
      GoalOf(init, i, p);
      assert last.publicKey != peers[i].publicKey && last.addressV4 != peers[i].addressV4;
    } else {
      assert last.publicKey !in PublicKeys(init);
    }
  }

  // The interface serves every peer in use, with its own address and keepalive
  // and nothing else, and it serves nobody else.
  ghost predicate ServesInUse(link: Link, server: ServerSettings, peers: seq<PeerRecord>, now: Millis) {
    && link.up && link.port == server.listenPort
    && (forall i | 0 <= i < |peers| && InUse(peers[i], now) ::
          && peers[i].publicKey in link.keepalive
          && link.keepalive[peers[i].publicKey] == peers[i].persistentKeepalive
          && (forall a :: a in link.owner && link.owner[a] == peers[i].publicKey <==> a == peers[i].addressV4))
    && (forall k | k in link.keepalive ::
          exists i | 0 <= i < |peers| :: InUse(peers[i], now) && peers[i].publicKey == k)
    && (forall a | a in link.owner :: link.owner[a] in link.keepalive)
  }

  lemma ConvergedServes(link: Link, server: ServerSettings, peers: seq<PeerRecord>, now: Millis)
    requires Converged(link, server, ActivePeers(peers, now)) && NoDuplicates(ActivePeers(peers, now))
    ensures ServesInUse(link, server, peers, now)
  {
    hide ActivePeers, InUse, KeepaliveOf, OwnerOf, NoDuplicates;
    var active := ActivePeers(peers, now);
    GoalKeys(active);
    forall i | 0 <= i < |peers| && InUse(peers[i], now)
      ensures peers[i].publicKey in link.keepalive
      ensures link.keepalive[peers[i].publicKey] == peers[i].persistentKeepalive
      ensures forall a :: a in link.owner && link.owner[a] == peers[i].publicKey <==> a == peers[i].addressV4
    {
      ActiveMembers(peers, now, peers[i]);
      var j := MemberAt(active, peers[i]);
      forall a ensures a in link.owner && link.owner[a] == peers[i].publicKey <==> a == peers[i].addressV4 {
        GoalOf(active, j, a);
      }
      GoalOf(active, j, peers[i].addressV4);
    }
    forall k | k in link.keepalive
      ensures exists i | 0 <= i < |peers| :: InUse(peers[i], now) && peers[i].publicKey == k
    {
      var j := MemberAt(PublicKeys(active), k);
      ActiveMembers(peers, now, active[j]);
      var i := MemberAt(peers, active[j]);
    }
  }

  // Whatever went wrong, a peer in use that was served still is.
  ghost predicate StillServes(before: Link, after: Link, peers: seq<PeerRecord>, now: Millis) {
    before.up ==>
      && after.up
      && forall i | 0 <= i < |peers| && InUse(peers[i], now) && peers[i].publicKey in before.keepalive ::
           peers[i].publicKey in after.keepalive
  }

  lemma ServedInUse(before: Link, after: Link, peers: seq<PeerRecord>, now: Millis)
    requires Served(before, after, ActivePeers(peers, now))
    ensures StillServes(before, after, peers, now)
  {
    hide ActivePeers, InUse;
    forall i | 0 <= i < |peers| && InUse(peers[i], now)
      ensures peers[i].publicKey in PublicKeys(ActivePeers(peers, now))
    {
      ActiveMembers(peers, now, peers[i]);
      var j := MemberAt(ActivePeers(peers, now), peers[i]);
      assert PublicKeys(ActivePeers(peers, now))[j] == peers[i].publicKey;
    }
  }

  // The keys of the peers in use.
  ghost function KeysInUse(peers: seq<PeerRecord>, now: Millis): set<Key> {
    set i | 0 <= i < |peers| && InUse(peers[i], now) :: peers[i].publicKey
  }

  lemma ActiveKeys(peers: seq<PeerRecord>, now: Millis)
    ensures forall k :: k in PublicKeys(ActivePeers(peers, now)) <==> k in KeysInUse(peers, now)
    ensures ActivePeers(peers, now) == [] <==> KeysInUse(peers, now) == {}
  {
    hide ActivePeers, InUse;
    var active := ActivePeers(peers, now);
    forall k ensures k in PublicKeys(active) <==> k in KeysInUse(peers, now) {
      if k in PublicKeys(active) {
        var j := MemberAt(PublicKeys(active), k);
        ActiveMembers(peers, now, active[j]);
        var i := MemberAt(peers, active[j]);
      }
      if k in KeysInUse(peers, now) {
        var i :| 0 <= i < |peers| && InUse(peers[i], now) && peers[i].publicKey == k;
        ActiveMembers(peers, now, peers[i]);
        var j := MemberAt(active, peers[i]);
        assert PublicKeys(active)[j] == k;
      }
    }
    if active != [] { assert PublicKeys(active)[0] in KeysInUse(peers, now); }
    if KeysInUse(peers, now) != {} {
      var k :| k in KeysInUse(peers, now);
      assert k in PublicKeys(active);
    }
  }

  ghost function PlacesInUse(peers: seq<PeerRecord>, now: Millis): set<nat> {
    set i: nat | i < |peers| && InUse(peers[i], now)
  }

  lemma PlacesOneMore(init: seq<PeerRecord>, last: PeerRecord, now: Millis)
    ensures PlacesInUse(init + [last], now) == PlacesInUse(init, now) + if InUse(last, now) then {|init|} else {}
  {
    hide InUse;
    var all := init + [last];
    assert all[|init|] == last && forall i | 0 <= i < |init| :: all[i] == init[i];
  }

  lemma {:induction false} ActiveCount(peers: seq<PeerRecord>, now: Millis)
    ensures |ActivePeers(peers, now)| == |PlacesInUse(peers, now)|
  {
    if peers != [] {
      var init, last := peers[..|peers| - 1], peers[|peers| - 1];
      assert |ActivePeers([last], now)| == (if InUse(last, now) then 1 else 0) by { StatusMeaning(last, now); }
      hide InUse, PlacesInUse, ActivePeers, IsPeerActive;
      ActiveCount(init, now);
      ActiveInOrder(init, [last], now);
      PlacesOneMore(init, last, now);
      assert init + [last] == peers;
      assert |init| !in PlacesInUse(init, now) by { NoPlaceBeyond(init, now); }
    } else {
      NoPlaceBeyond(peers, now);
    }
  }

  lemma NoPlaceBeyond(peers: seq<PeerRecord>, now: Millis)
    ensures |peers| !in PlacesInUse(peers, now) && (peers == [] ==> PlacesInUse(peers, now) == {})
  {
    hide InUse;
  }

  ghost function Times(actions: seq<AuditAction>, x: AuditAction): nat { multiset(actions)[x] }

  // What a completed run reports is what it found and did: the interface
  // created, reconfigured or neither; a sync exactly when there was a peer on
  // either side; one action for every peer that was missing or undeclared.
  lemma ReportMeaning(before: Link, after: Link, server: ServerSettings, peers: seq<PeerRecord>, now: Millis,
                      r: ApplyResult, emitted: seq<AuditAction>, publicOf: string -> string)
    requires Wired(before) && Completed(before, after, server, ActivePeers(peers, now), r, emitted, publicOf)
    ensures r.bootstrap == !before.up
    ensures forall k :: k in r.peerChanges.added <==> k in KeysInUse(peers, now) && k !in before.keepalive
    ensures forall k :: k in r.peerChanges.removed <==> k in before.keepalive && k !in KeysInUse(peers, now)
    ensures Times(r.actionsExecuted, ApplyInterfaceCreated) == if before.up then 0 else 1
    ensures Times(r.actionsExecuted, ApplyInterfaceReconfigured) ==
            if before.up && before.port != server.listenPort then 1 else 0
    ensures Times(r.actionsExecuted, ApplyPeerSynced) ==
            if KeysInUse(peers, now) == {} && before.keepalive == map[] then 0 else 1
    ensures Times(r.actionsExecuted, ApplyPeerRemoved) == |r.peerChanges.removed|
    ensures Times(r.actionsExecuted, ApplyPeerAdded) == |r.peerChanges.added|
    ensures ApplyDriftDetected in emitted <==> !r.ok
    ensures r.ok ==> emitted == r.actionsExecuted
    ensures r.drift != [DumpUnavailable] ==>
              (r.ok <==> publicOf(after.privateKey) in ["", server.serverPublicKey])
    ensures after.privateKey != before.privateKey ==> after.privateKey == server.serverPrivateKey
  {
    hide ActivePeers, PublicKeys, KeysInUse, Converged, ModifiesFit, DriveActions, Repeat, DriftEvents, DriftOf, Times;
    var active := ActivePeers(peers, now);
    ActiveKeys(peers, now);
    var plan := Plan(r.bootstrap, before.up && before.port != server.listenPort, r.peerChanges.added,
      r.peerChanges.removed, r.peerChanges.modified);
    SyncNeeded(before, server, active, plan);
    CountActions(plan, active, ApplyInterfaceCreated);
    CountActions(plan, active, ApplyInterfaceReconfigured);
    CountActions(plan, active, ApplyPeerSynced);
    CountActions(plan, active, ApplyPeerRemoved);
    CountActions(plan, active, ApplyPeerAdded);
    DriftReported(before, after, server, active, r, emitted, publicOf, plan);
  }

  lemma DriftReported(before: Link, after: Link, server: ServerSettings, active: seq<PeerRecord>, r: ApplyResult,
                      emitted: seq<AuditAction>, publicOf: string -> string, plan: Plan)
    requires Completed(before, after, server, active, r, emitted, publicOf)
    requires plan == Plan(r.bootstrap, before.up && before.port != server.listenPort, r.peerChanges.added,
      r.peerChanges.removed, r.peerChanges.modified)
    ensures ApplyDriftDetected in emitted <==> !r.ok
    ensures r.ok ==> emitted == r.actionsExecuted
    ensures r.drift != [DumpUnavailable] ==> (r.ok <==> publicOf(after.privateKey) in ["", server.serverPublicKey])
  {
    hide PlanFits, Converged, DriveActions, Repeat, DriftOf, Times, KeyAfter;
    CountActions(plan, active, ApplyDriftDetected);
    NotReported(r.actionsExecuted, ApplyDriftDetected);
    if r.drift != [DumpUnavailable] { OkMeansKeyAgrees(before, after, server, active, r, emitted, publicOf); }
    assert r.drift != [] ==> DriftEvents(r.drift)[0] == ApplyDriftDetected;
  }

  lemma NotReported(actions: seq<AuditAction>, x: AuditAction)
    ensures Times(actions, x) == 0 <==> x !in actions
  {
    assert x in actions <==> x in multiset(actions);
  }

  lemma SyncNeeded(before: Link, server: ServerSettings, active: seq<PeerRecord>, plan: Plan)
    requires PlanFits(before, server, active, plan)
    ensures NeedsSync(plan, active) <==> active != [] || before.keepalive != map[]
  {
    if active == [] && before.keepalive != map[] {
      var k :| k in before.keepalive;
      assert PublicKeys(active) == [];
      assert k in plan.removePeers;
    }
    if plan.removePeers != [] { assert plan.removePeers[0] in before.keepalive; }
  }

  lemma {:induction false} CountRepeat(action: AuditAction, n: nat, x: AuditAction)
    ensures Times(Repeat(action, n), x) == if x == action then n else 0
  {
    if n > 0 {
      CountRepeat(action, n - 1, x);
      assert Repeat(action, n) == Repeat(action, n - 1) + [action];
    }
  }

  lemma CountFirst(plan: Plan, active: seq<PeerRecord>, x: AuditAction)
    ensures Times(InterfaceActions(plan), x) ==
            if plan.bootstrap then (if x == ApplyInterfaceCreated then 1 else 0)
            else if plan.reconfigureInterface && x == ApplyInterfaceReconfigured then 1
            else 0
    ensures Times(SyncActions(plan, active), x) == if NeedsSync(plan, active) && x == ApplyPeerSynced then 1 else 0
  {
    hide NeedsSync;
  }

  lemma CountParts(a: seq<AuditAction>, b: seq<AuditAction>, c: seq<AuditAction>, d: seq<AuditAction>, x: AuditAction)
    ensures Times(a + b + c + d, x) == Times(a, x) + Times(b, x) + Times(c, x) + Times(d, x)
  {
  }

  // How often a run that completes reports an action.
  lemma CountActions(plan: Plan, active: seq<PeerRecord>, x: AuditAction)
    ensures var n := Times(DriveActions(plan, active) + Repeat(ApplyPeerAdded, |plan.addPeers|), x);
            && (x == ApplyInterfaceCreated ==> n == if plan.bootstrap then 1 else 0)
            && (x == ApplyInterfaceReconfigured ==> n == if !plan.bootstrap && plan.reconfigureInterface then 1 else 0)
            && (x == ApplyPeerSynced ==> n == if NeedsSync(plan, active) then 1 else 0)
            && (x == ApplyPeerRemoved ==> n == |plan.removePeers|)
            && (x == ApplyPeerAdded ==> n == |plan.addPeers|)
            && (x == ApplyDriftDetected ==> n == 0)
  {
    hide Times, Repeat, NeedsSync, InterfaceActions, SyncActions;
    var removed, added := Repeat(ApplyPeerRemoved, |plan.removePeers|), Repeat(ApplyPeerAdded, |plan.addPeers|);
    CountFirst(plan, active, x);
    CountRepeat(ApplyPeerRemoved, |plan.removePeers|, x);
    CountRepeat(ApplyPeerAdded, |plan.addPeers|, x);
    CountParts(InterfaceActions(plan), SyncActions(plan, active), removed, added, x);
  }

  // ── executeApply ─────────────────────────────────────────────────────────

  method ExecuteApply(state: Store.EngineState, host: Host, dryRun: bool, hostEnabled: bool,
                      publicOf: string -> string, now: Millis)
    returns (r: Result<ApplyResult, ApplyError>, emitted: seq<AuditAction>)
    requires Wired(host.link)
    modifies host, state`events
    ensures Wired(host.link)
    ensures var active := ActivePeers(state.peers, now);
            if !NoDuplicates(active) then r.Failure? && FirstDuplicate(active) == Some(r.error)
            else if dryRun then r == Success(ApplyResult(true, true, false, [], PeerDiff([], [], []), []))
            else if !hostEnabled then r == Failure(DryRunOnly)
            else
              && (r.Success? ==> Completed(old(host.link), host.link, state.server, active, r.value, emitted, publicOf))
              && (r.Failure? || DumpUnavailable in r.value.drift ==> host.failed)
              && (!host.failed ==>
                    r.Success? &&
                      (r.value.ok <==> publicOf(host.link.privateKey) in ["", state.server.serverPublicKey]))
              && (r.Failure? ==> Aborted(r.error, emitted) && Undeclared(old(host.link), active, r.error))
              && Served(old(host.link), host.link, active)
    ensures !NoDuplicates(ActivePeers(state.peers, now)) || dryRun || !hostEnabled ==>
              host.link == old(host.link) && host.failed == old(host.failed) && emitted == []
    ensures r.Success? ==> DistinctInUse(state.peers, now)
    ensures r.Success? && !dryRun ==> ServesInUse(host.link, state.server, state.peers, now)
    ensures StillServes(old(host.link), host.link, state.peers, now)
    ensures Recorded(old(state.events), state.events, emitted, state.revision, now)
  {
    hide Recorded, ActivePeers, NoDuplicates, FirstDuplicate, Wired, Completed, Served, Aborted, Undeclared, Diff,
         DryRunRows, RenderedLines, InUse, DistinctInUse, ServesInUse;
    RecordedNone(state.events, state.revision, now);
    var active := ActivePeers(state.peers, now);
    GateMeaning(active);
    ActiveDistinct(state.peers, now);
    var duplicate := CheckDuplicates(active);
    if duplicate.Some? { return Failure(duplicate.value), []; }
    if dryRun {
      var runtime := RuntimeState(true, Some(state.server.listenPort), DryRunRows(active));
      var diff := DiffPeers(active, runtime.peers);
      var plan := PlanApply(state.View(), runtime, now);
      var _ := RenderWgIni(state.View(), true, now);
      DryRunFindsNothing(active);
      return Success(ApplyResult(true, true, plan.bootstrap, [], diff, [])), [];
    }
    if !hostEnabled { return Failure(DryRunOnly), []; }
    r, emitted := ApplyLive(state, host, publicOf, now);
    ServedInUse(old(host.link), host.link, state.peers, now);
    if r.Success? {
      CompletedConverges(old(host.link), host.link, state.server, active, r.value, emitted, publicOf);
      ConvergedServes(host.link, state.server, state.peers, now);
    }
  }

  lemma CompletedConverges(before: Link, after: Link, server: ServerSettings, active: seq<PeerRecord>, r: ApplyResult,
                           emitted: seq<AuditAction>, publicOf: string -> string)
    requires Completed(before, after, server, active, r, emitted, publicOf)
    ensures Converged(after, server, active)
  {
  }

  // Without faults, and with a declared key pair that is a pair, a run that
  // pushes anything reports `ok`.
  lemma GenuineRunIsOk(before: Link, after: Link, server: ServerSettings, active: seq<PeerRecord>, r: ApplyResult,
                       emitted: seq<AuditAction>, publicOf: string -> string)
    requires Completed(before, after, server, active, r, emitted, publicOf) && r.drift != [DumpUnavailable]
    requires publicOf(server.serverPrivateKey) == server.serverPublicKey
    requires active != [] || !before.up || before.port != server.listenPort || before.keepalive != map[]
    ensures r.ok
  {
    hide DriveActions, Converged, ModifiesFit;
    OkMeansKeyAgrees(before, after, server, active, r, emitted, publicOf);
    var k :| active == [] && before.keepalive != map[] ==> k in before.keepalive;
    assert active == [] && before.keepalive != map[] ==> k in r.peerChanges.removed;
  }

  // With no peer on either side and the port as declared nothing is pushed: a
  // foreign key stays in the kernel, and every run reports the drift.
  lemma ForeignKeyStays(before: Link, after: Link, server: ServerSettings, r: ApplyResult,
                        emitted: seq<AuditAction>, publicOf: string -> string)
    requires Completed(before, after, server, [], r, emitted, publicOf) && r.drift != [DumpUnavailable]
    requires before.up && before.port == server.listenPort && before.keepalive == map[]
    requires publicOf(before.privateKey) !in ["", server.serverPublicKey]
    ensures after.privateKey == before.privateKey && !r.ok && r.drift == [ServerPublicKeyDrift]
  {
    hide DriveActions, ModifiesFit;
    OkMeansKeyAgrees(before, after, server, [], r, emitted, publicOf);
    NoMembers(r.peerChanges.removed);
  }

  // ── After a successful run ───────────────────────────────────────────────

  lemma ConvergedRow(link: Link, server: ServerSettings, active: seq<PeerRecord>, row: RuntimePeer, i: nat)
    requires NoDuplicates(active) && Converged(link, server, active) && i < |active|
    requires active[i].addressV4 != "" && Lacks(active[i].addressV4, ',')
    requires RowOk(link, row) && row.publicKey == active[i].publicKey
    ensures !PeerConfigChanged(active[i], row)
  {
    hide KeepaliveOf, OwnerOf, NoDuplicates, PeerConfigChanged, Lacks;
    var address := active[i].addressV4;
    forall p ensures p in Owned(link, row.publicKey) <==> p == address { GoalOf(active, i, p); }
    assert Owned(link, row.publicKey) == {address};
    assert |row.allowedIps| == 1 && row.allowedIps[0] in row.allowedIps;
    GoalOf(active, i, address);
    ConfigChangedMeaning(active[i], row);
  }

  // Planning again after a completed run, from whatever the kernel then
  // reports, finds nothing to do.
  lemma ConvergedPlanEmpty(link: Link, server: ServerSettings, active: seq<PeerRecord>, runtime: RuntimeState)
    requires Wired(link) && Reports(link, runtime) && NoDuplicates(active) && Converged(link, server, active)
    requires forall i | 0 <= i < |active| :: active[i].addressV4 != "" && Lacks(active[i].addressV4, ',')
    ensures PlanOf(server, active, runtime) == Plan(false, false, [], [], [])
  {
    hide Diff, NoDuplicates, RowOk, PeerConfigChanged, KeepaliveOf, OwnerOf, Lacks, PeersByKey, RowsByKey, RowKeyList;
    PlanOfReport(link, server, active, runtime);
    GoalKeys(active);
    var d := Diff(active, runtime.peers);
    forall k ensures k !in d.added && k !in d.removed && k !in d.modified {
      DiffPartitions(active, runtime.peers, k);
      ModifiedMeaning(active, runtime.peers, k);
      if k in d.modified {
        var peer, row := PeersByKey(active)[k], RowsByKey(runtime.peers)[k];
        var i := MemberAt(active, peer);
        var j := MemberAt(runtime.peers, row);
        ConvergedRow(link, server, active, row, i);
      }
    }
    NoMembers(d.added);
    NoMembers(d.removed);
    NoMembers(d.modified);
  }

  // ── States the store can reach ───────────────────────────────────────────

  lemma {:induction false} ActiveAt(peers: seq<PeerRecord>, now: Millis, i: nat) returns (k: nat)
    requires i < |ActivePeers(peers, now)|
    ensures k < |peers| && i <= k && peers[k] == ActivePeers(peers, now)[i] && IsPeerActive(peers[k], now)
  {
    if IsPeerActive(peers[0], now) {
      if i == 0 { k := 0; } else { k := ActiveAt(peers[1..], now, i - 1); k := k + 1; }
    } else {
      k := ActiveAt(peers[1..], now, i);
      k := k + 1;
    }
  }

  // No two peers in use share a key or an address.
  ghost predicate DistinctInUse(peers: seq<PeerRecord>, now: Millis) {
    forall i, j | 0 <= i < j < |peers| && InUse(peers[i], now) && InUse(peers[j], now) ::
      peers[i].publicKey != peers[j].publicKey && peers[i].addressV4 != peers[j].addressV4
  }

  lemma {:induction false} ActiveDistinct(peers: seq<PeerRecord>, now: Millis)
    ensures NoDuplicates(ActivePeers(peers, now)) <==> DistinctInUse(peers, now)
  {
    if peers != [] {
      hide IsPeerActive, InUse;
      var first, rest := peers[0], peers[1..];
      ActiveDistinct(rest, now);
      StatusMeaning(first, now);
      FirstDistinct(first, rest, now);
      assert peers == [first] + rest;
      if InUse(first, now) {
        FirstUnrepeated(first, ActivePeers(rest, now));
        assert ActivePeers(peers, now) == [first] + ActivePeers(rest, now);
      } else {
        assert ActivePeers(peers, now) == ActivePeers(rest, now);
      }
    }
  }

  lemma FirstDistinct(first: PeerRecord, rest: seq<PeerRecord>, now: Millis)
    ensures DistinctInUse([first] + rest, now) <==>
            DistinctInUse(rest, now) &&
              (InUse(first, now) ==>
                 forall x | x in ActivePeers(rest, now) ::
                     first.publicKey != x.publicKey && first.addressV4 != x.addressV4)
  {
    hide InUse, ActivePeers;
    var all := [first] + rest;
    assert forall i | 0 <= i < |rest| :: all[i + 1] == rest[i];
    forall x ensures x in ActivePeers(rest, now) <==> x in rest && InUse(x, now) { ActiveMembers(rest, now, x); }
    if DistinctInUse(all, now) {
      forall i, j | 0 <= i < j < |rest| && InUse(rest[i], now) && InUse(rest[j], now)
        ensures rest[i].publicKey != rest[j].publicKey && rest[i].addressV4 != rest[j].addressV4
      {
        assert all[i + 1] == rest[i] && all[j + 1] == rest[j];
      }
      forall x | InUse(first, now) && x in ActivePeers(rest, now)
        ensures first.publicKey != x.publicKey && first.addressV4 != x.addressV4
      {
        var j := MemberAt(rest, x);
        assert all[0] == first && all[j + 1] == x;
      }
    }
  }

  lemma FirstUnrepeated(first: PeerRecord, rest: seq<PeerRecord>)
    ensures NoDuplicates([first] + rest) <==>
            NoDuplicates(rest) &&
              forall x | x in rest :: first.publicKey != x.publicKey && first.addressV4 != x.addressV4
  {
    var all := [first] + rest;
    assert forall i | 0 <= i < |rest| :: all[i + 1] == rest[i];
    if NoDuplicates(all) {
      forall i, j | 0 <= i < j < |rest|
        ensures rest[i].publicKey != rest[j].publicKey && rest[i].addressV4 != rest[j].addressV4
      {
        assert all[i + 1] == rest[i] && all[j + 1] == rest[j];
      }
      forall x | x in rest ensures first.publicKey != x.publicKey && first.addressV4 != x.addressV4 {
        var j := MemberAt(rest, x);
        assert all[0] == first && all[j + 1] == x;
      }
    }
  }

  lemma ActiveAddresses(s: State, now: Millis)
    requires Invariants.Inv(s)
    ensures forall i | 0 <= i < |ActivePeers(s.peers, now)| ::
              ActivePeers(s.peers, now)[i].addressV4 != "" && Lacks(ActivePeers(s.peers, now)[i].addressV4, ',')
  {
    hide Lacks, ActivePeers, Invariants.LiveDistinct, Invariants.LifecycleOk, Invariants.LinksOk,
         Invariants.RevisionsOk, Ipv4.PeerText;
    forall i | 0 <= i < |ActivePeers(s.peers, now)|
      ensures ActivePeers(s.peers, now)[i].addressV4 != "" && Lacks(ActivePeers(s.peers, now)[i].addressV4, ',')
    {
      var k := ActiveAt(s.peers, now, i);
      assert Invariants.InTunnel(s.server, s.peers[k].addressV4);
      Ipv4.PeerTextLacks(Invariants.AddressNumber(s.peers[k].addressV4).value);
    }
  }

  // The duplicate gates of reconcile and executeApply never fire.
  lemma GatesNeverFire(s: State, now: Millis)
    requires Invariants.Inv(s)
    ensures FirstDuplicate(ActivePeers(s.peers, now)).None?
  {
    hide FirstDuplicate, NoDuplicates, ActivePeers, Invariants.InTunnel, Invariants.LifecycleOk;
    ActiveDistinct(s.peers, now);
    GateMeaning(ActivePeers(s.peers, now));
  }

  // In any state the store reaches, once the kernel holds the active peers a
  // further plan is empty.
  lemma ApplyIsFinal(s: State, link: Link, runtime: RuntimeState, now: Millis)
    requires Invariants.Inv(s)
    requires Wired(link) && Reports(link, runtime) && Converged(link, s.server, ActivePeers(s.peers, now))
    ensures PlanOf(s.server, ActivePeers(s.peers, now), runtime) == Plan(false, false, [], [], [])
  {
    hide NoDuplicates, ActivePeers, Converged, Reports, PlanOf, Lacks;
    ActiveDistinct(s.peers, now);
    ActiveAddresses(s, now);
    ConvergedPlanEmpty(link, s.server, ActivePeers(s.peers, now), runtime);
  }

  // An auto-revoking sweep at the same time does not change the file.
  lemma SweepKeepsConfig(s: State, o: Rules.SweepOptions)
    ensures var t := Rules.Step(s, Rules.Sweep(o));
            RenderedLines(t.server, ActivePeers(t.peers, o.now)) == RenderedLines(s.server, ActivePeers(s.peers, o.now))
  {
    hide RenderedLines, ActivePeers;
    ExpirySweep.SweepKeepsActivePeers(s.peers, o);
  }
}
