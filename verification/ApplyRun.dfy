// Driving the kernel to the declared state: executeApply and rollbackPlan
// (packages/engine/src/apply.ts) over a host whose commands may all fail.
module ApplyRun {
  import opened Wrappers
  import opened Records
  import opened Kernel
  import opened Text
  import opened ApplyPlan
  import opened Apply
  import opened HostAudit
  import Store = StateStore

  // ── Repeated events ──────────────────────────────────────────────────────

  function Repeat(action: AuditAction, n: nat): (r: seq<AuditAction>) {
    seq(n, _ => action)
  }

  // ── What a step may not take away ────────────────────────────────────────

  // An interface that was up stays up, and only the named peers can go.
  ghost predicate Kept(before: Link, after: Link, dropped: seq<Key>) {
    before.up ==> after.up && forall k | k in before.keepalive && k !in dropped :: k in after.keepalive
  }

  lemma SyncKeeps(link: Link, ini: Ini)
    requires Wired(link)
    ensures Kept(link, Synced(link, ini), []) && Synced(link, ini).up == link.up
  {
    UpsertsWired(link.(port := ini.port, privateKey := ini.privateKey), ini.sections);
  }

  lemma RemovedTwice(link: Link, key: Key)
    ensures Removed(Removed(link, key), key) == Removed(link, key)
  {
    assert Disowned(Disowned(link.owner, key), key) == Disowned(link.owner, key);
  }

  // ── Commands with their own recovery ─────────────────────────────────────

  // removePeer: one retry.
  method RemovePeer(host: Host, key: Key) returns (ok: bool)
    requires Wired(host.link)
    modifies host
    ensures Wired(host.link) && (old(host.failed) ==> host.failed)
    ensures ok ==> old(host.link.up) && host.link == Removed(old(host.link), key)
    ensures !ok ==> host.failed || !old(host.link.up)
    ensures host.link == old(host.link) || host.link == Removed(old(host.link), key)
  {
    ok := host.RemovePeer(key);
    if !ok {
      RemovedTwice(old(host.link), key);
      ok := host.RemovePeer(key);
    }
  }

  // bootstrapInterface: a failure after `ip link add` removes the link again,
  // and an interface that was already there is never touched.
  method BootstrapInterface(server: ServerSettings, host: Host) returns (ok: bool)
    requires Wired(host.link)
    modifies host
    ensures Wired(host.link) && (old(host.failed) ==> host.failed)
    ensures ok ==> !old(host.link.up) && host.failed == old(host.failed)
    ensures ok ==> host.link == DOWN.(up := true, port := server.listenPort, privateKey := server.serverPrivateKey)
    ensures !ok ==> host.failed || old(host.link.up)
    ensures !ok && old(host.link.up) ==> host.link == old(host.link)
    ensures host.link.keepalive == old(host.link.keepalive)
  {
    var written := host.Ancillary();
    if !written { return false; }
    ok := host.LinkAdd();
    if !ok { return false; }
    ok := host.SetConf(server.serverPrivateKey, server.listenPort);
    if ok { ok := host.Ancillary(); }
    if ok { ok := host.Ancillary(); }
    if !ok {
      var _ := host.LinkDel();
    }
  }

  // Rendering, the temporary file and `wg syncconf`.
  method Sync(state: Store.EngineState, host: Host, now: Millis) returns (written: bool, ok: bool)
    requires Wired(host.link)
    modifies host
    ensures Wired(host.link) && (old(host.failed) ==> host.failed) && (ok ==> written)
    ensures ok ==> old(host.link.up) && host.failed == old(host.failed)
    ensures ok ==> host.link == Synced(old(host.link), IntendedIni(state.server, ActivePeers(state.peers, now)))
    ensures !ok ==> host.failed || !old(host.link.up)
    ensures !written ==> host.link == old(host.link)
    ensures Kept(old(host.link), host.link, []) && host.link.up == old(host.link.up)
  {
    hide ReadLines, RenderedLines, IntendedIni, ActivePeers, Synced, Wired;
    var lines := RenderWgIni(state.View(), true, now);
    RenderRoundTrip(state.server, ActivePeers(state.peers, now));
    written := host.Ancillary();
    if !written { return false, false; }
    ghost var ini := ReadLines(lines);
    SyncKeeps(host.link, ini);
    forall n | 0 <= n <= |ini.sections|
      ensures var partly := Synced(host.link, ini.(sections := ini.sections[..n]));
              Kept(host.link, partly, []) && partly.up == host.link.up
    {
      SyncKeeps(host.link, ini.(sections := ini.sections[..n]));
    }
    ok := host.SyncConf(ReadLines(lines));
  }

  // rollbackPlan: best effort; it takes out only peers the plan added, and the
  // link only if the plan bootstrapped it.
  method RollbackPlan(state: Store.EngineState, host: Host, plan: Plan, now: Millis)
    requires Wired(host.link)
    modifies host, state`events
    ensures Wired(host.link) && (old(host.failed) ==> host.failed)
    ensures Recorded(old(state.events), state.events, [ApplyRollbackExecuted], state.revision, now)
    ensures !plan.bootstrap ==> Kept(old(host.link), host.link, plan.addPeers)
    ensures !host.failed && old(host.link.up) ==>
              host.link == if plan.bootstrap then DOWN else RemovedAll(old(host.link), plan.addPeers)
  {
    hide Recorded;
    var allRemoved := true;
    var i := 0;
    while i < |plan.addPeers|
      invariant 0 <= i <= |plan.addPeers|
      invariant Wired(host.link) && (old(host.failed) ==> host.failed)
      invariant state.events == old(state.events)
      invariant Kept(old(host.link), host.link, plan.addPeers) && host.link.up == old(host.link.up)
      invariant !host.failed && old(host.link.up) ==>
                  allRemoved && host.link == RemovedAll(old(host.link), plan.addPeers[..i])
    {
      assert plan.addPeers[..i + 1][..i] == plan.addPeers[..i];
      var removed := RemovePeer(host, plan.addPeers[i]);
      if !removed { allRemoved := false; }
      i := i + 1;
    }
    assert plan.addPeers[..i] == plan.addPeers;
    if plan.bootstrap && allRemoved {
      var _ := host.LinkDel();
    }
    Emit(state, ApplyRollbackExecuted, now);
  }

  // ── The live path ────────────────────────────────────────────────────────

  // The interface serves the peer as declared.
  ghost predicate InPlace(link: Link, peer: PeerRecord) {
    && peer.publicKey in link.keepalive
    && Owned(link, peer.publicKey) == {peer.addressV4} && link.keepalive[peer.publicKey] == peer.persistentKeepalive
  }

  // Every address the store hands out is one: not empty, no comma, and not the
  // text of `wg` for a peer without any.
  ghost predicate PlainAddress(address: string) { address != "" && address != "(none)" && Lacks(address, ',') }

  ghost predicate ModifiesFit(link: Link, active: seq<PeerRecord>, modified: seq<Key>) {
    && (forall k | k in modified :: k in PublicKeys(active) && k in link.keepalive)
    && forall k | k in PeersByKey(active) && k in link.keepalive && PlainAddress(PeersByKey(active)[k].addressV4) ::
         k in modified <==> !InPlace(link, PeersByKey(active)[k])
  }

  // The plan matches the interface and the declared peers.
  ghost predicate PlanFits(link: Link, server: ServerSettings, active: seq<PeerRecord>, plan: Plan) {
    && plan.bootstrap == !link.up
    && plan.reconfigureInterface == (link.up && link.port != server.listenPort)
    && (forall k :: k in plan.addPeers <==> k in PublicKeys(active) && k !in link.keepalive)
    && (forall k :: k in plan.removePeers <==> k in link.keepalive && k !in PublicKeys(active))
    && ModifiesFit(link, active, plan.modifyPeers)
  }

  // A kernel that could not be read looks absent; the bootstrap it leads to
  // then fails before it touches anything.
  ghost predicate PlanBlind(host: Host, plan: Plan)
    reads host
  {
    host.failed && host.link.up && plan.bootstrap
  }

  lemma RowKeysListed(rows: seq<RuntimePeer>)
    ensures forall k :: k in RowKeyList(rows) <==> k in RowKeys(rows)
  {
    forall i | 0 <= i < |rows| ensures rows[i].publicKey in RowKeyList(rows) && rows[i].publicKey in RowKeys(rows) {
      assert RowKeyList(rows)[i] == rows[i].publicKey;
    }
  }

  lemma RowInPlace(link: Link, peer: PeerRecord, row: RuntimePeer)
    requires RowOk(link, row) && row.publicKey == peer.publicKey && PlainAddress(peer.addressV4)
    ensures PeerConfigChanged(peer, row) <==> !InPlace(link, peer)
  {
    hide PeerConfigChanged, Lacks;
    ConfigChangedMeaning(peer, row);
    var owned := Owned(link, peer.publicKey);
    if owned == {peer.addressV4} {
      assert |row.allowedIps| == 1 && row.allowedIps[0] in row.allowedIps;
    }
    if row.allowedIps == [peer.addressV4] {
      assert row.allowedIps[0] == peer.addressV4;
      assert owned == {peer.addressV4};
    }
  }

  lemma ReportedChanges(link: Link, active: seq<PeerRecord>, runtime: RuntimeState)
    requires Wired(link) && Reports(link, runtime)
    ensures ModifiesFit(link, active, Diff(active, runtime.peers).modified)
  {
    hide Diff, RowOk, PeersByKey, RowsByKey, PeerConfigChanged, PlainAddress, InPlace, PublicKeys, RowKeyList;
    RowKeysListed(runtime.peers);
    var modified := Diff(active, runtime.peers).modified;
    forall k ensures k in modified ==> k in PublicKeys(active) && k in link.keepalive {
      ModifiedMeaning(active, runtime.peers, k);
    }
    forall k | k in PeersByKey(active) && k in link.keepalive && PlainAddress(PeersByKey(active)[k].addressV4)
      ensures k in modified <==> !InPlace(link, PeersByKey(active)[k])
    {
      ModifiedMeaning(active, runtime.peers, k);
      var row := RowsByKey(runtime.peers)[k];
      var i :| 0 <= i < |runtime.peers| && runtime.peers[i] == row;
      RowInPlace(link, PeersByKey(active)[k], row);
    }
  }

  // Rollback can name only peers that were not there before the apply.
  lemma PlanOfReport(link: Link, server: ServerSettings, active: seq<PeerRecord>, runtime: RuntimeState)
    requires Wired(link) && Reports(link, runtime)
    ensures PlanFits(link, server, active, PlanOf(server, active, runtime))
  {
    hide Diff, RowOk, Unchanged, ModifiesFit;
    RowKeysListed(runtime.peers);
    ReportedChanges(link, active, runtime);
    forall k ensures var d := Diff(active, runtime.peers);
      && (k in d.added <==> k in PublicKeys(active) && k !in link.keepalive)
      && (k in d.removed <==> k in link.keepalive && k !in PublicKeys(active))
    {
      DiffPartitions(active, runtime.peers, k);
    }
  }

  function InterfaceActions(plan: Plan): seq<AuditAction> {
    if plan.bootstrap then [ApplyInterfaceCreated]
    else if plan.reconfigureInterface then [ApplyInterfaceReconfigured]
    else []
  }

  predicate NeedsSync(plan: Plan, active: seq<PeerRecord>) {
    |active| > 0 || |plan.removePeers| > 0
  }

  function SyncActions(plan: Plan, active: seq<PeerRecord>): seq<AuditAction> {
    if NeedsSync(plan, active) then [ApplyPeerSynced] else []
  }

  // The interface is there, on the declared port, with the peers it had.
  ghost predicate Prepared(before: Link, after: Link, state: Store.EngineState, plan: Plan, now: Millis)
    reads state
  {
    && Wired(after) && after.up
    && (plan.bootstrap ==>
         !before.up &&
           after == DOWN.(up := true, port := state.server.listenPort, privateKey := state.server.serverPrivateKey))
    && (!plan.bootstrap && plan.reconfigureInterface ==>
          before.up && after == Synced(before, IntendedIni(state.server, ActivePeers(state.peers, now))))
    && (!plan.bootstrap && !plan.reconfigureInterface ==> after == before)
  }

  method PrepareInterface(state: Store.EngineState, host: Host, plan: Plan, now: Millis)
    returns (ok: bool, actions: seq<AuditAction>)
    requires Wired(host.link) && (host.link.up || plan.bootstrap)
    modifies host, state`events
    ensures Wired(host.link) && (old(host.failed) ==> host.failed)
    ensures Recorded(old(state.events), state.events, actions, state.revision, now)
    ensures ok ==> actions == InterfaceActions(plan) && host.failed == old(host.failed)
    ensures ok ==> Prepared(old(host.link), host.link, state, plan, now)
    ensures ok ==> host.link.up && (plan.bootstrap ==> !old(host.link.up))
    ensures !ok ==> actions == [] && (host.failed || (plan.bootstrap && old(host.link.up)))
    ensures Kept(old(host.link), host.link, [])
  {
    hide Recorded, Synced, IntendedIni, ActivePeers, Wired;
    RecordedNone(state.events, state.revision, now);
    ok, actions := true, [];
    if plan.bootstrap {
      ok := BootstrapInterface(state.server, host);
      if ok { Emit(state, ApplyInterfaceCreated, now); actions := [ApplyInterfaceCreated]; }
    } else if plan.reconfigureInterface {
      var _, synced := Sync(state, host, now);
      ok := synced;
      if ok { Emit(state, ApplyInterfaceReconfigured, now); actions := [ApplyInterfaceReconfigured]; }
    }
  }

  // The removal loop, up to the first peer that will not go.
  method RemoveAbsent(state: Store.EngineState, host: Host, keys: seq<Key>, now: Millis)
    returns (stuck: Option<Key>, actions: seq<AuditAction>)
    requires Wired(host.link)
    modifies host, state`events
    ensures Wired(host.link) && (old(host.failed) ==> host.failed)
    ensures Recorded(old(state.events), state.events, actions, state.revision, now)
    ensures stuck.None? ==> host.link == RemovedAll(old(host.link), keys) && actions == Repeat(ApplyPeerRemoved, |keys|)
    ensures stuck.Some? ==> stuck.value in keys && (host.failed || !old(host.link.up))
    ensures Kept(old(host.link), host.link, keys) && host.link.up == old(host.link.up)
  {
    hide Recorded, Wired;
    RecordedNone(state.events, state.revision, now);
    actions := [];
    var i := 0;
    assert Repeat(ApplyPeerRemoved, 0) == [] && keys[..0] == [];
    while i < |keys|
      invariant 0 <= i <= |keys|
      invariant Wired(host.link) && (old(host.failed) ==> host.failed)
      invariant host.link == RemovedAll(old(host.link), keys[..i])
      invariant Kept(old(host.link), host.link, keys) && host.link.up == old(host.link.up)
      invariant actions == Repeat(ApplyPeerRemoved, i)
      invariant Recorded(old(state.events), state.events, actions, state.revision, now)
    {
      assert keys[..i + 1][..i] == keys[..i];
      var removed := RemovePeer(host, keys[i]);
      if !removed { return Some(keys[i]), actions; }
      ghost var before := state.events;
      Emit(state, ApplyPeerRemoved, now);
      RecordedThen(old(state.events), before, state.events, actions, [ApplyPeerRemoved], state.revision, now);
      actions := actions + [ApplyPeerRemoved];
      assert Repeat(ApplyPeerRemoved, i + 1) == actions;
      i := i + 1;
    }
    assert keys[..i] == keys;
    return None, actions;
  }

  // No active peer that was being served is lost.
  ghost predicate Served(before: Link, after: Link, active: seq<PeerRecord>) {
    before.up ==> after.up && forall k | k in before.keepalive && k in PublicKeys(active) :: k in after.keepalive
  }

  lemma ServedBy(before: Link, prepared: Link, removed: Link, after: Link, server: ServerSettings,
                 active: seq<PeerRecord>, plan: Plan)
    requires PlanFits(before, server, active, plan)
    requires Kept(before, prepared, []) && Kept(prepared, removed, plan.removePeers)
    requires Kept(removed, after, plan.addPeers) || plan.bootstrap
    ensures Served(before, after, active)
  {
    hide PublicKeys;
  }

  lemma KeptServes(before: Link, after: Link, active: seq<PeerRecord>)
    requires Kept(before, after, [])
    ensures Served(before, after, active)
  {
    hide PublicKeys;
  }

  lemma PreparedPeers(before: Link, prepared: Link, state: Store.EngineState, active: seq<PeerRecord>, plan: Plan,
                      now: Millis)
    requires Wired(before) && Prepared(before, prepared, state, plan, now) && active == ActivePeers(state.peers, now)
    requires PlanFits(before, state.server, active, plan)
    ensures forall k | k !in PublicKeys(active) :: k in prepared.keepalive <==> k in before.keepalive
    ensures !NeedsSync(plan, active) ==> prepared.port == state.server.listenPort && prepared.keepalive == map[]
  {
    hide ActivePeers;
    if !plan.bootstrap && plan.reconfigureInterface {
      var ini := IntendedIni(state.server, active);
      UpsertsWired(before.(port := ini.port, privateKey := ini.privateKey), ini.sections);
      forall s | s in ini.sections ensures s.publicKey in PublicKeys(active) {
        var i :| 0 <= i < |ini.sections| && ini.sections[i] == s;
        assert s.publicKey == PublicKeys(active)[i];
      }
    }
    if !NeedsSync(plan, active) { NothingToKeep(before, state.server, active, plan); }
  }

  lemma NothingToKeep(before: Link, server: ServerSettings, active: seq<PeerRecord>, plan: Plan)
    requires PlanFits(before, server, active, plan) && !NeedsSync(plan, active)
    ensures before.keepalive == map[]
  {
    assert plan.removePeers == [] && PublicKeys(active) == [];
  }

  lemma DriveConverges(before: Link, prepared: Link, state: Store.EngineState, active: seq<PeerRecord>, plan: Plan,
                       now: Millis)
    requires Wired(before) && Prepared(before, prepared, state, plan, now) && active == ActivePeers(state.peers, now)
    requires PlanFits(before, state.server, active, plan) && NoDuplicates(active)
    ensures NeedsSync(plan, active) ==>
              var t := RemovedAll(Synced(prepared, IntendedIni(state.server, active)), plan.removePeers);
              Converged(t, state.server, active) && t.privateKey == state.server.serverPrivateKey
    ensures !NeedsSync(plan, active) ==> Converged(prepared, state.server, active)
  {
    PreparedPeers(before, prepared, state, active, plan, now);
    hide ActivePeers, NoDuplicates, IntendedIni, RemovedAll, PublicKeys, Converged, Synced;
    if NeedsSync(plan, active) {
      SyncAndRemoveConverges(prepared, state.server, active, plan.removePeers);
    } else {
      EmptyConverges(prepared, state.server);
    }
  }

  // The private key the kernel ends with: the declared one if anything was
  // pushed, else the one it had.
  function KeyAfter(before: Link, server: ServerSettings, active: seq<PeerRecord>, plan: Plan): string {
    if plan.bootstrap || plan.reconfigureInterface || NeedsSync(plan, active) then server.serverPrivateKey
    else before.privateKey
  }

  lemma PreparedKey(before: Link, prepared: Link, state: Store.EngineState, active: seq<PeerRecord>, plan: Plan,
                    now: Millis)
    requires Prepared(before, prepared, state, plan, now) && active == ActivePeers(state.peers, now)
    ensures !NeedsSync(plan, active) ==> prepared.privateKey == KeyAfter(before, state.server, active, plan)
  {
    hide ActivePeers, Wired;
    if !plan.bootstrap && plan.reconfigureInterface {
      var ini := IntendedIni(state.server, active);
      UpsertsGlobals(before.(port := ini.port, privateKey := ini.privateKey), ini.sections);
    }
  }

  lemma {:induction false} UpsertsGlobals(link: Link, sections: seq<Section>)
    ensures Upserts(link, sections).privateKey == link.privateKey
  {
    if sections != [] { UpsertsGlobals(link, sections[..|sections| - 1]); }
  }

  function DriveActions(plan: Plan, active: seq<PeerRecord>): seq<AuditAction> {
    InterfaceActions(plan) + SyncActions(plan, active) + Repeat(ApplyPeerRemoved, |plan.removePeers|)
  }

  // What a run that throws has recorded: a plain error rolls nothing back, a
  // failed sync or removal ends with the rollback.
  ghost predicate Aborted(error: ApplyError, emitted: seq<AuditAction>) {
    match error
    case HostError => |emitted| <= 1 && ApplyRollbackExecuted !in emitted
    case SyncconfFailed =>
      1 <= |emitted| <= 2 && emitted[|emitted| - 1] == ApplyRollbackExecuted && ApplyPeerSynced !in emitted
    case PeerRemoveFailed(_) =>
      |emitted| >= 2 && emitted[|emitted| - 1] == ApplyRollbackExecuted && ApplyPeerSynced in emitted
    case _ => false
  }

  // The peer that would not go is one the kernel had and nobody declares.
  ghost predicate Undeclared(before: Link, active: seq<PeerRecord>, error: ApplyError) {
    error.PeerRemoveFailed? ==> error.key in before.keepalive && error.key !in PublicKeys(active)
  }

  // The same for the part after the interface is prepared.
  ghost predicate PushAborted(error: ApplyError, emitted: seq<AuditAction>) {
    match error
    case HostError => emitted == []
    case SyncconfFailed => emitted == [ApplyRollbackExecuted]
    case PeerRemoveFailed(_) =>
      |emitted| >= 2 && emitted[0] == ApplyPeerSynced && emitted[|emitted| - 1] == ApplyRollbackExecuted
    case _ => false
  }

  lemma AbortedThen(plan: Plan, error: ApplyError, emitted: seq<AuditAction>)
    requires PushAborted(error, emitted)
    ensures Aborted(error, InterfaceActions(plan) + emitted)
  {
    var prep := InterfaceActions(plan);
    var all := prep + emitted;
    assert |prep| <= 1 && ApplyRollbackExecuted !in prep && ApplyPeerSynced !in prep;
    hide InterfaceActions;
    match error
    case HostError => assert all == prep;
    case SyncconfFailed => assert all == prep + [ApplyRollbackExecuted];
    case PeerRemoveFailed(_) =>
      assert all[|prep|] == emitted[0] && all[|all| - 1] == emitted[|emitted| - 1];
    case _ =>
  }

  function PushedLink(link: Link, server: ServerSettings, active: seq<PeerRecord>, plan: Plan): Link {
    if NeedsSync(plan, active) then RemovedAll(Synced(link, IntendedIni(server, active)), plan.removePeers) else link
  }

  // The warm sync and the removals, with their rollback. `mid` is the kernel
  // before any rollback.
  method PushPeers(state: Store.EngineState, host: Host, plan: Plan, now: Millis)
    returns (error: Option<ApplyError>, actions: seq<AuditAction>, emitted: seq<AuditAction>, ghost mid: Link)
    requires Wired(host.link) && host.link.up
    modifies host, state`events
    ensures Wired(host.link) && (old(host.failed) ==> host.failed)
    ensures error.None? ==>
              host.link == mid == PushedLink(old(host.link), state.server, ActivePeers(state.peers, now), plan)
    ensures error.None? ==>
              actions == emitted == SyncActions(plan, ActivePeers(state.peers, now)) +
                Repeat(ApplyPeerRemoved, |plan.removePeers|)
    ensures error.Some? ==> host.failed && PushAborted(error.value, emitted)
    ensures error.Some? && error.value.PeerRemoveFailed? ==> error.value.key in plan.removePeers
    ensures Kept(old(host.link), mid, plan.removePeers) && (Kept(mid, host.link, plan.addPeers) || plan.bootstrap)
    ensures Recorded(old(state.events), state.events, emitted, state.revision, now)
  {
    hide Recorded, ActivePeers, Synced, IntendedIni, Wired;
    var active := ActivePeers(state.peers, now);
    ghost var events := state.events;
    RecordedNone(state.events, state.revision, now);
    actions, emitted, mid := [], [], host.link;
    if |active| > 0 || |plan.removePeers| > 0 {
      var written, synced := Sync(state, host, now);
      mid := host.link;
      if !written { return Some(HostError), actions, emitted, mid; }
      if !synced {
        RollbackPlan(state, host, plan, now);
        return Some(SyncconfFailed), actions, [ApplyRollbackExecuted], mid;
      }
      Emit(state, ApplyPeerSynced, now);
      actions := [ApplyPeerSynced];
    }
    ghost var pushed := state.events;
    var stuck, more := RemoveAbsent(state, host, plan.removePeers, now);
    mid := host.link;
    RecordedThen(events, pushed, state.events, actions, more, state.revision, now);
    actions := actions + more;
    emitted := actions;
    if stuck.Some? {
      ghost var removed := state.events;
      RollbackPlan(state, host, plan, now);
      RecordedThen(events, removed, state.events, actions, [ApplyRollbackExecuted], state.revision, now);
      return Some(PeerRemoveFailed(stuck.value)), actions, actions + [ApplyRollbackExecuted], mid;
    }
    return None, actions, emitted, mid;
  }

  // From the plan to the last removal.
  method Drive(state: Store.EngineState, host: Host, plan: Plan, now: Millis)
    returns (error: Option<ApplyError>, actions: seq<AuditAction>, emitted: seq<AuditAction>)
    requires Wired(host.link) && NoDuplicates(ActivePeers(state.peers, now))
    requires PlanFits(host.link, state.server, ActivePeers(state.peers, now), plan) || PlanBlind(host, plan)
    modifies host, state`events
    ensures Wired(host.link) && (old(host.failed) ==> host.failed)
    ensures error.None? ==> PlanFits(old(host.link), state.server, ActivePeers(state.peers, now), plan)
    ensures error.None? ==> Converged(host.link, state.server, ActivePeers(state.peers, now))
    ensures error.None? ==>
              host.link.privateKey == KeyAfter(old(host.link), state.server, ActivePeers(state.peers, now), plan)
    ensures error.None? ==> actions == emitted == DriveActions(plan, ActivePeers(state.peers, now))
    ensures error.Some? ==> host.failed && Aborted(error.value, emitted)
    ensures error.Some? ==> Undeclared(old(host.link), ActivePeers(state.peers, now), error.value)
    ensures Served(old(host.link), host.link, ActivePeers(state.peers, now))
    ensures Recorded(old(state.events), state.events, emitted, state.revision, now)
  {
    hide Recorded, ActivePeers, NoDuplicates, PublicKeys, Synced, IntendedIni, Wired, Converged, Prepared, Served,
         Kept, RemovedAll, PushAborted, InterfaceActions, SyncActions, Repeat, NeedsSync;
    var active := ActivePeers(state.peers, now);
    ghost var before, events := host.link, state.events;
    var ok;
    ok, actions := PrepareInterface(state, host, plan, now);
    KeptServes(before, host.link, active);
    if !ok { return Some(HostError), actions, actions; }
    ghost var prepared, mid := host.link, state.events;
    DriveConverges(before, prepared, state, active, plan, now);
    PreparedKey(before, prepared, state, active, plan, now);
    var pushed, more, recorded;
    ghost var unrolled;
    pushed, more, recorded, unrolled := PushPeers(state, host, plan, now);
    ServedBy(before, prepared, unrolled, host.link, state.server, active, plan);
    RecordedThen(events, mid, state.events, actions, recorded, state.revision, now);
    emitted := actions + recorded;
    if pushed.Some? { AbortedThen(plan, pushed.value, recorded); }
    assert actions + (SyncActions(plan, active) + Repeat(ApplyPeerRemoved, |plan.removePeers|)) ==
           DriveActions(plan, active);
    return pushed, actions + more, emitted;
  }

  // One `apply.peer.added` per newly present peer.
  method AnnounceAdded(state: Store.EngineState, active: seq<PeerRecord>, added: seq<Key>, now: Millis)
    returns (actions: seq<AuditAction>)
    modifies state`events
    ensures (forall k | k in added :: k in PublicKeys(active)) ==> actions == Repeat(ApplyPeerAdded, |added|)
    ensures Recorded(old(state.events), state.events, actions, state.revision, now)
  {
    hide Recorded, PublicKeys;
    RecordedNone(state.events, state.revision, now);
    actions := [];
    var i := 0;
    assert Repeat(ApplyPeerAdded, 0) == [];
    while i < |added|
      invariant 0 <= i <= |added|
      invariant (forall k | k in added :: k in PublicKeys(active)) ==> actions == Repeat(ApplyPeerAdded, i)
      invariant Recorded(old(state.events), state.events, actions, state.revision, now)
    {
      if added[i] in PublicKeys(active) {
        ghost var before := state.events;
        Emit(state, ApplyPeerAdded, now);
        RecordedThen(old(state.events), before, state.events, actions, [ApplyPeerAdded], state.revision, now);
        actions := actions + [ApplyPeerAdded];
      }
      assert Repeat(ApplyPeerAdded, i + 1) == Repeat(ApplyPeerAdded, i) + [ApplyPeerAdded];
      i := i + 1;
    }
  }

  // ── Drift ────────────────────────────────────────────────────────────────

  // What detectDrift finds on a readable interface; `publicOf` is the key
  // derivation of `wg`.
  function DriftOf(link: Link, server: ServerSettings, publicOf: string -> string): seq<DriftField> {
    (if link.port != server.listenPort then [ListenPortDrift] else []) +
    (if publicOf(link.privateKey) != "" && publicOf(link.privateKey) != server.serverPublicKey
     then [ServerPublicKeyDrift] else [])
  }

  method DetectDrift(host: Host, server: ServerSettings, publicOf: string -> string) returns (fields: seq<DriftField>)
    modifies host`failed
    ensures old(host.failed) ==> host.failed
    ensures (fields == DriftOf(host.link, server, publicOf) && host.failed == old(host.failed)) ||
            (fields == [DumpUnavailable] && (host.failed || !host.link.up))
  {
    var row := host.InterfaceRow();
    if row.None? { return [DumpUnavailable]; }
    fields := [];
    if row.value.0 != server.listenPort { fields := fields + [ListenPortDrift]; }
    var publicKey := publicOf(row.value.1);
    if publicKey != "" && publicKey != server.serverPublicKey { fields := fields + [ServerPublicKeyDrift]; }
  }

  function DriftActions(fields: seq<DriftField>): seq<AuditAction> {
    if ListenPortDrift in fields then [ApplyRollbackExecuted] else []
  }

  function DriftEvents(fields: seq<DriftField>): seq<AuditAction> {
    if fields == [] then []
    else if ListenPortDrift in fields then [ApplyDriftDetected, ApplyRollbackExecuted]
    else [ApplyDriftDetected]
  }

  lemma DriftMeaning(link: Link, server: ServerSettings, publicOf: string -> string)
    ensures var fields := DriftOf(link, server, publicOf);
            && (ListenPortDrift in fields <==> link.port != server.listenPort)
            && (ServerPublicKeyDrift in fields <==> publicOf(link.privateKey) !in ["", server.serverPublicKey])
            && DumpUnavailable !in fields
            && (ApplyDriftDetected in DriftEvents(fields) <==> fields != [])
            && (ApplyRollbackExecuted in DriftEvents(fields) <==> link.port != server.listenPort)
  {
  }

  method SettleDrift(state: Store.EngineState, host: Host, plan: Plan, publicOf: string -> string, now: Millis)
    returns (fields: seq<DriftField>)
    requires Wired(host.link)
    modifies host, state`events
    ensures Wired(host.link) && (old(host.failed) ==> host.failed)
    ensures fields == DriftOf(old(host.link), state.server, publicOf) ||
            (fields == [DumpUnavailable] && (host.failed || !old(host.link.up)))
    ensures ListenPortDrift !in fields ==> host.link == old(host.link)
    ensures !plan.bootstrap ==> Kept(old(host.link), host.link, plan.addPeers)
    ensures ListenPortDrift in fields && !host.failed && old(host.link.up) ==>
              host.link == if plan.bootstrap then DOWN else RemovedAll(old(host.link), plan.addPeers)
    ensures Recorded(old(state.events), state.events, DriftEvents(fields), state.revision, now)
  {
    hide Recorded, Wired;
    fields := DetectDrift(host, state.server, publicOf);
    RecordedNone(state.events, state.revision, now);
    if fields != [] {
      Emit(state, ApplyDriftDetected, now);
      if ListenPortDrift in fields {
        ghost var mid := state.events;
        RollbackPlan(state, host, plan, now);
        RecordedThen(old(state.events), mid, state.events, [ApplyDriftDetected], [ApplyRollbackExecuted],
          state.revision, now);
        assert [ApplyDriftDetected] + [ApplyRollbackExecuted] == DriftEvents(fields);
      }
    }
  }

  // ── executeApply ─────────────────────────────────────────────────────────

  // What a completed live run did, seen from the interface it found.
  ghost predicate Completed(before: Link, after: Link, server: ServerSettings, active: seq<PeerRecord>, r: ApplyResult,
                            emitted: seq<AuditAction>, publicOf: string -> string) {
    var plan := Plan(r.bootstrap, before.up && before.port != server.listenPort, r.peerChanges.added,
      r.peerChanges.removed, r.peerChanges.modified);
    && !r.dryRun && (r.ok <==> r.drift == [])
    && PlanFits(before, server, active, plan)
    && Converged(after, server, active)
    && after.privateKey == KeyAfter(before, server, active, plan)
    && r.actionsExecuted == DriveActions(plan, active) + Repeat(ApplyPeerAdded, |plan.addPeers|)
    && emitted == r.actionsExecuted + DriftEvents(r.drift)
    && (r.drift == [DumpUnavailable] || r.drift == DriftOf(after, server, publicOf))
  }

  lemma ConvergedPort(link: Link, server: ServerSettings, active: seq<PeerRecord>, publicOf: string -> string)
    requires Converged(link, server, active)
    ensures link.up && ListenPortDrift !in DriftOf(link, server, publicOf) &&
            DumpUnavailable !in DriftOf(link, server, publicOf)
  {
  }

  // A run whose drift check could read the interface reports `ok` exactly when
  // the key in the kernel belongs to the declared public key.
  lemma OkMeansKeyAgrees(before: Link, after: Link, server: ServerSettings, active: seq<PeerRecord>, r: ApplyResult,
                         emitted: seq<AuditAction>, publicOf: string -> string)
    requires Completed(before, after, server, active, r, emitted, publicOf) && r.drift != [DumpUnavailable]
    ensures r.ok <==> publicOf(after.privateKey) in ["", server.serverPublicKey]
  {
    hide PlanFits, KeyAfter, DriveActions;
  }

  // The part of executeApply under the apply lock.
  method ApplyLive(state: Store.EngineState, host: Host, publicOf: string -> string, now: Millis)
    returns (r: Result<ApplyResult, ApplyError>, emitted: seq<AuditAction>)
    requires Wired(host.link) && NoDuplicates(ActivePeers(state.peers, now))
    modifies host, state`events
    ensures Wired(host.link)
    ensures r.Success? ==>
              Completed(old(host.link), host.link, state.server, ActivePeers(state.peers, now), r.value, emitted,
                publicOf)
    ensures r.Failure? || DumpUnavailable in r.value.drift ==> host.failed
    ensures !host.failed ==>
              r.Success? && (r.value.ok <==> publicOf(host.link.privateKey) in ["", state.server.serverPublicKey])
    ensures r.Failure? ==>
              Aborted(r.error, emitted) && Undeclared(old(host.link), ActivePeers(state.peers, now), r.error)
    ensures Served(old(host.link), host.link, ActivePeers(state.peers, now))
    ensures Recorded(old(state.events), state.events, emitted, state.revision, now)
  {
    hide Recorded, ActivePeers, NoDuplicates, PublicKeys, Wired, Converged, DriveActions, DriftOf, Diff, Reports,
         Aborted, Served;
    var active := ActivePeers(state.peers, now);
    ghost var before, events := host.link, state.events;
    var runtime := host.Dump();
    var plan := PlanApply(state.View(), runtime, now);
    var diff := DiffPeers(active, runtime.peers);
    if Reports(host.link, runtime) { PlanOfReport(host.link, state.server, active, runtime); }
    var error, actions, driven := Drive(state, host, plan, now);
    if error.Some? { return Failure(error.value), driven; }
    ConvergedPort(host.link, state.server, active, publicOf);
    ghost var mid := state.events;
    var added := AnnounceAdded(state, active, diff.added, now);
    RecordedThen(events, mid, state.events, actions, added, state.revision, now);
    actions := actions + added;
    mid := state.events;
    var fields := SettleDrift(state, host, plan, publicOf, now);
    RecordedThen(events, mid, state.events, actions, DriftEvents(fields), state.revision, now);
    emitted := actions + DriftEvents(fields);
    r := Success(ApplyResult(false, |fields| == 0, plan.bootstrap, actions + DriftActions(fields), diff, fields));
    if fields != [DumpUnavailable] {
      OkMeansKeyAgrees(before, host.link, state.server, active, r.value, emitted, publicOf);
    }
  }
}
