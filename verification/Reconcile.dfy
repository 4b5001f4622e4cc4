// Reconciliation (packages/engine/src/runtime.ts) and the request that runs it
// inside a store update (packages/engine/src/app.ts): the gate, then the kernel,
// then the networking policy, and only then the new revision.
module Reconcile {
  import opened Wrappers
  import opened Records
  import opened Kernel
  import opened ApplyPlan
  import opened Apply
  import opened ApplyRun
  import opened ApplyOutcome
  import opened HostAudit
  import opened RuleTable
  import opened Networking
  import Rules = StoreRules
  import Store = StateStore

  datatype ReconcileResult = ReconcileResult(
    ok: bool,
    applied: bool,
    activePeerCount: nat,
    apply: Option<ApplyResult>,
    networking: Option<NetworkingResult>)

  // What the probes of one reconcile find.
  datatype Probes = Probes(capable: bool, hostEnabled: bool, hasIptables: bool, route: Option<string>,
                           routeLater: Option<string>)

  lemma OneMorePeer(peers: seq<PeerRecord>, i: nat)
    requires i < |peers|
    ensures NoDuplicates(peers[..i + 1]) <==>
            NoDuplicates(peers[..i]) && peers[i].publicKey !in PublicKeys(peers[..i]) &&
              peers[i].addressV4 !in Addresses(peers[..i])
  {
    hide NoDuplicates, PublicKeys, Addresses;
    GateMeaning(peers[..i]);
    GateMeaning(peers[..i + 1]);
    if FirstDuplicate(peers[..i]).None? {
      GateStep(peers, i);
    } else {
      assert peers[..i + 1][..i] == peers[..i];
      DuplicateStays(peers[..i + 1], i);
    }
  }

  ghost predicate Repeats(texts: seq<string>) { exists i, j | 0 <= i < j < |texts| :: texts[i] == texts[j] }

  lemma RepeatsOneMore(texts: seq<string>, last: string)
    ensures Repeats(texts + [last]) <==> Repeats(texts) || last in texts
  {
    var more := texts + [last];
    assert more[|texts|] == last && forall i | 0 <= i < |texts| :: more[i] == texts[i];
    if last in texts {
      var i := MemberAt(texts, last);
      assert more[i] == more[|texts|];
    }
    if Repeats(texts) {
      var i, j :| 0 <= i < j < |texts| && texts[i] == texts[j];
      assert more[i] == more[j];
    }
  }

  // The gate of reconcile reports every duplicate, not just the first.
  method DuplicateErrors(peers: seq<PeerRecord>) returns (errors: seq<ApplyError>)
    ensures errors == [] <==> NoDuplicates(peers)
    ensures DuplicatePubkey in errors <==> Repeats(PublicKeys(peers))
    ensures DuplicateAddress in errors <==> Repeats(Addresses(peers))
    ensures forall e | e in errors :: e == DuplicatePubkey || e == DuplicateAddress
  {
    hide NoDuplicates, Repeats;
    errors := [];
    var publicKeys: set<Key>, addresses: set<Prefix> := {}, {};
    var i := 0;
    NoneRepeated(peers);
    while i < |peers|
      invariant 0 <= i <= |peers| && (errors == [] <==> NoDuplicates(peers[..i]))
      invariant DuplicatePubkey in errors <==> Repeats(PublicKeys(peers[..i]))
      invariant DuplicateAddress in errors <==> Repeats(Addresses(peers[..i]))
      invariant forall e | e in errors :: e == DuplicatePubkey || e == DuplicateAddress
      invariant publicKeys == set k | k in PublicKeys(peers[..i])
      invariant addresses == set a | a in Addresses(peers[..i])
    {
      SeenOneMore(peers, i);
      OneMorePeer(peers, i);
      RepeatsOneMore(PublicKeys(peers[..i]), peers[i].publicKey);
      RepeatsOneMore(Addresses(peers[..i]), peers[i].addressV4);
      if peers[i].publicKey in publicKeys { errors := errors + [DuplicatePubkey]; }
      if peers[i].addressV4 in addresses { errors := errors + [DuplicateAddress]; }
      publicKeys, addresses := publicKeys + {peers[i].publicKey}, addresses + {peers[i].addressV4};
      i := i + 1;
    }
    assert peers[..i] == peers;
  }

  lemma NoneRepeated(peers: seq<PeerRecord>)
    ensures NoDuplicates(peers[..0]) && !Repeats(PublicKeys(peers[..0])) && !Repeats(Addresses(peers[..0]))
  {
  }

  // What a reconcile that reports success has established.
  ghost predicate InForce(link: Link, rules: seq<Rule>, ipForward: string, server: ServerSettings,
                          active: seq<PeerRecord>, config: NetworkingConfig, p: Probes) {
    && Converged(link, server, active)
    && (Live(config) ==>
          && ResolveEgress(config, p.route).Some? && ipForward == "1"
          && forall x | x in Specs(config, ResolveEgress(config, p.route).value) :: x in rules)
  }

  // The kernel part. A plain error is rethrown and loses the whole update; a
  // typed one is reported.
  method ApplyStep(state: Store.EngineState, host: Host, p: Probes, publicOf: string -> string, now: Millis)
    returns (thrown: bool, apply: Option<ApplyResult>, applied: bool, emitted: seq<AuditAction>)
    requires Wired(host.link) && NoDuplicates(ActivePeers(state.peers, now))
    modifies host, state`events
    ensures Wired(host.link) && Served(old(host.link), host.link, ActivePeers(state.peers, now))
    ensures applied <==> apply.Some? && apply.value.ok
    ensures applied ==> !thrown && Converged(host.link, state.server, ActivePeers(state.peers, now))
    ensures thrown ==> apply.None? && host.failed && ApplyRollbackExecuted !in emitted
    ensures !p.capable || !p.hostEnabled ==> host.link == old(host.link) && emitted == [] && !applied && !thrown
    ensures Recorded(old(state.events), state.events, emitted, state.revision, now)
  {
    hide Recorded, NoDuplicates, ActivePeers, Wired, Converged, Diff, PlanFits, FirstDuplicate;
    RecordedNone(state.events, state.revision, now);
    thrown, apply, applied, emitted := false, None, false, [];
    if !p.capable { return; }
    var r;
    r, emitted := ExecuteApply(state, host, false, p.hostEnabled, publicOf, now);
    if r.Failure? { return r.error.HostError?, None, false, emitted; }
    apply, applied := Some(r.value), r.value.ok;
  }

  method Reconcile(config: NetworkingConfig, state: Store.EngineState, host: Host, router: Router, p: Probes,
                   publicOf: string -> string, now: Millis)
    returns (r: Option<ReconcileResult>, emitted: seq<AuditAction>)
    requires Wired(host.link)
    modifies host, router, state`events
    ensures Wired(host.link)
    ensures config.dryRun || !DistinctInUse(state.peers, now) ==>
              && r.Some? && host.link == old(host.link) && emitted == []
              && router.rules == old(router.rules) && router.ipForward == old(router.ipForward)
    ensures r.Some? ==> r.value.activePeerCount == |PlacesInUse(state.peers, now)|
    ensures r.Some? ==> (r.value.applied <==> r.value.networking.Some?)
    ensures r.Some? ==> (r.value.ok <==> r.value.applied && r.value.networking.value.ok)
    ensures r.Some? && !config.dryRun ==> (r.value.applied <==> r.value.apply.Some? && r.value.apply.value.ok)
    ensures r.Some? && config.dryRun ==>
              r.value.apply.None? && (r.value.applied <==> DistinctInUse(state.peers, now))
    ensures r.Some? && r.value.applied ==> DistinctInUse(state.peers, now)
    ensures r.Some? && r.value.applied && !config.dryRun ==>
              ServesInUse(host.link, state.server, state.peers, now)
    ensures StillServes(old(host.link), host.link, state.peers, now)
    ensures r.Some? && r.value.ok && !config.dryRun ==>
              InForce(host.link, router.rules, router.ipForward, state.server, ActivePeers(state.peers, now), config, p)
    ensures r.None? || !r.value.applied ==>
              router.rules == old(router.rules) && router.ipForward == old(router.ipForward)
    ensures r.Some? && !config.dryRun && r.value.applied ==>
              Converged(host.link, state.server, ActivePeers(state.peers, now))
    ensures Served(old(host.link), host.link, ActivePeers(state.peers, now))
    ensures Recorded(old(state.events), state.events, emitted, state.revision, now)
  {
    hide Recorded, NoDuplicates, ActivePeers, Wired, Converged, Settled, Specs, DistinctInUse, ServesInUse, StillServes,
         PlacesInUse, Served;
    RecordedNone(state.events, state.revision, now);
    var active := ActivePeers(state.peers, now);
    ActiveDistinct(state.peers, now);
    ActiveCount(state.peers, now);
    KeptServes(host.link, host.link, active);
    var errors := DuplicateErrors(active);
    var ok, applied, apply, thrown := |errors| == 0, false, None, false;
    emitted := [];
    if |errors| == 0 && config.dryRun {
      applied := true;
    } else if |errors| == 0 {
      thrown, apply, applied, emitted := ApplyStep(state, host, p, publicOf, now);
      ServedInUse(old(host.link), host.link, state.peers, now);
      if thrown { return None, emitted; }
      ok := applied;
    }
    var networking: Option<NetworkingResult> := None;
    ServedInUse(old(host.link), host.link, state.peers, now);
    if applied && !config.dryRun { ConvergedServes(host.link, state.server, state.peers, now); }
    if applied {
      ghost var mid, before := state.events, router.rules;
      var n, more := ApplyNetworking(config, state, router, p.hasIptables, p.route, p.routeLater, now);
      RecordedThen(old(state.events), mid, state.events, emitted, more, state.revision, now);
      emitted := emitted + more;
      networking, ok := Some(n), ok && n.ok;
      if Live(config) && n.ok {
        RulesPresent(before, router.rules, Specs(config, ResolveEgress(config, p.route).value), n, router.misread,
          router.stuck);
      }
    }
    r := Some(ReconcileResult(ok, applied, |active|, apply, networking));
  }

  // POST /reconcile: the mutator of the store update. When it throws, the
  // working copy is dropped; otherwise the new state is the store rule's.
  method ReconcileRequest(config: NetworkingConfig, state: Store.EngineState, host: Host, router: Router, p: Probes,
                          publicOf: string -> string, now: Millis)
    returns (r: Option<ReconcileResult>, ghost emitted: seq<AuditAction>)
    requires Wired(host.link)
    modifies host, router, state
    ensures r.Some? ==> state.View() == Rules.Step(old(state.View()), Rules.Op.Reconcile(emitted, now))
    ensures r.Some? && r.value.ok && !config.dryRun ==>
              InForce(host.link, router.rules, router.ipForward, state.server, ActivePeers(state.peers, now), config, p)
    ensures r.Some? && r.value.applied && !config.dryRun ==>
              ServesInUse(host.link, state.server, state.peers, now)
    ensures Wired(host.link) && StillServes(old(host.link), host.link, state.peers, now)
  {
    hide Recorded, NoDuplicates, ActivePeers, Wired, StillServes, ServesInUse, DistinctInUse, InForce, Converged;
    ghost var before := state.View();
    r, emitted := Reconcile(config, state, host, router, p, publicOf, now);
    if r.None? { return; }
    var completed := AuditEvent(ReconcileCompleted, "engine", None, None, state.revision + 1, now);
    ReconcileEvents(before, state.events, emitted, completed, now);
    state.revision := state.revision + 1;
    state.AppendEvent(completed);
  }

  lemma ReconcileEvents(before: State, events: seq<AuditEvent>, emitted: seq<AuditAction>, completed: AuditEvent,
                        now: Millis)
    requires Recorded(before.events, events, emitted, before.revision, now)
    requires completed == AuditEvent(ReconcileCompleted, "engine", None, None, before.revision + 1, now)
    ensures Rules.Step(before, Rules.Op.Reconcile(emitted, now)) ==
            before.(revision := before.revision + 1, events := Rules.Appended(events, [completed]))
  {
    hide Rules.Appended, Rules.HostEvents;
    Store.AppendedTwice(before.events, Rules.HostEvents(emitted, before.revision, now), [completed]);
  }
}
