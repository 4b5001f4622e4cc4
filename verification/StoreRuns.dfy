// Properties of whole runs of store operations.
module StoreRuns {
  import opened Wrappers
  import opened Records
  import opened StoreRules
  import opened StoreInvariants
  import Ipv4

  // ── Runs ─────────────────────────────────────────────────────────────────

  // `initialState`: it throws when the configured block does not parse.
  function InitialState(server: ServerSettings, now: Millis): Result<State, Ipv4.AddressError> {
    match Ipv4.ParseIpv4Cidr(server.tunnelCidrV4)
    case Failure(e) => Failure(e)
    case Success(c) =>
      Success(State(1, server.(serverAddressV4 := Ipv4.PeerText(c.firstHost)), [], [],
                    [AuditEvent(StateInitialized, "engine", None, None, 1, now)], map[]))
  }

  lemma InitialInvariant(server: ServerSettings, now: Millis)
    requires InitialState(server, now).Success?
    ensures Inv(InitialState(server, now).value)
  {
    hide Ipv4.ParseIpv4Cidr, Ipv4.PeerText;
  }

  function Run(s: State, ops: seq<Op>): State
    decreases |ops|
  {
    if ops == [] then s else Run(Step(s, ops[0]), ops[1..])
  }

  // Everything the run emitted, trimmed or not.
  function History(s: State, ops: seq<Op>): seq<AuditEvent>
    decreases |ops|
  {
    if ops == [] then [] else Emitted(s, ops[0]) + History(Step(s, ops[0]), ops[1..])
  }

  ghost predicate FreshRun(s: State, ops: seq<Op>)
    decreases |ops|
  {
    ops == [] || (Fresh(s, ops[0]) && FreshRun(Step(s, ops[0]), ops[1..]))
  }

  // Over any run the invariant holds at the end and the end evolves from the
  // start: the peer list only grows, identities never change, statuses only
  // advance, the revision never decreases.
  lemma {:induction false} RunKeepsInvariant(s: State, ops: seq<Op>)
    requires Inv(s) && FreshRun(s, ops)
    ensures Inv(Run(s, ops)) && Evolves(s, Run(s, ops))
    decreases |ops|
  {
    hide Inv, Step, Fresh;
    if ops != [] {
      StepKeepsInvariant(s, ops[0]);
      RunKeepsInvariant(Step(s, ops[0]), ops[1..]);
      EvolvesTransitive(s, Step(s, ops[0]), Run(s, ops));
    }
  }

  lemma {:induction false} RevisionRuns(s: State, ops: seq<Op>)
    ensures s.revision <= Run(s, ops).revision
    decreases |ops|
  {
    hide Step;
    if ops != [] {
      RevisionStep(s, ops[0]);
      RevisionRuns(Step(s, ops[0]), ops[1..]);
    }
  }

  // The stored event list is exactly the last 250 records of everything ever
  // emitted, and the emitted revisions never decrease and never exceed the
  // revision of the state.
  lemma {:induction false} EventsAreRecentHistory(s: State, ops: seq<Op>)
    requires |s.events| <= MAX_AUDIT_EVENTS
    ensures Run(s, ops).events == Recent(s.events + History(s, ops))
    ensures Within(History(s, ops), s.revision, Run(s, ops).revision)
    decreases |ops|
  {
    hide Step, Emitted;
    if ops == [] {
      assert s.events + [] == s.events;
    } else {
      var t, emitted, later := Step(s, ops[0]), Emitted(s, ops[0]), History(Step(s, ops[0]), ops[1..]);
      EventsAppended(s, ops[0]);
      EmittedWithin(s, ops[0]);
      EventsAreRecentHistory(t, ops[1..]);
      RevisionStep(s, ops[0]);
      RevisionRuns(t, ops[1..]);
      WithinConcat(emitted, later, s.revision, t.revision, Run(s, ops).revision);
      if emitted == [] {
        assert emitted + later == later;
      } else {
        RecentOfRecent(s.events + emitted, later);
        assert s.events + emitted + later == s.events + (emitted + later);
      }
    }
  }

  // ── Address conservation ─────────────────────────────────────────────────

  function LiveCount(peers: seq<PeerRecord>): nat {
    if peers == [] then 0 else (if peers[0].status != Deleted then 1 else 0) + LiveCount(peers[1..])
  }

  lemma {:induction false} LiveNumbersCount(server: ServerSettings, peers: seq<PeerRecord>)
    requires ServerOk(server) && PeersOk(server, peers)
    ensures |LiveNumbers(peers)| == LiveCount(peers)
    ensures LiveNumbers(peers) <= Ipv4.PeerRange(Ipv4.ParseIpv4Cidr(server.tunnelCidrV4).value)
  {
    hide Ipv4.ParseIpv4Cidr, Ipv4.PeerRange, AddressNumber, PeersOk;
    if peers != [] {
      TailOk(server, peers);
      LiveNumbersCount(server, peers[1..]);
      if peers[0].status != Deleted { HeadNumberIsNew(server, peers); }
    }
  }

  lemma TailOk(server: ServerSettings, peers: seq<PeerRecord>)
    requires ServerOk(server) && PeersOk(server, peers) && peers != []
    ensures PeersOk(server, peers[1..])
  {
    hide Ipv4.ParseIpv4Cidr, InTunnel, LifecycleOk;
    assert forall i | 0 <= i < |peers[1..]| :: peers[1..][i] == peers[i + 1];
  }

  lemma HeadNumberIsNew(server: ServerSettings, peers: seq<PeerRecord>)
    requires ServerOk(server) && PeersOk(server, peers) && peers != [] && peers[0].status != Deleted
    ensures AddressNumber(peers[0].addressV4).Success?
    ensures AddressNumber(peers[0].addressV4).value in Ipv4.PeerRange(Ipv4.ParseIpv4Cidr(server.tunnelCidrV4).value)
    ensures AddressNumber(peers[0].addressV4).value !in LiveNumbers(peers[1..])
  {
    hide Ipv4.ParseIpv4Cidr, Ipv4.PeerText, Ipv4.PeerRange, AddressNumber, LifecycleOk, LiveNumbers;
    assert InTunnel(server, peers[0].addressV4);
    forall i | 0 < i < |peers| && peers[i].status != Deleted
      ensures AddressNumber(peers[i].addressV4) != AddressNumber(peers[0].addressV4)
    {
      assert InTunnel(server, peers[i].addressV4);
    }
    assert forall i | 0 <= i < |peers[1..]| :: peers[1..][i] == peers[i + 1];
  }

  ghost function FreeAddresses(s: State): set<int>
    requires ServerOk(s.server)
  {
    Ipv4.PeerRange(Ipv4.ParseIpv4Cidr(s.server.tunnelCidrV4).value) - LiveNumbers(s.peers)
  }

  // In every reachable state the free addresses and the non-deleted peers
  // together make up the 2^(32-p) - 3 peer addresses of the block, and the
  // next allocation succeeds exactly while one is free.
  lemma AddressesConserved(s: State)
    requires Inv(s)
    ensures var c := Ipv4.ParseIpv4Cidr(s.server.tunnelCidrV4).value;
            && Ipv4.IsBlock(c)
            && |FreeAddresses(s)| + LiveCount(s.peers) == Ipv4.BlockSize(c.prefix) - 3
    ensures Ipv4.Allocated(s.server.tunnelCidrV4, LiveAddresses(s.peers)).Success? <==> FreeAddresses(s) != {}
  {
    hide Ipv4.ParseIpv4Cidr, Ipv4.Allocated, Ipv4.BlockSize, Ipv4.PeerRange, LiveNumbers, LiveCount, InTunnel, LinksOk,
         RevisionsOk;
    var cidr := s.server.tunnelCidrV4;
    var range, used := Ipv4.PeerRange(Ipv4.ParseIpv4Cidr(cidr).value), LiveNumbers(s.peers);
    LiveNumbersCount(s.server, s.peers);
    LiveAddressesParse(s.server, s.peers);
    Ipv4.PeerRangeSize(cidr);
    Ipv4.AllocationMeaning(cidr, LiveAddresses(s.peers));
    assert used * range == used;
    assert |range - used| == |range| - |used|;
  }

  // The server's own address is never given to a peer, not even a deleted one.
  lemma ServerAddressReserved(s: State, i: nat)
    requires Inv(s) && i < |s.peers|
    ensures s.peers[i].addressV4 != s.server.serverAddressV4
  {
    hide Ipv4.ParseIpv4Cidr, Ipv4.PeerText, AddressNumber, LiveDistinct, LinksOk, RevisionsOk;
    assert InTunnel(s.server, s.peers[i].addressV4);
    var c := Ipv4.ParseIpv4Cidr(s.server.tunnelCidrV4).value;
    Ipv4.ParsedCidrIsBlock(s.server.tunnelCidrV4);
    if s.peers[i].addressV4 == s.server.serverAddressV4 {
      Ipv4.PeerTextInjective(AddressNumber(s.peers[i].addressV4).value, c.firstHost);
    }
  }

  // ── Expiry warnings ──────────────────────────────────────────────────────

  predicate WarnsOf(e: AuditEvent, id: Id) { e.action == PeerExpiringWarned && e.targetId == Some(id) }

  // When the peer was last warned about.
  function LastWarning(history: seq<AuditEvent>, id: Id): Option<Millis> {
    if history == [] then None
    else if WarnsOf(history[|history| - 1], id) then Some(history[|history| - 1].createdAt)
    else LastWarning(history[..|history| - 1], id)
  }

  // Any two `peer.expiring.warned` events for the peer are more than 24 hours
  // apart.
  ghost predicate WarningsSpaced(history: seq<AuditEvent>, id: Id) {
    forall i, j | 0 <= i < j < |history| && WarnsOf(history[i], id) && WarnsOf(history[j], id) ::
      history[j].createdAt - history[i].createdAt > DAY_MS
  }

  // The warnings so far are spaced and the last one is the latest.
  ghost predicate HistoryOk(history: seq<AuditEvent>, id: Id) {
    && WarningsSpaced(history, id)
    && forall i | 0 <= i < |history| && WarnsOf(history[i], id) ::
         LastWarning(history, id).Some? && history[i].createdAt <= LastWarning(history, id).value
  }

  // The dedupe map remembers the last warning for as long as the peer can
  // still be warned about.
  ghost predicate Remembered(peers: seq<PeerRecord>, warned: map<Id, Millis>, last: Option<Millis>, id: Id) {
    last.Some? ==>
      && FindPeer(peers, id).Some?
      && (peers[FindPeer(peers, id).value].status == Active ==> id in warned && warned[id] == last.value)
  }

  ghost predicate WarningInv(s: State, history: seq<AuditEvent>, id: Id) {
    HistoryOk(history, id) && Remembered(s.peers, s.expiryWarned, LastWarning(history, id), id)
  }

  ghost predicate Silent(events: seq<AuditEvent>, id: Id) {
    forall i | 0 <= i < |events| :: !WarnsOf(events[i], id)
  }

  lemma {:induction false} SilentAppend(history: seq<AuditEvent>, more: seq<AuditEvent>, id: Id)
    requires Silent(more, id)
    ensures LastWarning(history + more, id) == LastWarning(history, id)
  {
    var all := history + more;
    if more == [] {
      assert all == history;
    } else {
      assert all[..|all| - 1] == history + more[..|more| - 1];
      SilentAppend(history, more[..|more| - 1], id);
    }
  }

  lemma SilentKeeps(history: seq<AuditEvent>, more: seq<AuditEvent>, id: Id)
    requires HistoryOk(history, id) && Silent(more, id)
    ensures HistoryOk(history + more, id) && LastWarning(history + more, id) == LastWarning(history, id)
  {
    hide LastWarning;
    SilentAppend(history, more, id);
    var all := history + more;
    forall i | 0 <= i < |all| && WarnsOf(all[i], id) ensures i < |history| && all[i] == history[i] {}
  }

  lemma WarningExtends(history: seq<AuditEvent>, e: AuditEvent, id: Id)
    requires HistoryOk(history, id) && WarnsOf(e, id)
    requires LastWarning(history, id).Some? ==> e.createdAt - LastWarning(history, id).value > DAY_MS
    ensures HistoryOk(history + [e], id) && LastWarning(history + [e], id) == Some(e.createdAt)
  {
    var all := history + [e];
    assert all[..|all| - 1] == history;
    forall i | 0 <= i < |all| && WarnsOf(all[i], id) && i < |history|
      ensures e.createdAt - all[i].createdAt > DAY_MS
    {
      assert all[i] == history[i];
    }
  }

  // Only a sweep warns.
  lemma OnlySweepsWarn(s: State, op: Op, id: Id)
    requires !op.Sweep?
    ensures Silent(Emitted(s, op), id)
    ensures Step(s, op).expiryWarned == s.expiryWarned
  {
    hide CreatePeerEffect, UpdatePersonEffect, SweepEffect, Recent, HostEvents, CascadeEvents, CascadedPeers,
         DevicesRevoked;
    match op
    case CreatePeer(_, _, _, _) => CreateSilent(s, op, id);
    case UpdatePerson(_, _, _) => UpdateSilent(s, op, id);
    case DeletePerson(pid, _, now) =>
      if FindPerson(s.persons, pid).Some? {
        CascadeSilent(s.peers, s.persons[FindPerson(s.persons, pid).value], s.revision, now, id);
      }
    case _ =>
  }

  lemma CreateSilent(s: State, op: Op, id: Id)
    requires op.CreatePeer?
    ensures Silent(Emitted(s, op), id) && Step(s, op).expiryWarned == s.expiryWarned
  {
    hide Ipv4.Allocated, LiveAddresses, PeerKeys, PersonGate, NameInUse, KeyInUse, NewPeer;
  }

  lemma UpdateSilent(s: State, op: Op, id: Id)
    requires op.UpdatePerson?
    ensures Silent(Emitted(s, op), id) && Step(s, op).expiryWarned == s.expiryWarned
  {
    hide PatchedPerson;
  }

  lemma {:induction false} CascadeSilent(peers: seq<PeerRecord>, person: PersonRecord, revision: nat, now: Millis,
                                         id: Id)
    ensures Silent(CascadeEvents(peers, person, revision, now), id)
  {
    if peers != [] { CascadeSilent(peers[..|peers| - 1], person, revision, now, id); }
  }

  ghost predicate NotDue(peers: seq<PeerRecord>, warned: map<Id, Millis>, o: SweepOptions, id: Id) {
    forall k | 0 <= k < |peers| && peers[k].id == id :: !SweepWarns(peers[k], warned, o)
  }

  lemma {:induction false} SweepSilent(peers: seq<PeerRecord>, warned: map<Id, Millis>, revision: nat,
                                       o: SweepOptions, id: Id)
    requires NotDue(peers, warned, o, id)
    ensures Silent(SweepEvents(peers, warned, revision, o), id)
  {
    hide SweepWarns, SweepExpires;
    if peers != [] { SweepSilent(peers[..|peers| - 1], warned, revision, o, id); }
  }

  // A sweep warns about a due peer exactly once, at its own time.
  lemma {:induction false} SweepWarnsOnce(peers: seq<PeerRecord>, warned: map<Id, Millis>, revision: nat,
                                          o: SweepOptions, k: nat)
    returns (before: seq<AuditEvent>, after: seq<AuditEvent>)
    requires UniqueIds(peers) && k < |peers| && SweepWarns(peers[k], warned, o)
    ensures SweepEvents(peers, warned, revision, o) ==
            before + [SweepEvent(PeerExpiringWarned, peers[k], revision, o)] + after
    ensures Silent(before, peers[k].id) && Silent(after, peers[k].id)
  {
    var init, last := peers[..|peers| - 1], peers[|peers| - 1];
    if k < |init| {
      before, after := SweepWarnsOnce(init, warned, revision, o, k);
      after := after + PeerSweepEvents(last, warned, revision, o);
    } else {
      SweepSilent(init, warned, revision, o, last.id);
      before, after := SweepEvents(init, warned, revision, o), [];
    }
  }

  // The dedupe map after a sweep, peer by peer.
  lemma {:induction false} WarnedNextOf(peers: seq<PeerRecord>, warned: map<Id, Millis>, o: SweepOptions, k: nat)
    requires UniqueIds(peers) && k < |peers|
    ensures var next, id := WarnedNext(peers, warned, o), peers[k].id;
            && (SweepWarns(peers[k], warned, o) ==> id in next && next[id] == o.now)
            && (!SweepWarns(peers[k], warned, o) && !(o.autoRevoke && SweepExpires(peers[k], o)) ==>
                  (id in next <==> id in warned) && (id in warned ==> next[id] == warned[id]))
  {
    var init, last := peers[..|peers| - 1], peers[|peers| - 1];
    if k < |init| {
      WarnedNextOf(init, warned, o, k);
      assert last.id != peers[k].id;
    } else {
      WarnedNextElsewhere(init, warned, o, last.id);
    }
  }

  lemma {:induction false} WarnedNextElsewhere(peers: seq<PeerRecord>, warned: map<Id, Millis>, o: SweepOptions, id: Id)
    requires forall k | 0 <= k < |peers| :: peers[k].id != id
    ensures var next := WarnedNext(peers, warned, o);
            (id in next <==> id in warned) && (id in warned ==> next[id] == warned[id])
  {
    if peers != [] { WarnedNextElsewhere(peers[..|peers| - 1], warned, o, id); }
  }

  lemma FoundAt(peers: seq<PeerRecord>, k: nat)
    requires UniqueIds(peers) && k < |peers|
    ensures FindPeer(peers, peers[k].id) == Some(k)
  {
  }

  // A known peer keeps its place, and is active afterwards only if it was.
  lemma PeerPersists(s: State, op: Op, id: Id)
    requires Inv(s) && Fresh(s, op) && FindPeer(s.peers, id).Some?
    ensures var k := FindPeer(s.peers, id).value; var t := Step(s, op);
            && FindPeer(t.peers, id) == Some(k)
            && (t.peers[k].status == Active ==> s.peers[k].status == Active)
  {
    hide Step, InTunnel, LifecycleOk, LinksOk, RevisionsOk, LiveDistinct, Ipv4.ParseIpv4Cidr;
    var k, t := FindPeer(s.peers, id).value, Step(s, op);
    StepKeepsInvariant(s, op);
    assert PeerEvolves(s.peers[k], t.peers[k]);
    FoundAt(t.peers, k);
  }

  lemma SweepEmits(s: State, o: SweepOptions)
    ensures Emitted(s, Sweep(o)) == SweepEvents(s.peers, s.expiryWarned, s.revision, o)
    ensures Step(s, Sweep(o)).peers == SweptPeers(s.peers, o)
    ensures Step(s, Sweep(o)).expiryWarned == WarnedNext(s.peers, s.expiryWarned, o)
  {
  }

  // The dedupe map keeps up with a sweep.
  lemma SweepRemembers(s: State, last: Option<Millis>, o: SweepOptions, id: Id)
    requires Inv(s) && Remembered(s.peers, s.expiryWarned, last, id) && last.Some?
    requires NotDue(s.peers, s.expiryWarned, o, id)
    ensures Remembered(Step(s, Sweep(o)).peers, Step(s, Sweep(o)).expiryWarned, last, id)
  {
    hide Step, SweepWarns, SweepExpires, WarnedNext, InTunnel, LifecycleOk, LinksOk, RevisionsOk, LiveDistinct,
         Ipv4.ParseIpv4Cidr;
    var k := FindPeer(s.peers, id).value;
    SweepEmits(s, o);
    PeerPersists(s, Sweep(o), id);
    WarnedNextOf(s.peers, s.expiryWarned, o, k);
  }

  lemma WarningInserted(history: seq<AuditEvent>, before: seq<AuditEvent>, e: AuditEvent, after: seq<AuditEvent>,
                        id: Id)
    requires HistoryOk(history, id) && WarnsOf(e, id) && Silent(before, id) && Silent(after, id)
    requires LastWarning(history, id).Some? ==> e.createdAt - LastWarning(history, id).value > DAY_MS
    ensures HistoryOk(history + (before + [e] + after), id)
    ensures LastWarning(history + (before + [e] + after), id) == Some(e.createdAt)
  {
    hide HistoryOk, LastWarning, Silent;
    SilentKeeps(history, before, id);
    WarningExtends(history + before, e, id);
    SilentKeeps(history + before + [e], after, id);
    assert history + (before + [e] + after) == history + before + [e] + after;
  }

  // The one warning a sweep emits for a peer comes more than a day after the
  // last, and the dedupe map moves to it.
  lemma SweepWarned(s: State, history: seq<AuditEvent>, o: SweepOptions, k: nat)
    requires Inv(s) && k < |s.peers| && WarningInv(s, history, s.peers[k].id)
    requires SweepWarns(s.peers[k], s.expiryWarned, o)
    ensures WarningInv(Step(s, Sweep(o)), history + Emitted(s, Sweep(o)), s.peers[k].id)
  {
    hide Step, Emitted, HistoryOk, LastWarning, WarnedNext, SweepEvents, SweptPeers, InTunnel, LifecycleOk, LinksOk,
         RevisionsOk, LiveDistinct, Ipv4.ParseIpv4Cidr;
    FoundAt(s.peers, k);
    SweepEmits(s, o);
    var before, after := SweepWarnsOnce(s.peers, s.expiryWarned, s.revision, o, k);
    WarningInserted(history, before, SweepEvent(PeerExpiringWarned, s.peers[k], s.revision, o), after, s.peers[k].id);
    WarnedNextOf(s.peers, s.expiryWarned, o, k);
    PeerPersists(s, Sweep(o), s.peers[k].id);
  }

  // Each operation keeps the warnings spaced.
  lemma WarningStep(s: State, history: seq<AuditEvent>, op: Op, id: Id)
    requires Inv(s) && Fresh(s, op) && WarningInv(s, history, id)
    ensures WarningInv(Step(s, op), history + Emitted(s, op), id)
  {
    hide Inv, Step, Emitted, HistoryOk, LastWarning, SweepWarns, SweepEvents;
    var last := LastWarning(history, id);
    if op.Sweep? {
      if k :| 0 <= k < |s.peers| && s.peers[k].id == id && SweepWarns(s.peers[k], s.expiryWarned, op.options) {
        SweepWarned(s, history, op.options, k);
      } else {
        SweepEmits(s, op.options);
        SweepSilent(s.peers, s.expiryWarned, s.revision, op.options, id);
        SilentKeeps(history, Emitted(s, op), id);
        if last.Some? { SweepRemembers(s, last, op.options, id); }
      }
    } else {
      OnlySweepsWarn(s, op, id);
      SilentKeeps(history, Emitted(s, op), id);
      if last.Some? { PeerPersists(s, op, id); }
    }
  }

  // Over any run of operations with arbitrary clock readings, two warnings for
  // the same peer are more than 24 hours apart.
  lemma {:induction false} RunKeepsWarningsSpaced(s: State, history: seq<AuditEvent>, ops: seq<Op>, id: Id)
    requires Inv(s) && FreshRun(s, ops) && WarningInv(s, history, id)
    ensures WarningsSpaced(history + History(s, ops), id)
    decreases |ops|
  {
    hide Inv, Step, Emitted, WarningInv, Fresh;
    if ops == [] {
      assert history + [] == history;
      WarningInvSpaced(s, history, id);
    } else {
      var t, emitted := Step(s, ops[0]), Emitted(s, ops[0]);
      StepKeepsInvariant(s, ops[0]);
      WarningStep(s, history, ops[0], id);
      RunKeepsWarningsSpaced(t, history + emitted, ops[1..], id);
      Associate(history, emitted, History(t, ops[1..]));
    }
  }

  lemma Associate(a: seq<AuditEvent>, b: seq<AuditEvent>, c: seq<AuditEvent>)
    ensures a + b + c == a + (b + c)
  {
  }

  lemma WarningInvSpaced(s: State, history: seq<AuditEvent>, id: Id)
    requires WarningInv(s, history, id)
    ensures WarningsSpaced(history, id)
  {
  }

  // From the initial state of the store, for every peer.
  lemma WarningsAreSpaced(server: ServerSettings, start: Millis, ops: seq<Op>, id: Id)
    requires InitialState(server, start).Success? && FreshRun(InitialState(server, start).value, ops)
    ensures WarningsSpaced(History(InitialState(server, start).value, ops), id)
  {
    hide Inv, FreshRun, InitialState;
    var s := InitialState(server, start).value;
    InitialInvariant(server, start);
    RunKeepsWarningsSpaced(s, [], ops, id);
    assert [] + History(s, ops) == History(s, ops);
  }
}
