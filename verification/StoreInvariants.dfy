// What every operation of the state store keeps, and what holds over whole
// runs of operations from the initial state.
module StoreInvariants {
  import opened Wrappers
  import opened Text
  import opened Records
  import opened StoreRules
  import Ipv4

  // ── The invariant ────────────────────────────────────────────────────────

  ghost predicate UniqueIds(peers: seq<PeerRecord>) {
    forall i, j | 0 <= i < j < |peers| :: peers[i].id != peers[j].id
  }

  // Names, keys and addresses are pairwise distinct among non-deleted peers.
  ghost predicate LiveDistinct(peers: seq<PeerRecord>) {
    forall i, j | 0 <= i < j < |peers| && peers[i].status != Deleted && peers[j].status != Deleted ::
      && peers[i].name != peers[j].name
      && peers[i].publicKey != peers[j].publicKey
      && peers[i].addressV4 != peers[j].addressV4
  }

  function AddressNumber(address: string): Result<nat, Ipv4.AddressError> {
    Ipv4.Ipv4ToNumber(Split(address, '/')[0])
  }

  ghost predicate ServerOk(server: ServerSettings) {
    && Ipv4.ParseIpv4Cidr(server.tunnelCidrV4).Success?
    && server.serverAddressV4 == Ipv4.PeerText(Ipv4.ParseIpv4Cidr(server.tunnelCidrV4).value.firstHost)
  }

  // The address is a peer address of the tunnel block, in canonical text.
  ghost predicate InTunnel(server: ServerSettings, address: string)
    requires ServerOk(server)
  {
    && AddressNumber(address).Success?
    && AddressNumber(address).value in Ipv4.PeerRange(Ipv4.ParseIpv4Cidr(server.tunnelCidrV4).value)
    && address == Ipv4.PeerText(AddressNumber(address).value)
  }

  ghost predicate LifecycleOk(peer: PeerRecord) {
    && peer.status != Disabled
    && (peer.revokedAt.Some? <==> peer.status != Active)
    && (peer.deletedAt.Some? <==> peer.status == Deleted)
  }

  ghost predicate Registered(persons: seq<PersonRecord>, id: Id) {
    exists q | q in persons :: q.id == id
  }

  ghost predicate LinkOk(peer: PeerRecord, persons: seq<PersonRecord>) {
    peer.status == Active && peer.personId.Some? ==> Registered(persons, peer.personId.value)
  }

  ghost predicate RevisionsOk(events: seq<AuditEvent>, revision: nat) {
    && (forall i, j | 0 <= i < j < |events| :: events[i].revision <= events[j].revision)
    && (forall i | 0 <= i < |events| :: events[i].revision <= revision)
  }

  ghost predicate PeersOk(server: ServerSettings, peers: seq<PeerRecord>)
    requires ServerOk(server)
  {
    && UniqueIds(peers)
    && LiveDistinct(peers)
    && (forall i | 0 <= i < |peers| :: InTunnel(server, peers[i].addressV4))
    && (forall i | 0 <= i < |peers| :: LifecycleOk(peers[i]))
  }

  ghost predicate LinksOk(peers: seq<PeerRecord>, persons: seq<PersonRecord>) {
    forall i | 0 <= i < |peers| :: LinkOk(peers[i], persons)
  }

  ghost predicate Inv(s: State) {
    && ServerOk(s.server)
    && PeersOk(s.server, s.peers)
    && LinksOk(s.peers, s.persons)
    && |s.events| <= MAX_AUDIT_EVENTS
    && RevisionsOk(s.events, s.revision)
  }

  // `randomUUID` never repeats an identifier of the state.
  ghost predicate Fresh(s: State, op: Op) {
    && (op.CreatePeer? ==> FindPeer(s.peers, op.id).None?)
    && (op.CreatePerson? ==> FindPerson(s.persons, op.id).None?)
  }

  // ── How one peer may change ──────────────────────────────────────────────

  function Rank(status: PeerStatus): nat {
    match status
    case Active => 0
    case Disabled => 1
    case Revoked => 2
    case Deleted => 3
  }

  ghost predicate PeerEvolves(p: PeerRecord, q: PeerRecord) {
    && p.id == q.id && p.name == q.name && p.addressV4 == q.addressV4
    && p.publicKey == q.publicKey && p.privateKey == q.privateKey
    && p.personId == q.personId && p.createdAt == q.createdAt
    && Rank(p.status) <= Rank(q.status)
  }

  ghost predicate PeersEvolve(peers: seq<PeerRecord>, later: seq<PeerRecord>) {
    |peers| <= |later| && forall i | 0 <= i < |peers| :: PeerEvolves(peers[i], later[i])
  }

  // The peer list only grows; identities never change; status only advances
  // from active to revoked to deleted; the revision never decreases.
  ghost predicate Evolves(s: State, t: State) {
    s.server == t.server && s.revision <= t.revision && PeersEvolve(s.peers, t.peers)
  }

  lemma EvolvesTransitive(s: State, t: State, u: State)
    requires Evolves(s, t) && Evolves(t, u)
    ensures Evolves(s, u)
  {
    forall i | 0 <= i < |s.peers| ensures PeerEvolves(s.peers[i], u.peers[i]) {
      assert PeerEvolves(s.peers[i], t.peers[i]) && PeerEvolves(t.peers[i], u.peers[i]);
    }
  }

  // ── Allocation against the live addresses ────────────────────────────────

  ghost function LiveNumbers(peers: seq<PeerRecord>): (r: set<nat>)
    ensures forall i | 0 <= i < |peers| && peers[i].status != Deleted && AddressNumber(peers[i].addressV4).Success? ::
              AddressNumber(peers[i].addressV4).value in r
    ensures forall n | n in r ::
              exists i | 0 <= i < |peers| :: peers[i].status != Deleted &&
                AddressNumber(peers[i].addressV4) == Success(n)
  {
    hide AddressNumber;
    if peers == [] then {}
    else
      var head, rest := peers[0], peers[1..];
      assert forall i | 0 < i < |peers| :: peers[i] == rest[i - 1];
      assert forall i | 0 <= i < |rest| :: rest[i] == peers[i + 1];
      (if head.status != Deleted && AddressNumber(head.addressV4).Success? then
          {AddressNumber(head.addressV4).value} else {})
      + LiveNumbers(rest)
  }

  lemma {:induction false} LiveAddressesParse(server: ServerSettings, peers: seq<PeerRecord>)
    requires ServerOk(server) && forall i | 0 <= i < |peers| :: InTunnel(server, peers[i].addressV4)
    ensures Ipv4.UsedAddresses(LiveAddresses(peers)) == Success(LiveNumbers(peers))
  {
    hide Ipv4.ParseIpv4Cidr, Ipv4.PeerText, Ipv4.PeerRange, Ipv4.Ipv4ToNumber, Split, ServerOk;
    if peers != [] {
      assert InTunnel(server, peers[0].addressV4);
      LiveAddressesParse(server, peers[1..]);
      var rest := LiveAddresses(peers[1..]);
      if peers[0].status != Deleted {
        assert LiveAddresses(peers)[1..] == rest;
      } else {
        assert LiveAddresses(peers) == rest && LiveNumbers(peers) == LiveNumbers(peers[1..]);
      }
    }
  }

  lemma PeerTextInTunnel(server: ServerSettings, n: nat)
    requires ServerOk(server) && n in Ipv4.PeerRange(Ipv4.ParseIpv4Cidr(server.tunnelCidrV4).value)
    ensures InTunnel(server, Ipv4.PeerText(n)) && AddressNumber(Ipv4.PeerText(n)) == Success(n)
  {
    hide Ipv4.ParseIpv4Cidr, Ipv4.PeerText, Ipv4.Ipv4ToNumber, Split;
    Ipv4.ParsedCidrIsBlock(server.tunnelCidrV4);
    Ipv4.PeerTextRoundTrip(n);
  }

  // A new address is in the tunnel block and differs from every live one.
  lemma AllocatedIsNew(server: ServerSettings, peers: seq<PeerRecord>)
    requires ServerOk(server) && forall i | 0 <= i < |peers| :: InTunnel(server, peers[i].addressV4)
    requires Ipv4.Allocated(server.tunnelCidrV4, LiveAddresses(peers)).Success?
    ensures InTunnel(server, Ipv4.Allocated(server.tunnelCidrV4, LiveAddresses(peers)).value)
    ensures forall i | 0 <= i < |peers| && peers[i].status != Deleted ::
              peers[i].addressV4 != Ipv4.Allocated(server.tunnelCidrV4, LiveAddresses(peers)).value
  {
    hide Ipv4.ParseIpv4Cidr, Ipv4.PeerText, Ipv4.Allocated, LiveAddresses, AddressNumber, Ipv4.PeerRange;
    LiveAddressesParse(server, peers);
    var n := Ipv4.AllocatedNumber(server.tunnelCidrV4, LiveAddresses(peers));
    PeerTextInTunnel(server, n);
    forall i | 0 <= i < |peers| && peers[i].status != Deleted
      ensures peers[i].addressV4 != Ipv4.PeerText(n)
    {
      assert InTunnel(server, peers[i].addressV4);
    }
  }

  // ── One step ─────────────────────────────────────────────────────────────

  lemma RevocationEvolves(peer: PeerRecord, now: Millis)
    requires LifecycleOk(peer) && peer.status != Deleted
    ensures PeerEvolves(peer, RevokedPeer(peer, now)) && LifecycleOk(RevokedPeer(peer, now))
    ensures PeerEvolves(peer, DeletedPeer(peer, now)) && LifecycleOk(DeletedPeer(peer, now))
  {
  }

  ghost predicate InPlace(peers: seq<PeerRecord>, later: seq<PeerRecord>) {
    && |peers| == |later| && PeersEvolve(peers, later)
    && forall i | 0 <= i < |later| :: LifecycleOk(later[i])
  }

  lemma ReplacementInPlace(peers: seq<PeerRecord>, k: nat, now: Millis)
    requires k < |peers| && (forall i | 0 <= i < |peers| :: LifecycleOk(peers[i])) && peers[k].status != Deleted
    ensures InPlace(peers, peers[k := RevokedPeer(peers[k], now)])
    ensures InPlace(peers, peers[k := DeletedPeer(peers[k], now)])
  {
    RevocationEvolves(peers[k], now);
  }

  lemma BulkInPlace(peers: seq<PeerRecord>, o: SweepOptions, person: Id, now: Millis)
    requires forall i | 0 <= i < |peers| :: LifecycleOk(peers[i])
    ensures InPlace(peers, SweptPeers(peers, o))
    ensures InPlace(peers, CascadedPeers(peers, person, now))
    ensures InPlace(peers, DevicesRevoked(peers, person, now))
  {
  }

  // The operations that leave the peer list untouched.
  predicate KeepsPeers(op: Op) {
    match op
    case CreatePeer(_, _, _, _) => false
    case RevokePeer(_, _) => false
    case DeletePeer(_, _) => false
    case Sweep(_) => false
    case DeletePerson(_, force, _) => !force
    case RevokePersonDevices(_, _, _) => false
    case _ => true
  }

  lemma PeersFrame(s: State, op: Op)
    requires KeepsPeers(op)
    ensures Step(s, op).peers == s.peers
  {
  }

  lemma RevisionStep(s: State, op: Op)
    ensures Step(s, op).server == s.server && s.revision <= Step(s, op).revision <= s.revision + 1
  {
  }

  // Every operation but creation changes peers in place, each along its
  // lifecycle.
  lemma InPlaceStep(s: State, op: Op)
    requires (forall i | 0 <= i < |s.peers| :: LifecycleOk(s.peers[i])) && !op.CreatePeer?
    ensures InPlace(s.peers, Step(s, op).peers)
  {
    hide InPlace;
    match op
    case RevokePeer(id, now) =>
      UnchangedInPlace(s.peers);
      if LivePeer(s, id).Some? { ReplacementInPlace(s.peers, LivePeer(s, id).value, now); }
    case DeletePeer(id, now) =>
      UnchangedInPlace(s.peers);
      if LivePeer(s, id).Some? { ReplacementInPlace(s.peers, LivePeer(s, id).value, now); }
    case Sweep(o) => BulkInPlace(s.peers, o, "", 0);
    case DeletePerson(id, force, now) =>
      UnchangedInPlace(s.peers);
      BulkInPlace(s.peers, SweepOptions(false, 0, "", 0), id, now);
    case RevokePersonDevices(id, _, now) =>
      UnchangedInPlace(s.peers);
      BulkInPlace(s.peers, SweepOptions(false, 0, "", 0), id, now);
    case _ =>
      UnchangedInPlace(s.peers);
      PeersFrame(s, op);
  }

  lemma UnchangedInPlace(peers: seq<PeerRecord>)
    requires forall i | 0 <= i < |peers| :: LifecycleOk(peers[i])
    ensures InPlace(peers, peers)
  {
  }

  lemma InPlaceKeepsPeers(server: ServerSettings, peers: seq<PeerRecord>, later: seq<PeerRecord>)
    requires ServerOk(server) && PeersOk(server, peers)
    requires InPlace(peers, later)
    ensures PeersOk(server, later)
  {
    hide Ipv4.ParseIpv4Cidr, InTunnel, AddressNumber;
    forall i | 0 <= i < |later| ensures InTunnel(server, later[i].addressV4) {
      assert PeerEvolves(peers[i], later[i]) && InTunnel(server, peers[i].addressV4);
    }
    forall i, j | 0 <= i < j < |later| ensures later[i].id != later[j].id {
      assert PeerEvolves(peers[i], later[i]) && PeerEvolves(peers[j], later[j]);
    }
    forall i, j | 0 <= i < j < |later| && later[i].status != Deleted && later[j].status != Deleted
      ensures later[i].name != later[j].name && later[i].publicKey != later[j].publicKey
              && later[i].addressV4 != later[j].addressV4
    {
      assert PeerEvolves(peers[i], later[i]) && PeerEvolves(peers[j], later[j]);
    }
  }

  lemma CreateKeepsPeers(s: State, op: Op)
    requires Inv(s) && Fresh(s, op) && op.CreatePeer? && Apply(s, op).Success?
    ensures var t := Step(s, op);
            && t.server == s.server && t.persons == s.persons && t.revision == s.revision + 1
            && |t.peers| == |s.peers| + 1 && t.peers[..|s.peers|] == s.peers
            && PeersOk(s.server, t.peers) && LinkOk(t.peers[|s.peers|], s.persons)
  {
    hide Ipv4.ParseIpv4Cidr, Ipv4.Allocated, InTunnel, AddressNumber, LiveAddresses, CreateEvents;
    var t := Step(s, op);
    var peer := t.peers[|s.peers|];
    AllocatedIsNew(s.server, s.peers);
    if op.input.personId.Some? {
      var k := FindPerson(s.persons, op.input.personId.value).value;
      assert s.persons[k] in s.persons;
    }
    forall i | 0 <= i < |s.peers| ensures t.peers[i] == s.peers[i] && s.peers[i].id != peer.id {}
  }

  lemma LinksKept(s: State, op: Op)
    requires Inv(s) && Fresh(s, op)
    ensures LinksOk(Step(s, op).peers, Step(s, op).persons)
  {
    hide Ipv4.ParseIpv4Cidr, Ipv4.Allocated, InTunnel, CreateEvents, SweepEvents, CascadeEvents;
    var t := Step(s, op);
    if op.CreatePeer? {
      if Apply(s, op).Success? {
        CreateKeepsPeers(s, op);
        forall i | 0 <= i < |t.peers| ensures LinkOk(t.peers[i], t.persons) {
          if i < |s.peers| { assert t.peers[i] == t.peers[..|s.peers|][i]; }
        }
      }
    } else {
      InPlaceStep(s, op);
      forall i | 0 <= i < |t.peers| && t.peers[i].status == Active && t.peers[i].personId.Some?
        ensures Registered(t.persons, t.peers[i].personId.value)
      {
        assert PeerEvolves(s.peers[i], t.peers[i]) && LinkOk(s.peers[i], s.persons);
        PersonsKept(s, op, i);
      }
    }
  }

  lemma PersonsFrame(s: State, op: Op)
    requires !op.CreatePerson? && !op.UpdatePerson? && !op.DeletePerson?
    ensures Step(s, op).persons == s.persons
  {
  }

  lemma ReplacedStillRegistered(persons: seq<PersonRecord>, k: nat, person: PersonRecord, id: Id)
    requires k < |persons| && person.id == persons[k].id && Registered(persons, id)
    ensures Registered(persons[k := person], id)
  {
    var q :| q in persons && q.id == id;
    var j :| 0 <= j < |persons| && persons[j] == q;
    assert persons[k := person][j].id == id;
  }

  // A person who still owns an active peer after the step is still there.
  lemma PersonsKept(s: State, op: Op, i: nat)
    requires i < |s.peers| == |Step(s, op).peers| && !op.CreatePeer?
    requires Step(s, op).peers[i].status == Active && s.peers[i].personId.Some?
    requires Registered(s.persons, s.peers[i].personId.value)
    ensures Registered(Step(s, op).persons, s.peers[i].personId.value)
  {
    hide Recent, HostEvents, CascadeEvents, SweepEffect, CreatePeerEffect, ValidName, ValidNotes, Trim;
    var id := s.peers[i].personId.value;
    var q :| q in s.persons && q.id == id;
    var t := Step(s, op);
    match op
    case CreatePerson(_, _, _, _) =>
      assert q in t.persons;
    case UpdatePerson(pid, patch, now) =>
      if Apply(s, op).Success? {
        var k := FindPerson(s.persons, pid).value;
        ReplacedStillRegistered(s.persons, k, PatchedPerson(s.persons[k], patch, now).value, id);
      }
    case DeletePerson(pid, force, now) =>
      if Apply(s, op).Success? {
        var k := FindPerson(s.persons, pid).value;
        if force {
          assert t.peers[i] == CascadedPeer(s.peers[i], pid, now);
          assert q in t.persons;
        } else {
          ReplacedStillRegistered(s.persons, k, s.persons[k].(status := Archived, updatedAt := now), id);
        }
      }
    case _ =>
      PersonsFrame(s, op);
  }

  // ── The event log ────────────────────────────────────────────────────────

  // Revisions of one operation's events: nondecreasing, between the old and
  // the new revision of the state.
  ghost predicate Within(events: seq<AuditEvent>, lo: nat, hi: nat) {
    && (forall i | 0 <= i < |events| :: lo <= events[i].revision <= hi)
    && (forall i, j | 0 <= i < j < |events| :: events[i].revision <= events[j].revision)
  }

  lemma WithinConcat(a: seq<AuditEvent>, b: seq<AuditEvent>, lo: nat, mid: nat, hi: nat)
    requires lo <= mid <= hi && Within(a, lo, mid) && Within(b, mid, hi)
    ensures Within(a + b, lo, hi)
  {
  }

  lemma {:induction false} SweepEventsRevision(peers: seq<PeerRecord>, warned: map<Id, Millis>, revision: nat,
                                               o: SweepOptions)
    ensures Within(SweepEvents(peers, warned, revision, o), revision, revision)
  {
    if peers != [] { SweepEventsRevision(peers[..|peers| - 1], warned, revision, o); }
  }

  lemma {:induction false} CascadeEventsRevision(peers: seq<PeerRecord>, person: PersonRecord, revision: nat,
                                                 now: Millis)
    ensures Within(CascadeEvents(peers, person, revision, now), revision, revision)
  {
    if peers != [] { CascadeEventsRevision(peers[..|peers| - 1], person, revision, now); }
  }

  lemma EmittedWithin(s: State, op: Op)
    ensures Within(Emitted(s, op), s.revision, Step(s, op).revision)
  {
    hide CreatePeerEffect, UpdatePersonEffect, Recent, HostEvents, CascadeEvents, CascadedPeers, DevicesRevoked;
    match op
    case CreatePeer(_, _, _, _) => CreateWithin(s, op);
    case UpdatePerson(_, _, _) => UpdateWithin(s, op);
    case Sweep(o) => SweepEventsRevision(s.peers, s.expiryWarned, s.revision, o);
    case DeletePerson(id, _, now) =>
      if FindPerson(s.persons, id).Some? {
        CascadeEventsRevision(s.peers, s.persons[FindPerson(s.persons, id).value], s.revision, now);
      }
    case _ =>
  }

  lemma CreateWithin(s: State, op: Op)
    requires op.CreatePeer?
    ensures Within(Emitted(s, op), s.revision, Step(s, op).revision)
  {
    hide Ipv4.Allocated, LiveAddresses, PeerKeys, PersonGate, NameInUse, KeyInUse, NewPeer;
  }

  lemma UpdateWithin(s: State, op: Op)
    requires op.UpdatePerson?
    ensures Within(Emitted(s, op), s.revision, Step(s, op).revision)
  {
    hide PatchedPerson;
  }

  lemma EventsAppended(s: State, op: Op)
    ensures Step(s, op).events == Appended(s.events, Emitted(s, op))
  {
  }

  lemma RevisionsKept(events: seq<AuditEvent>, revision: nat, emitted: seq<AuditEvent>, later: nat)
    requires |events| <= MAX_AUDIT_EVENTS && RevisionsOk(events, revision)
    requires revision <= later && Within(emitted, revision, later)
    ensures |Appended(events, emitted)| <= MAX_AUDIT_EVENTS && RevisionsOk(Appended(events, emitted), later)
  {
    var all := events + emitted;
    assert RevisionsOk(all, later);
  }

  // ── The step theorem ─────────────────────────────────────────────────────

  // Every operation keeps the invariant and moves the state along its
  // lifecycle; a throwing one changes nothing.
  lemma StepKeepsInvariant(s: State, op: Op)
    requires Inv(s) && Fresh(s, op)
    ensures Inv(Step(s, op)) && Evolves(s, Step(s, op))
    ensures Apply(s, op).Failure? ==> Step(s, op) == s
  {
    hide Apply, Ipv4.ParseIpv4Cidr, InTunnel, LinkOk, LifecycleOk, RevisionsOk, Emitted;
    RevisionStep(s, op);
    LinksKept(s, op);
    EmittedWithin(s, op);
    EventsAppended(s, op);
    RevisionsKept(s.events, s.revision, Emitted(s, op), Step(s, op).revision);
    if op.CreatePeer? {
      if Apply(s, op).Success? {
        CreateKeepsPeers(s, op);
        forall i | 0 <= i < |s.peers| ensures PeerEvolves(s.peers[i], Step(s, op).peers[i]) {
          assert Step(s, op).peers[i] == Step(s, op).peers[..|s.peers|][i];
        }
      }
    } else {
      InPlaceStep(s, op);
      InPlaceKeepsPeers(s.server, s.peers, Step(s, op).peers);
    }
  }
}
