// What each operation of the store does, said of the records themselves:
// which requests succeed, what every field is afterwards, which events are
// emitted, and what that means for later operations.
module StoreMeaning {
  import opened Wrappers
  import opened Records
  import opened StoreRules
  import opened StoreInvariants
  import opened StoreRuns
  import Ipv4

  // ── Finding records ──────────────────────────────────────────────────────

  ghost predicate FirstPeer(peers: seq<PeerRecord>, id: Id, k: int) {
    0 <= k < |peers| && peers[k].id == id && forall j | 0 <= j < k :: peers[j].id != id
  }

  ghost predicate FirstPerson(persons: seq<PersonRecord>, id: Id, k: int) {
    0 <= k < |persons| && persons[k].id == id && forall j | 0 <= j < k :: persons[j].id != id
  }

  // The first record with that identifier is a peer that is not deleted.
  ghost predicate Live(s: State, id: Id) {
    exists k :: FirstPeer(s.peers, id, k) && s.peers[k].status != Deleted
  }

  ghost predicate Known(s: State, id: Id) { exists k :: FirstPerson(s.persons, id, k) }

  lemma LiveFound(s: State, id: Id)
    ensures LivePeer(s, id).Some? <==> Live(s, id)
    ensures forall k | FirstPeer(s.peers, id, k) :: FindPeer(s.peers, id) == Some(k)
    ensures FindPeer(s.peers, id).Some? ==> FirstPeer(s.peers, id, FindPeer(s.peers, id).value)
  {
    forall k | FirstPeer(s.peers, id, k) ensures FindPeer(s.peers, id) == Some(k) {}
    if FindPeer(s.peers, id).Some? { assert FirstPeer(s.peers, id, FindPeer(s.peers, id).value); }
  }

  lemma PersonFound(s: State, id: Id)
    ensures FindPerson(s.persons, id).Some? <==> Known(s, id)
    ensures forall k | FirstPerson(s.persons, id, k) :: FindPerson(s.persons, id) == Some(k)
    ensures FindPerson(s.persons, id).Some? ==> FirstPerson(s.persons, id, FindPerson(s.persons, id).value)
  {
    forall k | FirstPerson(s.persons, id, k) ensures FindPerson(s.persons, id) == Some(k) {}
    if FindPerson(s.persons, id).Some? { assert FirstPerson(s.persons, id, FindPerson(s.persons, id).value); }
  }

  // ── Every operation ──────────────────────────────────────────────────────

  // The state a new installation starts with: nobody declared, and the first
  // host of the configured block for the server.
  lemma InitialMeaning(server: ServerSettings, now: Millis)
    ensures InitialState(server, now).Success? <==> Ipv4.ParseIpv4Cidr(server.tunnelCidrV4).Success?
    ensures InitialState(server, now).Success? ==>
              var s := InitialState(server, now).value;
              && s.peers == [] && s.persons == [] && s.expiryWarned == map[] && s.revision == 1
              && s.events == [AuditEvent(StateInitialized, "engine", None, None, 1, now)]
              && s.server == server.(serverAddressV4 := s.server.serverAddressV4) && ServerOk(s.server)
  {
    hide Ipv4.ParseIpv4Cidr, Ipv4.PeerText;
  }

  // What is kept of the events are the latest, and the emitted ones are last.
  lemma EventsKept(s: State, op: Op)
    ensures Emitted(s, op) == [] ==> Step(s, op).events == s.events
    ensures Emitted(s, op) != [] ==> Latest(s.events + Emitted(s, op), Step(s, op).events)
  {
    EventsAppended(s, op);
    hide Step, Emitted;
  }

  // ── Revocation and deletion ──────────────────────────────────────────────

  // The one record is replaced, the revision is one higher, and there is one
  // event; whatever the operation does not name is as before.
  ghost predicate Replaced(s: State, k: int, peer: PeerRecord, action: AuditAction, now: Millis, r: Outcome)
    requires 0 <= k < |s.peers|
  {
    && r.Success?
    && r.value.state.peers == s.peers[k := peer]
    && r.value.state == s.(peers := s.peers[k := peer], revision := s.revision + 1, events := r.value.state.events)
    && r.value.emitted == [AuditEvent(action, "engine", Some(peer.id), Some(peer.name), s.revision + 1, now)]
  }

  lemma RevokeMeaning(s: State, id: Id, now: Millis)
    ensures !Live(s, id) ==> Apply(s, Op.RevokePeer(id, now)) == Failure(NotFound)
    ensures forall k | FirstPeer(s.peers, id, k) && s.peers[k].status != Deleted ::
              Replaced(s, k, s.peers[k].(status := Revoked, revokedAt := Some(now), updatedAt := now), PeerRevoked, now,
                Apply(s, Op.RevokePeer(id, now)))
  {
    hide Recent, FirstPeer;
    LiveFound(s, id);
  }

  lemma DeleteMeaning(s: State, id: Id, now: Millis)
    ensures !Live(s, id) ==> Apply(s, Op.DeletePeer(id, now)) == Failure(NotFound)
    ensures forall k | FirstPeer(s.peers, id, k) && s.peers[k].status != Deleted ::
              var revokedAt := if s.peers[k].revokedAt.Some? then s.peers[k].revokedAt else Some(now);
              Replaced(s, k,
                s.peers[k].(status := Deleted, revokedAt := revokedAt, deletedAt := Some(now), updatedAt := now),
                PeerDeleted, now, Apply(s, Op.DeletePeer(id, now)))
  {
    hide Recent, FirstPeer;
    LiveFound(s, id);
  }

  // A peer that was revoked or deleted is never served again, whatever
  // operations follow and whatever the clock says.
  lemma RevocationIsFinal(s: State, op: Op, ops: seq<Op>, k: nat, now: Millis)
    requires Inv(s) && k < |s.peers| && (op.RevokePeer? || op.DeletePeer?) && op.id == s.peers[k].id
    requires FreshRun(Step(s, op), ops)
    ensures k < |Run(Step(s, op), ops).peers| && Run(Step(s, op), ops).peers[k].publicKey == s.peers[k].publicKey
    ensures !InUse(Run(Step(s, op), ops).peers[k], now)
  {
    hide Apply, FreshRun, Run, InTunnel, LifecycleOk, LinksOk, RevisionsOk, LiveDistinct, Ipv4.ParseIpv4Cidr,
      PastExpiry;
    RevokeMeaning(s, op.id, op.now);
    DeleteMeaning(s, op.id, op.now);
    assert FirstPeer(s.peers, op.id, k);
    var t := Step(s, op);
    assert Rank(t.peers[k].status) >= Rank(Revoked);
    StepKeepsInvariant(s, op);
    RunKeepsInvariant(t, ops);
    assert PeerEvolves(t.peers[k], Run(t, ops).peers[k]);
  }

  // ── Export ───────────────────────────────────────────────────────────────

  lemma ExportMeaning(s: State, id: Id, now: Millis)
    ensures (exists k :: FirstPeer(s.peers, id, k) && InUse(s.peers[k], now)) <==>
            Apply(s, ExportConfig(id, now)).Success?
    ensures Apply(s, ExportConfig(id, now)).Failure? ==> Apply(s, ExportConfig(id, now)).error == NotFound
    ensures forall k | FirstPeer(s.peers, id, k) && InUse(s.peers[k], now) ::
              var r := Apply(s, ExportConfig(id, now));
              && r.Success? && r.value.state == s.(events := r.value.state.events)
              && r.value.emitted ==
                 [AuditEvent(PeerConfigExported, "engine", Some(id), Some(s.peers[k].name), s.revision, now)]
  {
    hide Recent, FirstPeer, InUse, IsPeerActive;
    LiveFound(s, id);
    forall k | FirstPeer(s.peers, id, k) ensures IsPeerActive(s.peers[k], now) <==> InUse(s.peers[k], now) {
      assert FindPeer(s.peers, id) == Some(k);
      StatusMeaning(s.peers[k], now);
    }
    if FindPeer(s.peers, id).Some? { assert FirstPeer(s.peers, id, FindPeer(s.peers, id).value); }
  }

  // A reconcile bumps the revision and records its completion last, after the
  // events emitted on the way at the revision before.
  lemma ReconcileMeaning(s: State, actions: seq<AuditAction>, now: Millis)
    ensures var op := Op.Reconcile(actions, now); var emitted := Emitted(s, op);
            && Apply(s, op).Success?
            && Step(s, op) == s.(revision := s.revision + 1, events := Step(s, op).events)
            && |emitted| == |actions| + 1
            && (forall i | 0 <= i < |actions| ::
                  emitted[i] == AuditEvent(actions[i], "engine", None, None, s.revision, now))
            && emitted[|actions|] == AuditEvent(ReconcileCompleted, "engine", None, None, s.revision + 1, now)
  {
    hide Recent;
  }

  // ── Creation ─────────────────────────────────────────────────────────────

  ghost predicate NameFree(s: State, name: string) {
    forall p | p in s.peers && p.status != Deleted :: p.name != name
  }

  ghost predicate KeyFree(s: State, key: string) {
    forall p | p in s.peers && p.status != Deleted :: p.publicKey != key
  }

  ghost predicate PersonInService(s: State, id: Id) {
    exists k :: FirstPerson(s.persons, id, k) && s.persons[k].status == InService
  }

  predicate Generates(input: PeerInput) { input.generateKeys || input.publicKey == None }

  lemma Free(s: State, name: string, key: string)
    ensures NameInUse(s.peers, name) <==> !NameFree(s, name)
    ensures KeyInUse(s.peers, key) <==> !KeyFree(s, key)
  {
    if NameInUse(s.peers, name) {
      var i :| 0 <= i < |s.peers| && s.peers[i].status != Deleted && s.peers[i].name == name;
      assert s.peers[i] in s.peers;
    }
    if KeyInUse(s.peers, key) {
      var i :| 0 <= i < |s.peers| && s.peers[i].status != Deleted && s.peers[i].publicKey == key;
      assert s.peers[i] in s.peers;
    }
  }

  // The lowest address of the tunnel that no peer has which is not deleted.
  ghost predicate LowestFreeAddress(s: State, address: string)
    requires ServerOk(s.server)
  {
    && AddressNumber(address).Success? && address == Ipv4.PeerText(AddressNumber(address).value)
    && AddressNumber(address).value in FreeAddresses(s)
    && forall n | n in FreeAddresses(s) :: AddressNumber(address).value <= n
  }

  lemma LowestNumber(s: State, n: nat)
    requires ServerOk(s.server)
    requires var c := Ipv4.ParseIpv4Cidr(s.server.tunnelCidrV4).value;
             Ipv4.LowestFree(LiveNumbers(s.peers), c.firstHost + 1, c.lastHost, n)
    ensures LowestFreeAddress(s, Ipv4.PeerText(n))
  {
    hide Ipv4.ParseIpv4Cidr, Ipv4.PeerText, LiveNumbers, AddressNumber, ServerOk;
    PeerTextInTunnel(s.server, n);
  }

  lemma AllocatesLowest(s: State)
    requires Inv(s)
    ensures var r := Ipv4.Allocated(s.server.tunnelCidrV4, LiveAddresses(s.peers));
            && (r.Success? <==> FreeAddresses(s) != {})
            && (r.Success? ==> LowestFreeAddress(s, r.value))
            && (r.Failure? ==> r.error == Ipv4.NoFreeAddress)
  {
    hide Ipv4.ParseIpv4Cidr, Ipv4.Allocated, Ipv4.PeerText, LiveNumbers, AddressNumber, LiveDistinct, InTunnel, LinksOk,
         RevisionsOk, LifecycleOk, LiveAddresses, FreeAddresses, LowestFreeAddress, Ipv4.PeerRange, Ipv4.LowestFree;
    AddressesConserved(s);
    LiveAddressesParse(s.server, s.peers);
    var cidr := s.server.tunnelCidrV4;
    var c := Ipv4.ParseIpv4Cidr(cidr).value;
    Ipv4.AllocationMeaning(cidr, LiveAddresses(s.peers));
    var r := Ipv4.Allocated(cidr, LiveAddresses(s.peers));
    if r.Success? {
      var n: nat :| Ipv4.LowestFree(LiveNumbers(s.peers), c.firstHost + 1, c.lastHost, n) &&
        r == Success(Ipv4.PeerText(n));
      LowestNumber(s, n);
    }
  }

  // The first failing check is the error: the name, the keys, the key, the
  // person, the address; a request that passes them all succeeds.
  lemma CreateVerdict(s: State, op: Op)
    requires Inv(s) && op.CreatePeer?
    ensures var input, r := op.input, Apply(s, op);
            if !NameFree(s, input.name) then r == Failure(NameTaken)
            else if Generates(input) && op.generated == None then r == Failure(KeygenFailed)
            else if !KeyFree(s, if input.publicKey.Some? then input.publicKey.value else op.generated.value.publicKey)
            then r == Failure(KeyTaken)
            else if input.personId.Some? && !Known(s, input.personId.value) then r == Failure(PersonMissing)
            else if input.personId.Some? && !PersonInService(s, input.personId.value)
            then r == Failure(PersonIsArchived)
            else if FreeAddresses(s) == {} then r == Failure(AddressUnavailable(Ipv4.NoFreeAddress))
            else r.Success?
  {
    hide Inv, Ipv4.Allocated, LiveAddresses, NameInUse, KeyInUse, NameFree, KeyFree, Recent, CreateEvents,
      FreeAddresses,
         FirstPerson;
    var input := op.input;
    Free(s, input.name, "");
    AllocatesLowest(s);
    if input.personId.Some? { PersonFound(s, input.personId.value); }
    if Generates(input) && op.generated == None {
    } else {
      var key := if input.publicKey.Some? then input.publicKey.value else op.generated.value.publicKey;
      Free(s, input.name, key);
    }
  }

  // The record of the new peer, which comes last, and its one or two events.
  lemma CreateMeaning(s: State, op: Op)
    requires Inv(s) && op.CreatePeer? && Apply(s, op).Success?
    ensures var t, input := Step(s, op), op.input;
            && |t.peers| == |s.peers| + 1 && t.peers[..|s.peers|] == s.peers
            && t == s.(peers := t.peers, revision := s.revision + 1, events := t.events)
            && var p := t.peers[|s.peers|];
            && p.id == op.id && p.name == input.name
            && p.publicKey == (if input.publicKey.Some? then input.publicKey.value else op.generated.value.publicKey)
            && p.privateKey == (if Generates(input) then Some(op.generated.value.privateKey) else None)
            && p.allowedIps == (if input.allowedIps.Some? then input.allowedIps.value else s.server.defaultAllowedIps)
            && p.dnsServers == (if input.dnsServers.Some? then input.dnsServers.value else s.server.defaultDnsServers)
            && p.persistentKeepalive ==
               (if input.persistentKeepalive.Some? then input.persistentKeepalive.value
                else s.server.persistentKeepalive)
            && p.status == Active && p.expiresAt == input.expiresAt
            && p.createdAt == p.updatedAt == op.now && p.revokedAt == p.deletedAt == None
            && p.personId == input.personId && p.deviceLabel == input.deviceLabel
            && LowestFreeAddress(s, p.addressV4)
  {
    hide Inv, Ipv4.Allocated, LiveAddresses, NameInUse, KeyInUse, Recent, CreateEvents, FreeAddresses, PersonGate,
         LowestFreeAddress;
    AllocatesLowest(s);
  }

  lemma CreateEmits(s: State, op: Op)
    requires Inv(s) && op.CreatePeer? && Apply(s, op).Success?
    ensures var created := AuditEvent(PeerCreated, "engine", Some(op.id), Some(op.input.name), s.revision + 1, op.now);
            && (op.input.personId == None ==> Emitted(s, op) == [created])
            && forall k | op.input.personId.Some? && FirstPerson(s.persons, op.input.personId.value, k) ::
                 Emitted(s, op) ==
                 [created, AuditEvent(PersonDeviceAdded, "engine", op.input.personId,
                                      Some(s.persons[k].displayName), s.revision + 1, op.now)]
  {
    hide Inv, Ipv4.Allocated, LiveAddresses, NameInUse, KeyInUse, Recent, FreeAddresses, PersonGate, FirstPerson,
         PeerKeys;
    if op.input.personId.Some? { PersonFound(s, op.input.personId.value); }
  }

  // What deletion gives back: the name, the key and the address can be used
  // again at once.
  lemma DeletionFrees(s: State, id: Id, now: Millis, k: nat)
    requires Inv(s) && k < |s.peers| && s.peers[k].id == id && s.peers[k].status != Deleted
    ensures var t := Step(s, Op.DeletePeer(id, now));
            && Inv(t) && NameFree(t, s.peers[k].name) && KeyFree(t, s.peers[k].publicKey)
            && AddressNumber(s.peers[k].addressV4).Success?
            && FreeAddresses(t) == FreeAddresses(s) + {AddressNumber(s.peers[k].addressV4).value}
  {
    hide Apply, LifecycleOk, LinksOk, RevisionsOk, Ipv4.ParseIpv4Cidr, AddressNumber, FreeAddresses, InTunnel;
    var op := Op.DeletePeer(id, now);
    assert FirstPeer(s.peers, id, k);
    DeleteMeaning(s, id, now);
    StepKeepsInvariant(s, op);
    FreedByDeletion(s, Step(s, op), k);
  }

  lemma FreedByDeletion(s: State, t: State, k: nat)
    requires ServerOk(s.server) && PeersOk(s.server, s.peers) && t.server == s.server
    requires k < |s.peers| == |t.peers| && s.peers[k].status != Deleted && t.peers[k].status == Deleted
    requires forall i | 0 <= i < |s.peers| && i != k :: t.peers[i] == s.peers[i]
    ensures NameFree(t, s.peers[k].name) && KeyFree(t, s.peers[k].publicKey)
    ensures AddressNumber(s.peers[k].addressV4).Success?
    ensures FreeAddresses(t) == FreeAddresses(s) + {AddressNumber(s.peers[k].addressV4).value}
  {
    hide Ipv4.ParseIpv4Cidr, Ipv4.PeerRange, AddressNumber, LiveNumbers, LifecycleOk, InTunnel, ServerOk;
    var n := FreedNumber(s, t, k);
    assert FreeAddresses(t) == FreeAddresses(s) + {n};
  }

  lemma FreedNumber(s: State, t: State, k: nat) returns (n: nat)
    requires ServerOk(s.server) && PeersOk(s.server, s.peers) && t.server == s.server
    requires k < |s.peers| == |t.peers| && s.peers[k].status != Deleted && t.peers[k].status == Deleted
    requires forall i | 0 <= i < |s.peers| && i != k :: t.peers[i] == s.peers[i]
    ensures AddressNumber(s.peers[k].addressV4) == Success(n)
    ensures n in Ipv4.PeerRange(Ipv4.ParseIpv4Cidr(s.server.tunnelCidrV4).value)
    ensures LiveNumbers(t.peers) == LiveNumbers(s.peers) - {n}
  {
    hide Ipv4.ParseIpv4Cidr, Ipv4.PeerRange, AddressNumber, LiveNumbers, LifecycleOk, ServerOk, Ipv4.PeerText;
    assert InTunnel(s.server, s.peers[k].addressV4);
    n := AddressNumber(s.peers[k].addressV4).value;
    forall i | 0 <= i < |t.peers| && t.peers[i].status != Deleted && AddressNumber(t.peers[i].addressV4).Success?
      ensures i != k && AddressNumber(t.peers[i].addressV4).value != n
    {
      assert InTunnel(s.server, s.peers[i].addressV4);
    }
    forall m ensures m in LiveNumbers(t.peers) <==> m in LiveNumbers(s.peers) - {n} {
      if m in LiveNumbers(s.peers) && m != n {
        var i :| 0 <= i < |s.peers| && s.peers[i].status != Deleted &&
          AddressNumber(s.peers[i].addressV4) == Success(m);
        assert t.peers[i] == s.peers[i];
      }
      if m in LiveNumbers(t.peers) {
        var i :| 0 <= i < |t.peers| && t.peers[i].status != Deleted &&
          AddressNumber(t.peers[i].addressV4) == Success(m);
        assert t.peers[i] == s.peers[i];
      }
    }
  }
}
