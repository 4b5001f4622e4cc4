// The state store (packages/engine/src/state.ts) as the engine runs it: every
// call loads a working copy, mutates it in place and saves it, and a call that
// throws leaves what is on disk alone. Each method is proved to do exactly
// what StoreRules says.
module StateStore {
  import opened Wrappers
  import opened Text
  import opened Records
  import opened StoreRules
  import opened ExpirySweep
  import Ipv4

  // Appending in two goes is appending in one.
  lemma AppendedTwice(events: seq<AuditEvent>, first: seq<AuditEvent>, second: seq<AuditEvent>)
    ensures Appended(Appended(events, first), second) == Appended(events, first + second)
  {
    if first == [] {
      assert first + second == second;
    } else if second == [] {
      assert first + second == first;
    } else {
      RecentOfRecent(events + first, second);
      assert events + first + second == events + (first + second);
    }
  }

  // The working copy a mutator receives.
  class EngineState {
    var revision: nat
    const server: ServerSettings
    var peers: seq<PeerRecord>
    var persons: seq<PersonRecord>
    var events: seq<AuditEvent>
    var expiryWarned: map<Id, Millis>

    function View(): State
      reads this
    {
      State(revision, server, peers, persons, events, expiryWarned)
    }

    constructor (s: State)
      ensures View() == s
    {
      revision, server, peers, persons := s.revision, s.server, s.peers, s.persons;
      events, expiryWarned := s.events, s.expiryWarned;
    }

    // `appendEvent`: the list is cut back to the cap at every append.
    method AppendEvent(e: AuditEvent)
      modifies this`events
      ensures events == Appended(old(events), [e])
    {
      events := Recent(events + [e]);
    }

    method CreatePeerInState(input: PeerInput, id: Id, generated: Option<KeyPair>, now: Millis)
      returns (r: Result<PeerRecord, StoreError>)
      requires !NameInUse(peers, input.name)
      modifies this
      ensures var outcome := CreatePeerEffect(old(View()), Op.CreatePeer(input, id, generated, now));
              && (r.Success? <==> outcome.Success?)
              && (r.Success? ==> View() == outcome.value.state && peers == old(peers) + [r.value])
              && (r.Failure? ==> r.error == outcome.error && View() == old(View()))
    {
      ghost var before, op := View(), Op.CreatePeer(input, id, generated, now);
      var generates := input.generateKeys || input.publicKey.None?;
      if generates && generated.None? { return Failure(KeygenFailed); }
      var publicKey := if input.publicKey.Some? then input.publicKey.value else generated.value.publicKey;
      var privateKey := if generates then Some(generated.value.privateKey) else None;
      if KeyInUse(peers, publicKey) { return Failure(KeyTaken); }
      if input.personId.Some? {
        var found := FindPerson(persons, input.personId.value);
        if found.None? { return Failure(PersonMissing); }
        if persons[found.value].status != InService { return Failure(PersonIsArchived); }
      }
      var address := Ipv4.AllocatePeerAddress(server.tunnelCidrV4, LiveAddresses(peers));
      if address.Failure? { return Failure(AddressUnavailable(address.error)); }
      var peer := PeerRecord(id, input.name, publicKey, privateKey, address.value,
        input.allowedIps.GetOr(server.defaultAllowedIps),
        input.dnsServers.GetOr(server.defaultDnsServers),
        input.persistentKeepalive.GetOr(server.persistentKeepalive),
        Active, input.expiresAt, now, now, None, None, input.personId, input.deviceLabel);
      StorePeer(peer, now);
      CreatedMatches(before, op, peer);
      return Success(peer);
    }

    method StorePeer(peer: PeerRecord, now: Millis)
      modifies this
      ensures View() == old(View()).(peers := old(peers) + [peer], revision := old(revision) + 1,
                          events := Appended(old(events), CreateEvents(old(View()), peer, now)))
    {
      ghost var before := View();
      peers := peers + [peer];
      revision := revision + 1;
      var created := Event(PeerCreated, peer.id, peer.name, revision, now);
      AppendEvent(created);
      if peer.personId.Some? {
        var found := FindPerson(persons, peer.personId.value);
        var added := if found.Some?
          then Event(PersonDeviceAdded, persons[found.value].id, persons[found.value].displayName, revision, now)
          else AuditEvent(PersonDeviceAdded, "engine", None, None, revision, now);
        AppendEvent(added);
        AppendedTwice(before.events, [created], [added]);
      } else {
        assert CreateEvents(before, peer, now) == [created];
      }
    }

    // One turn of the sweep loop.
    method SweepPeer(i: nat, warned: map<Id, Millis>, o: SweepOptions, next: map<Id, Millis>)
      returns (warnedNext: map<Id, Millis>, expired: bool, expiringSoon: bool)
      requires i < |peers|
      modifies this`peers, this`events
      ensures peers == old(peers)[i := SweptPeer(old(peers)[i], o)]
      ensures events == Appended(old(events), PeerSweepEvents(old(peers)[i], warned, revision, o))
      ensures warnedNext == PeerWarned(old(peers)[i], warned, next, o)
      ensures expired == SweepExpires(old(peers)[i], o) && expiringSoon == SweepExpiresSoon(old(peers)[i], o)
    {
      hide Recent;
      warnedNext, expired, expiringSoon := next, false, false;
      var peer := peers[i];
      if peer.status != Active || peer.expiresAt.None? || peer.expiresAt.value.Unparseable? { return; }
      var remaining := peer.expiresAt.value.ms - o.now;
      if remaining <= 0 {
        expired := true;
        if o.autoRevoke {
          peers := peers[i := peer.(status := Revoked, revokedAt := Some(o.now), updatedAt := o.now)];
          var revoked, mirror := SweepEvent(PeerExpiredAutoRevoked, peer, revision, o),
            SweepEvent(PeerRevoked, peer, revision, o);
          AppendEvent(revoked);
          AppendEvent(mirror);
          AppendedTwice(old(events), [revoked], [mirror]);
          assert [revoked] + [mirror] == [revoked, mirror];
          warnedNext := warnedNext - {peer.id};
        } else {
          AppendEvent(SweepEvent(PeerExpiredWarned, peer, revision, o));
        }
      } else if o.warnWithinDays > 0 && remaining <= o.warnWithinDays * DAY_MS {
        expiringSoon := true;
        if peer.id !in warned || o.now - warned[peer.id] > DAY_MS {
          warnedNext := warnedNext[peer.id := o.now];
          AppendEvent(SweepEvent(PeerExpiringWarned, peer, revision, o));
        }
      }
    }

    method SweepPeers(o: SweepOptions) returns (expired: seq<Id>, autoRevoked: seq<Id>, expiringSoon: seq<Id>)
      modifies this
      ensures Success(Effect(View(), SweepEvents(old(peers), old(expiryWarned), old(revision), o))) ==
              SweepEffect(old(View()), o)
      ensures expired == ExpiredIds(old(peers), o) && autoRevoked == (if o.autoRevoke then expired else [])
      ensures expiringSoon == ExpiringSoonIds(old(peers), o)
    {
      hide PeerSweepEvents, PeerWarned, SweepExpires, SweepExpiresSoon, Appended, SweptPeer, SweepEvents, WarnedNext,
           ExpiredIds, ExpiringSoonIds;
      ghost var before := View();
      var warned := expiryWarned;
      var warnedNext := warned;
      var mutated := false;
      expired, autoRevoked, expiringSoon := [], [], [];
      AppendNothing(events);
      SweepOfNone(before.peers, warned, revision, o);
      var i := 0;
      while i < |peers|
        invariant 0 <= i <= |before.peers| == |peers|
        invariant View() == before.(peers := peers, events := events)
        invariant forall j | 0 <= j < i :: peers[j] == SweptPeer(before.peers[j], o)
        invariant forall j | i <= j < |peers| :: peers[j] == before.peers[j]
        invariant events == Appended(before.events, SweepEvents(before.peers[..i], warned, before.revision, o))
        invariant warnedNext == WarnedNext(before.peers[..i], warned, o)
        invariant expired == ExpiredIds(before.peers[..i], o) && expiringSoon == ExpiringSoonIds(before.peers[..i], o)
        invariant autoRevoked == if o.autoRevoke then expired else []
      {
        SweepOfOneMore(before.peers, warned, revision, o, i);
        var id := peers[i].id;
        AppendedTwice(before.events, SweepEvents(before.peers[..i], warned, revision, o),
          PeerSweepEvents(peers[i], warned, revision, o));
        var gone, soon;
        warnedNext, gone, soon := SweepPeer(i, warned, o, warnedNext);
        if gone { expired := expired + [id]; }
        if gone && o.autoRevoke { autoRevoked, mutated := autoRevoked + [id], true; }
        if soon { expiringSoon := expiringSoon + [id]; }
        i := i + 1;
      }
      assert before.peers[..i] == before.peers && peers == SweptPeers(before.peers, o);
      // The guard never skips a real change.
      if mutated || |warnedNext| != |warned| ||
         exists k :: k in warnedNext && !(k in warned && warned[k] == warnedNext[k]) {
        expiryWarned := warnedNext;
      } else {
        SameEntries(warnedNext, warned);
      }
    }

    // Field by field, as the mutator does it: a later invalid field throws
    // after earlier ones were assigned.
    method PatchPerson(k: nat, patch: PersonPatch, now: Millis) returns (ok: bool)
      requires k < |persons|
      modifies this`persons
      ensures ok <==> PatchedPerson(old(persons)[k], patch, now).Some?
      ensures ok ==> persons == old(persons)[k := PatchedPerson(old(persons)[k], patch, now).value]
      ensures ok ==> persons[k].id == old(persons)[k].id
    {
      hide ValidName, ValidNotes, Trim;
      if patch.displayName.None? && patch.notes.None? && patch.status.None? { return false; }
      if patch.displayName.Some? {
        var trimmed := Trim(patch.displayName.value);
        if !ValidName(trimmed) { return false; }
        persons := persons[k := persons[k].(displayName := trimmed)];
      }
      if patch.notes.Some? {
        if patch.notes.value.Some? && !ValidNotes(patch.notes.value.value) { return false; }
        persons := persons[k := persons[k].(notes := patch.notes.value)];
      }
      if patch.status.Some? {
        persons := persons[k := persons[k].(status := patch.status.value)];
      }
      persons := persons[k := persons[k].(updatedAt := now)];
      return true;
    }

    // The cascade of a forced person deletion.
    method RevokeBelonging(person: PersonRecord, now: Millis)
      modifies this`peers, this`events
      ensures peers == CascadedPeers(old(peers), person.id, now)
      ensures events == Appended(old(events), CascadeEvents(old(peers), person, revision, now))
    {
      hide Appended, CascadeEvents;
      ghost var before := peers;
      AppendNothing(events);
      CascadeOfNone(before, person, revision, now);
      var i := 0;
      while i < |peers|
        invariant 0 <= i <= |before| == |peers|
        invariant forall j | 0 <= j < i :: peers[j] == CascadedPeer(before[j], person.id, now)
        invariant forall j | i <= j < |peers| :: peers[j] == before[j]
        invariant events == Appended(old(events), CascadeEvents(before[..i], person, revision, now))
      {
        CascadeOfOneMore(before, person, revision, now, i);
        ghost var emitted := CascadeEvents(before[..i], person, revision, now);
        var peer := peers[i];
        if peer.personId == Some(person.id) && peer.status != Revoked && peer.status != Deleted {
          peer := peer.(status := Revoked, updatedAt := now);
          if peer.revokedAt.None? { peer := peer.(revokedAt := Some(now)); }
          peers := peers[i := peer];
          var removed := Event(PersonDeviceRemoved, person.id, person.displayName, revision, now);
          AppendEvent(removed);
          AppendedTwice(old(events), emitted, [removed]);
        } else {
          assert emitted + [] == emitted;
        }
        i := i + 1;
      }
      assert before[..i] == before;
    }

    method RevokeDevices(id: Id, now: Millis) returns (revokedPeerIds: seq<Id>, alreadyRevoked: nat)
      modifies this`peers
      ensures peers == DevicesRevoked(old(peers), id, now)
      ensures revokedPeerIds == RevokedIds(old(peers), id) && alreadyRevoked == AlreadyRevoked(old(peers), id)
    {
      revokedPeerIds, alreadyRevoked := [], 0;
      ghost var before := peers;
      var i := 0;
      while i < |peers|
        invariant 0 <= i <= |before| == |peers|
        invariant forall j | 0 <= j < i :: peers[j] == DeviceRevoked(before[j], id, now)
        invariant forall j | i <= j < |peers| :: peers[j] == before[j]
        invariant revokedPeerIds == RevokedIds(before[..i], id) && alreadyRevoked == AlreadyRevoked(before[..i], id)
      {
        assert before[..i + 1][..i] == before[..i] && before[..i + 1][i] == before[i];
        var peer := peers[i];
        if peer.personId == Some(id) {
          if peer.status == Revoked || peer.status == Deleted {
            alreadyRevoked := alreadyRevoked + 1;
          } else {
            peers := peers[i := peer.(status := Revoked, revokedAt := Some(now), updatedAt := now)];
            revokedPeerIds := revokedPeerIds + [peer.id];
          }
        }
        i := i + 1;
      }
      assert before[..i] == before;
    }
  }

  class StateStore {
    var disk: State

    constructor (s: State)
      ensures disk == s
    {
      disk := s;
    }

    method CreatePeer(input: PeerInput, id: Id, generated: Option<KeyPair>, now: Millis)
      returns (r: Result<PeerRecord, StoreError>)
      modifies this
      ensures var op, before := Op.CreatePeer(input, id, generated, now), old(disk);
              && disk == Step(before, op)
              && (r.Success? <==> Apply(before, op).Success?)
              && (r.Failure? ==> r.error == Apply(before, op).error)
              && (r.Success? ==> disk.peers == before.peers + [r.value])
    {
      hide Recent, PeerKeys, PersonGate, Ipv4.Allocated, LiveAddresses, KeyInUse;
      var state := new EngineState(disk);
      if NameInUse(state.peers, input.name) { return Failure(NameTaken); }
      r := state.CreatePeerInState(input, id, generated, now);
      if r.Success? { disk := state.View(); }
    }

    method RevokePeer(id: Id, now: Millis) returns (r: Result<PeerRecord, StoreError>)
      modifies this
      ensures disk == Step(old(disk), Op.RevokePeer(id, now))
      ensures r == match LivePeer(old(disk), id)
                   case Some(k) => Success(RevokedPeer(old(disk).peers[k], now))
                   case None => Failure(NotFound)
    {
      var state := new EngineState(disk);
      var found := FindPeer(state.peers, id);
      if found.None? || state.peers[found.value].status == Deleted { return Failure(NotFound); }
      var k := found.value;
      var peer := state.peers[k].(status := Revoked, revokedAt := Some(now), updatedAt := now);
      state.peers := state.peers[k := peer];
      state.revision := state.revision + 1;
      state.AppendEvent(Event(PeerRevoked, peer.id, peer.name, state.revision, now));
      disk := state.View();
      return Success(peer);
    }

    method DeletePeer(id: Id, now: Millis) returns (r: Result<PeerRecord, StoreError>)
      modifies this
      ensures disk == Step(old(disk), Op.DeletePeer(id, now))
      ensures r == match LivePeer(old(disk), id)
                   case Some(k) => Success(DeletedPeer(old(disk).peers[k], now))
                   case None => Failure(NotFound)
    {
      hide CreatePeerEffect, SweepEffect, CreatePersonEffect, UpdatePersonEffect, RevokePersonDevicesEffect,
           ReconcileEffect, HostEvents, Recent;
      var state := new EngineState(disk);
      var found := FindPeer(state.peers, id);
      if found.None? || state.peers[found.value].status == Deleted { return Failure(NotFound); }
      var k := found.value;
      var peer := state.peers[k].(status := Deleted);
      if peer.revokedAt.None? { peer := peer.(revokedAt := Some(now)); }
      peer := peer.(deletedAt := Some(now), updatedAt := now);
      state.peers := state.peers[k := peer];
      state.revision := state.revision + 1;
      state.AppendEvent(Event(PeerDeleted, peer.id, peer.name, state.revision, now));
      disk := state.View();
      return Success(peer);
    }

    // The results are the identifiers the endpoint reports.
    method SweepExpired(o: SweepOptions) returns (expired: seq<Id>, autoRevoked: seq<Id>, expiringSoon: seq<Id>)
      modifies this
      ensures disk == Step(old(disk), Sweep(o))
      ensures expired == ExpiredIds(old(disk).peers, o)
      ensures autoRevoked == if o.autoRevoke then expired else []
      ensures expiringSoon == ExpiringSoonIds(old(disk).peers, o)
    {
      var state := new EngineState(disk);
      expired, autoRevoked, expiringSoon := state.SweepPeers(o);
      disk := state.View();
    }

    method CreatePerson(id: Id, displayName: string, notes: Option<string>, now: Millis)
      returns (r: Result<PersonRecord, StoreError>)
      modifies this
      ensures disk == Step(old(disk), Op.CreatePerson(id, displayName, notes, now))
      ensures r.Success? <==> ValidName(displayName)
      ensures r.Success? ==> disk.persons == old(disk).persons + [r.value]
    {
      var state := new EngineState(disk);
      if !ValidName(displayName) { return Failure(InvalidInput); }
      var person := PersonRecord(id, displayName, notes, InService, now, now);
      state.persons := state.persons + [person];
      state.revision := state.revision + 1;
      state.AppendEvent(Event(PersonCreated, person.id, person.displayName, state.revision, now));
      disk := state.View();
      return Success(person);
    }

    // A patch that fails part-way is dropped with its working copy.
    method UpdatePerson(id: Id, patch: PersonPatch, now: Millis) returns (r: Result<PersonRecord, StoreError>)
      modifies this
      ensures var op, before := Op.UpdatePerson(id, patch, now), old(disk);
              && disk == Step(before, op)
              && (r.Success? <==> Apply(before, op).Success?)
              && (r.Failure? ==> r.error == Apply(before, op).error && disk == before)
              && (r.Success? ==> r.value in disk.persons && r.value.id == id)
    {
      hide CreatePeerEffect, SweepEffect, CreatePersonEffect, DeletePersonEffect, RevokePersonDevicesEffect,
           ReconcileEffect, HostEvents, PatchedPerson, Recent;
      var state := new EngineState(disk);
      var found := FindPerson(state.persons, id);
      if found.None? { return Failure(NotFound); }
      var k := found.value;
      var previousStatus := state.persons[k].status;
      var ok := state.PatchPerson(k, patch, now);
      if !ok { return Failure(InvalidInput); }
      var person := state.persons[k];
      state.revision := state.revision + 1;
      var updated := Event(PersonUpdated, person.id, person.displayName, state.revision, now);
      state.AppendEvent(updated);
      if patch.status == Some(Archived) && patch.status.value != previousStatus {
        var archived := Event(PersonArchived, person.id, person.displayName, state.revision, now);
        state.AppendEvent(archived);
        AppendedTwice(disk.events, [updated], [archived]);
      } else {
        assert [updated] + [] == [updated];
      }
      disk := state.View();
      return Success(person);
    }

    method DeletePerson(id: Id, force: bool, now: Millis) returns (r: Result<Id, StoreError>)
      modifies this
      ensures disk == Step(old(disk), Op.DeletePerson(id, force, now))
      ensures r == if FindPerson(old(disk).persons, id).Some? then Success(id) else Failure(NotFound)
    {
      hide CreatePeerEffect, SweepEffect, CreatePersonEffect, UpdatePersonEffect, RevokePersonDevicesEffect,
           ReconcileEffect, HostEvents, Recent, CascadedPeer, CascadeEvents, WithoutPerson;
      var state := new EngineState(disk);
      var found := FindPerson(state.persons, id);
      if found.None? { return Failure(NotFound); }
      var person := state.persons[found.value];
      if !force {
        state.persons := state.persons[found.value := person.(status := Archived, updatedAt := now)];
        state.revision := state.revision + 1;
        if person.status != Archived {
          state.AppendEvent(Event(PersonArchived, person.id, person.displayName, state.revision, now));
        }
        disk := state.View();
        return Success(id);
      }
      state.RevokeBelonging(person, now);
      ghost var removed := CascadeEvents(disk.peers, person, disk.revision, now);
      state.persons := WithoutPerson(state.persons, person.id);
      state.revision := state.revision + 1;
      var deleted := Event(PersonDeleted, person.id, person.displayName, state.revision, now);
      state.AppendEvent(deleted);
      AppendedTwice(disk.events, removed, [deleted]);
      disk := state.View();
      return Success(id);
    }

    method RevokePersonDevices(id: Id, actor: Option<string>, now: Millis)
      returns (r: Result<(seq<Id>, nat), StoreError>)
      modifies this
      ensures disk == Step(old(disk), Op.RevokePersonDevices(id, actor, now))
      ensures r == if FindPerson(old(disk).persons, id).None? then Failure(NotFound)
                   else Success((RevokedIds(old(disk).peers, id), AlreadyRevoked(old(disk).peers, id)))
    {
      hide CreatePeerEffect, SweepEffect, CreatePersonEffect, UpdatePersonEffect, DeletePersonEffect, ReconcileEffect,
           HostEvents, Recent, DeviceRevoked, RevokedIds, AlreadyRevoked;
      var state := new EngineState(disk);
      var found := FindPerson(state.persons, id);
      if found.None? { return Failure(NotFound); }
      var person := state.persons[found.value];
      var revokedPeerIds, alreadyRevoked := state.RevokeDevices(id, now);
      state.revision := state.revision + 1;
      state.AppendEvent(AuditEvent(PersonDevicesRevoked, actor.GetOr("engine"), Some(person.id),
                                   Some(person.displayName), state.revision, now));
      disk := state.View();
      return Success((revokedPeerIds, alreadyRevoked));
    }
  }

  lemma SweepOfNone(peers: seq<PeerRecord>, warned: map<Id, Millis>, revision: nat, o: SweepOptions)
    ensures SweepEvents(peers[..0], warned, revision, o) == [] && WarnedNext(peers[..0], warned, o) == warned
    ensures ExpiredIds(peers[..0], o) == [] && ExpiringSoonIds(peers[..0], o) == []
  {
  }

  lemma SweepOfOneMore(peers: seq<PeerRecord>, warned: map<Id, Millis>, revision: nat, o: SweepOptions, i: nat)
    requires i < |peers|
    ensures SweepEvents(peers[..i + 1], warned, revision, o) ==
            SweepEvents(peers[..i], warned, revision, o) + PeerSweepEvents(peers[i], warned, revision, o)
    ensures WarnedNext(peers[..i + 1], warned, o) == PeerWarned(peers[i], warned, WarnedNext(peers[..i], warned, o), o)
    ensures ExpiredIds(peers[..i + 1], o) ==
            ExpiredIds(peers[..i], o) + (if SweepExpires(peers[i], o) then [peers[i].id] else [])
    ensures ExpiringSoonIds(peers[..i + 1], o) ==
            ExpiringSoonIds(peers[..i], o) + (if SweepExpiresSoon(peers[i], o) then [peers[i].id] else [])
  {
    hide PeerSweepEvents, PeerWarned, SweepExpires, SweepExpiresSoon;
    assert peers[..i + 1][..i] == peers[..i];
  }

  lemma CascadeOfNone(peers: seq<PeerRecord>, person: PersonRecord, revision: nat, now: Millis)
    ensures CascadeEvents(peers[..0], person, revision, now) == []
  {
  }

  lemma CascadeOfOneMore(peers: seq<PeerRecord>, person: PersonRecord, revision: nat, now: Millis, i: nat)
    requires i < |peers|
    ensures CascadeEvents(peers[..i + 1], person, revision, now) ==
            CascadeEvents(peers[..i], person, revision, now) +
            (if Revocable(peers[i], person.id) then
                [Event(PersonDeviceRemoved, person.id, person.displayName, revision, now)] else [])
  {
    assert peers[..i + 1][..i] == peers[..i];
  }

  function RevokedIds(peers: seq<PeerRecord>, person: Id): seq<Id> {
    if peers == [] then []
    else RevokedIds(peers[..|peers| - 1], person) +
         (if Revocable(peers[|peers| - 1], person) then [peers[|peers| - 1].id] else [])
  }

  function AlreadyRevoked(peers: seq<PeerRecord>, person: Id): nat {
    if peers == [] then 0
    else AlreadyRevoked(peers[..|peers| - 1], person) +
         (if Owned(peers[|peers| - 1], person) && !Revocable(peers[|peers| - 1], person) then 1 else 0)
  }

  lemma AppendNothing(events: seq<AuditEvent>)
    ensures Appended(events, []) == events
  {
  }

  lemma CreatedMatches(before: State, op: Op, peer: PeerRecord)
    requires op.CreatePeer?
    requires !NameInUse(before.peers, op.input.name)
    requires PeerKeys(op.input, op.generated) == Success((peer.publicKey, peer.privateKey))
    requires !KeyInUse(before.peers, peer.publicKey) && PersonGate(before, op.input.personId).None?
    requires Ipv4.Allocated(before.server.tunnelCidrV4, LiveAddresses(before.peers)) == Success(peer.addressV4)
    requires peer == NewPeer(before, op, peer.publicKey, peer.privateKey, peer.addressV4)
    ensures CreatePeerEffect(before, op) ==
            Commit(before.(peers := before.peers + [peer], revision := before.revision + 1),
              CreateEvents(before, peer, op.now))
  {
    hide Ipv4.Allocated, LiveAddresses, PeerKeys, PersonGate, NameInUse, KeyInUse, CreateEvents, Commit;
  }

  // A map of the same size whose entries all occur in another is that map.
  lemma SameEntries(a: map<Id, Millis>, b: map<Id, Millis>)
    requires |a| == |b| && forall k | k in a :: k in b && a[k] == b[k]
    ensures a == b
  {
    assert a.Keys <= b.Keys && |a.Keys| == |b.Keys|;
    Ipv4.SubsetSize(a.Keys, b.Keys);
  }
}
