// What the operations on persons do, said of the records themselves.
module PersonMeaning {
  import opened Wrappers
  import opened Text
  import opened Records
  import opened StoreRules
  import opened StateStore
  import opened StoreMeaning

  lemma CreatePersonMeaning(s: State, id: Id, displayName: string, notes: Option<string>, now: Millis)
    ensures var r := Apply(s, Op.CreatePerson(id, displayName, notes, now));
            if !ValidName(displayName) then r == Failure(InvalidInput)
            else
              && r.Success?
              && r.value.state ==
                 s.(persons := s.persons + [PersonRecord(id, displayName, notes, InService, now, now)],
                    revision := s.revision + 1, events := r.value.state.events)
              && r.value.emitted ==
                 [AuditEvent(PersonCreated, "engine", Some(id), Some(displayName), s.revision + 1, now)]
  {
    hide Recent, ValidName;
  }

  // ── Patches ──────────────────────────────────────────────────────────────

  predicate ValidPatch(patch: PersonPatch) {
    && (patch.displayName.Some? || patch.notes.Some? || patch.status.Some?)
    && (patch.displayName.Some? ==> ValidName(Trim(patch.displayName.value)))
    && (patch.notes.Some? && patch.notes.value.Some? ==> ValidNotes(patch.notes.value.value))
  }

  // The fields the patch names are as it says, the others as they were.
  ghost predicate Patched(before: PersonRecord, patch: PersonPatch, now: Millis, after: PersonRecord) {
    && after.id == before.id && after.createdAt == before.createdAt && after.updatedAt == now
    && after.displayName == (if patch.displayName.Some? then Trim(patch.displayName.value) else before.displayName)
    && after.notes == (if patch.notes.Some? then patch.notes.value else before.notes)
    && after.status == (if patch.status.Some? then patch.status.value else before.status)
  }

  lemma UpdatePersonMeaning(s: State, id: Id, patch: PersonPatch, now: Millis)
    ensures var r := Apply(s, Op.UpdatePerson(id, patch, now));
            if !Known(s, id) then r == Failure(NotFound)
            else if !ValidPatch(patch) then r == Failure(InvalidInput)
            else
              && r.Success? && |r.value.state.persons| == |s.persons|
              && r.value.state ==
                 s.(persons := r.value.state.persons, revision := s.revision + 1, events := r.value.state.events)
              && forall k | 0 <= k < |s.persons| ::
                   if FirstPerson(s.persons, id, k) then Patched(s.persons[k], patch, now, r.value.state.persons[k])
                   else r.value.state.persons[k] == s.persons[k]
  {
    hide Recent, ValidName, ValidNotes, Trim, FirstPerson;
    PersonFound(s, id);
    if FindPerson(s.persons, id).Some? {
      var k := FindPerson(s.persons, id).value;
      assert PatchedPerson(s.persons[k], patch, now).Some? <==> ValidPatch(patch);
    }
  }

  // An update event always, an archival event exactly when the patch takes the
  // person out of service.
  lemma UpdatePersonEmits(s: State, id: Id, patch: PersonPatch, now: Millis, k: int)
    requires FirstPerson(s.persons, id, k) && ValidPatch(patch)
    ensures var person := Step(s, Op.UpdatePerson(id, patch, now)).persons;
            && |person| == |s.persons|
            && var updated :=
                 AuditEvent(PersonUpdated, "engine", Some(id), Some(person[k].displayName), s.revision + 1, now);
            Emitted(s, Op.UpdatePerson(id, patch, now)) ==
            if patch.status == Some(Archived) && s.persons[k].status == InService
            then [updated, updated.(action := PersonArchived)] else [updated]
  {
    hide Recent, ValidName, ValidNotes, Trim;
    PersonFound(s, id);
  }

  // ── The devices of a person ──────────────────────────────────────────────

  ghost predicate OwnDevice(peer: PeerRecord, person: Id) { peer.personId == Some(person) }

  ghost predicate DeviceInService(peer: PeerRecord, person: Id) {
    OwnDevice(peer, person) && peer.status != Revoked && peer.status != Deleted
  }

  // Every device in service is revoked at the time of the call; the answer
  // lists these and counts the others.
  lemma RevokeDevicesMeaning(s: State, id: Id, actor: Option<string>, now: Millis)
    ensures var op := Op.RevokePersonDevices(id, actor, now); var r := Apply(s, op);
            if !Known(s, id) then r == Failure(NotFound)
            else
              && r.Success? && |r.value.state.peers| == |s.peers|
              && r.value.state ==
                 s.(peers := r.value.state.peers, revision := s.revision + 1, events := r.value.state.events)
              && (forall i | 0 <= i < |s.peers| ::
                    r.value.state.peers[i] ==
                    if DeviceInService(s.peers[i], id)
                    then s.peers[i].(status := Revoked, revokedAt := Some(now), updatedAt := now) else s.peers[i])
              && forall k | FirstPerson(s.persons, id, k) ::
                   r.value.emitted ==
                   [AuditEvent(PersonDevicesRevoked, if actor.Some? then actor.value else "engine", Some(id),
                               Some(s.persons[k].displayName), s.revision + 1, now)]
  {
    hide Recent, FirstPerson;
    PersonFound(s, id);
  }

  lemma {:induction false} RevokedIdsMeaning(peers: seq<PeerRecord>, person: Id, id: Id)
    ensures id in RevokedIds(peers, person) <==> exists p | p in peers :: p.id == id && DeviceInService(p, person)
  {
    if peers != [] {
      var init, last := peers[..|peers| - 1], peers[|peers| - 1];
      RevokedIdsMeaning(init, person, id);
      assert peers == init + [last];
    }
  }

  ghost function Devices(peers: seq<PeerRecord>, person: Id): set<nat> {
    set i: nat | i < |peers| && OwnDevice(peers[i], person)
  }

  ghost function DevicesInService(peers: seq<PeerRecord>, person: Id): set<nat> {
    set i: nat | i < |peers| && DeviceInService(peers[i], person)
  }

  lemma OneMoreDevice(init: seq<PeerRecord>, last: PeerRecord, person: Id)
    ensures Devices(init + [last], person) == Devices(init, person) + if OwnDevice(last, person) then {|init|} else {}
    ensures DevicesInService(init + [last], person) ==
            DevicesInService(init, person) + if DeviceInService(last, person) then {|init|} else {}
    ensures |init| !in Devices(init, person) && |init| !in DevicesInService(init, person)
  {
    hide OwnDevice, DeviceInService;
    var all := init + [last];
    assert all[|init|] == last && forall i | 0 <= i < |init| :: all[i] == init[i];
  }

  lemma NoDevices(person: Id)
    ensures Devices([], person) == {} && DevicesInService([], person) == {}
  {
  }

  lemma {:induction false} DevicesCounted(peers: seq<PeerRecord>, person: Id)
    ensures |RevokedIds(peers, person)| + AlreadyRevoked(peers, person) == |Devices(peers, person)|
  {
    hide Devices;
    NoDevices(person);
    if peers != [] {
      var init, last := peers[..|peers| - 1], peers[|peers| - 1];
      DevicesCounted(init, person);
      OneMoreDevice(init, last, person);
      assert init + [last] == peers;
    }
  }

  // ── Deletion ─────────────────────────────────────────────────────────────

  lemma ArchiveMeaning(s: State, id: Id, now: Millis)
    ensures var r := Apply(s, Op.DeletePerson(id, false, now));
            && (!Known(s, id) ==> r == Failure(NotFound))
            && forall k | FirstPerson(s.persons, id, k) ::
                 && r.Success?
                 && r.value.state ==
                    s.(persons := s.persons[k := s.persons[k].(status := Archived, updatedAt := now)],
                       revision := s.revision + 1, events := r.value.state.events)
                 && r.value.emitted ==
                    if s.persons[k].status == Archived then []
                    else [AuditEvent(PersonArchived, "engine", Some(id), Some(s.persons[k].displayName),
                                     s.revision + 1, now)]
  {
    hide Recent, FirstPerson;
    PersonFound(s, id);
  }

  // With force the person is gone, the other persons are who they were, and
  // every device in service is revoked; an earlier revocation time stays.
  lemma ForcedDeletionMeaning(s: State, id: Id, now: Millis)
    ensures var r := Apply(s, Op.DeletePerson(id, true, now));
            if !Known(s, id) then r == Failure(NotFound)
            else
              && r.Success? && |r.value.state.peers| == |s.peers|
              && r.value.state ==
                 s.(peers := r.value.state.peers, persons := r.value.state.persons, revision := s.revision + 1,
                    events := r.value.state.events)
              && (forall p :: multiset(r.value.state.persons)[p] == if p.id == id then 0 else multiset(s.persons)[p])
              && forall i | 0 <= i < |s.peers| ::
                   var revokedAt := if s.peers[i].revokedAt.Some? then s.peers[i].revokedAt else Some(now);
                   r.value.state.peers[i] ==
                   if DeviceInService(s.peers[i], id)
                   then s.peers[i].(status := Revoked, revokedAt := revokedAt, updatedAt := now) else s.peers[i]
  {
    hide Recent, FirstPerson, WithoutPerson, CascadeEvents;
    PersonFound(s, id);
    forall p ensures multiset(WithoutPerson(s.persons, id))[p] == if p.id == id then 0 else multiset(s.persons)[p] {
      OthersKept(s.persons, id, p);
    }
  }

  lemma {:induction false} OthersKept(persons: seq<PersonRecord>, id: Id, p: PersonRecord)
    ensures multiset(WithoutPerson(persons, id))[p] == if p.id == id then 0 else multiset(persons)[p]
  {
    if persons != [] {
      OthersKept(persons[..|persons| - 1], id, p);
      assert persons == persons[..|persons| - 1] + [persons[|persons| - 1]];
    }
  }

  // One removal event for each device it revokes, at the revision before, and
  // the deletion last.
  lemma ForcedDeletionEmits(s: State, id: Id, now: Millis, k: int)
    requires FirstPerson(s.persons, id, k)
    ensures var emitted, name := Emitted(s, Op.DeletePerson(id, true, now)), Some(s.persons[k].displayName);
            && |emitted| == |DevicesInService(s.peers, id)| + 1
            && (forall j | 0 <= j < |emitted| - 1 ::
                  emitted[j] == AuditEvent(PersonDeviceRemoved, "engine", Some(id), name, s.revision, now))
            && emitted[|emitted| - 1] == AuditEvent(PersonDeleted, "engine", Some(id), name, s.revision + 1, now)
  {
    hide Recent, CascadeEvents, WithoutPerson, DevicesInService;
    PersonFound(s, id);
    CascadeMeaning(s.peers, s.persons[k], s.revision, now);
  }

  lemma {:induction false} CascadeMeaning(peers: seq<PeerRecord>, person: PersonRecord, revision: nat, now: Millis)
    ensures var events := CascadeEvents(peers, person, revision, now);
            && |events| == |DevicesInService(peers, person.id)|
            && forall j | 0 <= j < |events| ::
                 events[j] ==
                 AuditEvent(PersonDeviceRemoved, "engine", Some(person.id), Some(person.displayName), revision, now)
  {
    hide DevicesInService;
    NoDevices(person.id);
    if peers != [] {
      var init, last := peers[..|peers| - 1], peers[|peers| - 1];
      CascadeMeaning(init, person, revision, now);
      OneMoreDevice(init, last, person.id);
      assert init + [last] == peers;
    }
  }
}
