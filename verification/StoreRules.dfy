// What each operation of the state store does to the declared state
// (packages/engine/src/state.ts). An operation either throws, and then nothing
// is saved, or yields the new state together with the events it emitted.
module StoreRules {
  import opened Wrappers
  import opened Text
  import opened Records
  import Ipv4

  datatype StoreError =
    | NameTaken | KeyTaken | KeygenFailed
    | PersonMissing | PersonIsArchived
    | AddressUnavailable(cause: Ipv4.AddressError)
    | NotFound | InvalidInput

  datatype KeyPair = KeyPair(privateKey: string, publicKey: string)

  // A create request after `parsePeerCreate` and trimming.
  datatype PeerInput = PeerInput(
    name: string,
    publicKey: Option<string>,
    generateKeys: bool,
    allowedIps: Option<seq<string>>,
    dnsServers: Option<seq<string>>,
    persistentKeepalive: Option<nat>,
    expiresAt: Option<DateText>,
    personId: Option<Id>,
    deviceLabel: Option<string>)

  // `notes: null` clears the field: Some(None).
  datatype PersonPatch = PersonPatch(
    displayName: Option<string>,
    notes: Option<Option<string>>,
    status: Option<PersonStatus>)

  datatype SweepOptions = SweepOptions(autoRevoke: bool, warnWithinDays: int, actor: string, now: Millis)

  // One call on the store. Fresh identifiers, generated keys and the clock are
  // supplied with the call.
  datatype Op =
    | CreatePeer(input: PeerInput, id: Id, generated: Option<KeyPair>, now: Millis)
    | RevokePeer(id: Id, now: Millis)
    | DeletePeer(id: Id, now: Millis)
    | Sweep(options: SweepOptions)
    | CreatePerson(id: Id, displayName: string, notes: Option<string>, now: Millis)
    | UpdatePerson(id: Id, patch: PersonPatch, now: Millis)
    | DeletePerson(id: Id, force: bool, now: Millis)
    | RevokePersonDevices(id: Id, actor: Option<string>, now: Millis)
    | ListPersons
    | ExportConfig(id: Id, now: Millis)
    | RecordBackup(actions: seq<AuditAction>, now: Millis)
    | Reconcile(hostActions: seq<AuditAction>, now: Millis)

  datatype Effect = Effect(state: State, emitted: seq<AuditEvent>)

  type Outcome = Result<Effect, StoreError>

  // The event list is trimmed by appends only.
  function Appended(events: seq<AuditEvent>, emitted: seq<AuditEvent>): seq<AuditEvent> {
    if emitted == [] then events else Recent(events + emitted)
  }

  function Commit(state: State, emitted: seq<AuditEvent>): Outcome {
    Success(Effect(state.(events := Appended(state.events, emitted)), emitted))
  }

  function Event(action: AuditAction, id: Id, name: string, revision: nat, now: Millis): AuditEvent {
    AuditEvent(action, "engine", Some(id), Some(name), revision, now)
  }

  function FindPeer(peers: seq<PeerRecord>, id: Id): (r: Option<nat>)
    ensures r.Some? ==> r.value < |peers| && peers[r.value].id == id
    ensures r.Some? ==> forall j | 0 <= j < r.value :: peers[j].id != id
    ensures r.None? ==> forall j | 0 <= j < |peers| :: peers[j].id != id
  {
    if peers == [] then None
    else if peers[0].id == id then Some(0)
    else match FindPeer(peers[1..], id) case Some(k) => Some(k + 1) case None => None
  }

  function FindPerson(persons: seq<PersonRecord>, id: Id): (r: Option<nat>)
    ensures r.Some? ==> r.value < |persons| && persons[r.value].id == id
    ensures r.Some? ==> forall j | 0 <= j < r.value :: persons[j].id != id
    ensures r.None? ==> forall j | 0 <= j < |persons| :: persons[j].id != id
  {
    if persons == [] then None
    else if persons[0].id == id then Some(0)
    else match FindPerson(persons[1..], id) case Some(k) => Some(k + 1) case None => None
  }

  // `peers.filter(p => p.status !== "deleted").map(p => p.addressV4)`
  function LiveAddresses(peers: seq<PeerRecord>): seq<string> {
    if peers == [] then []
    else (if peers[0].status != Deleted then [peers[0].addressV4] else []) + LiveAddresses(peers[1..])
  }

  predicate NameInUse(peers: seq<PeerRecord>, name: string) {
    exists i | 0 <= i < |peers| :: peers[i].status != Deleted && peers[i].name == name
  }

  predicate KeyInUse(peers: seq<PeerRecord>, key: string) {
    exists i | 0 <= i < |peers| :: peers[i].status != Deleted && peers[i].publicKey == key
  }

  // ── createPeer / createPeerInState ───────────────────────────────────────

  // The stored public key, and the private key generated beside it if any.
  function PeerKeys(input: PeerInput, generated: Option<KeyPair>): Result<(string, Option<string>), StoreError> {
    if input.generateKeys || input.publicKey.None? then
      if generated.None? then Failure(KeygenFailed)
      else Success((input.publicKey.GetOr(generated.value.publicKey), Some(generated.value.privateKey)))
    else Success((input.publicKey.value, None))
  }

  function PersonGate(s: State, personId: Option<Id>): Option<StoreError> {
    if personId.None? then None
    else
      match FindPerson(s.persons, personId.value)
      case None => Some(PersonMissing)
      case Some(k) => if s.persons[k].status == InService then None else Some(PersonIsArchived)
  }

  function NewPeer(s: State, op: Op, publicKey: string, privateKey: Option<string>, address: string): PeerRecord
    requires op.CreatePeer?
  {
    var input := op.input;
    PeerRecord(op.id, input.name, publicKey, privateKey, address,
      input.allowedIps.GetOr(s.server.defaultAllowedIps),
      input.dnsServers.GetOr(s.server.defaultDnsServers),
      input.persistentKeepalive.GetOr(s.server.persistentKeepalive),
      Active, input.expiresAt, op.now, op.now, None, None, input.personId, input.deviceLabel)
  }

  function CreateEvents(s: State, peer: PeerRecord, now: Millis): seq<AuditEvent> {
    [Event(PeerCreated, peer.id, peer.name, s.revision + 1, now)] +
    (if peer.personId.None? then []
     else match FindPerson(s.persons, peer.personId.value)
          case Some(k) => [Event(PersonDeviceAdded, s.persons[k].id, s.persons[k].displayName, s.revision + 1, now)]
          case None => [AuditEvent(PersonDeviceAdded, "engine", None, None, s.revision + 1, now)])
  }

  function CreatePeerEffect(s: State, op: Op): Outcome
    requires op.CreatePeer?
  {
    if NameInUse(s.peers, op.input.name) then Failure(NameTaken)
    else
      match PeerKeys(op.input, op.generated)
      case Failure(e) => Failure(e)
      case Success((publicKey, privateKey)) =>
        if KeyInUse(s.peers, publicKey) then Failure(KeyTaken)
        else if PersonGate(s, op.input.personId).Some? then Failure(PersonGate(s, op.input.personId).value)
        else
          match Ipv4.Allocated(s.server.tunnelCidrV4, LiveAddresses(s.peers))
          case Failure(e) => Failure(AddressUnavailable(e))
          case Success(address) =>
            var peer := NewPeer(s, op, publicKey, privateKey, address);
            Commit(s.(peers := s.peers + [peer], revision := s.revision + 1), CreateEvents(s, peer, op.now))
  }

  // ── revokePeer / deletePeer ──────────────────────────────────────────────

  function RevokedPeer(peer: PeerRecord, now: Millis): PeerRecord {
    peer.(status := Revoked, revokedAt := Some(now), updatedAt := now)
  }

  function DeletedPeer(peer: PeerRecord, now: Millis): PeerRecord {
    peer.(status := Deleted, revokedAt := Some(peer.revokedAt.GetOr(now)), deletedAt := Some(now), updatedAt := now)
  }

  function LivePeer(s: State, id: Id): (r: Option<nat>)
    ensures r.Some? ==> r.value < |s.peers| && s.peers[r.value].id == id && s.peers[r.value].status != Deleted
  {
    match FindPeer(s.peers, id)
    case Some(k) => if s.peers[k].status == Deleted then None else Some(k)
    case None => None
  }

  function ReplacePeer(s: State, k: nat, peer: PeerRecord, action: AuditAction, now: Millis): Outcome
    requires k < |s.peers|
  {
    Commit(s.(peers := s.peers[k := peer], revision := s.revision + 1),
           [Event(action, peer.id, peer.name, s.revision + 1, now)])
  }

  // ── sweepExpired ─────────────────────────────────────────────────────────

  predicate Dated(peer: PeerRecord) {
    peer.status == Active && peer.expiresAt.Some? && peer.expiresAt.value.Instant?
  }

  predicate SweepExpires(peer: PeerRecord, o: SweepOptions) {
    Dated(peer) && peer.expiresAt.value.ms - o.now <= 0
  }

  predicate SweepExpiresSoon(peer: PeerRecord, o: SweepOptions) {
    && Dated(peer) && peer.expiresAt.value.ms - o.now > 0
    && o.warnWithinDays > 0 && peer.expiresAt.value.ms - o.now <= o.warnWithinDays * DAY_MS
  }

  predicate SweepWarns(peer: PeerRecord, warned: map<Id, Millis>, o: SweepOptions) {
    SweepExpiresSoon(peer, o) && (peer.id !in warned || o.now - warned[peer.id] > DAY_MS)
  }

  function SweptPeer(peer: PeerRecord, o: SweepOptions): PeerRecord {
    if o.autoRevoke && SweepExpires(peer, o) then RevokedPeer(peer, o.now) else peer
  }

  function SweepEvent(action: AuditAction, peer: PeerRecord, revision: nat, o: SweepOptions): AuditEvent {
    AuditEvent(action, o.actor, Some(peer.id), Some(peer.name), revision, o.now)
  }

  function PeerSweepEvents(peer: PeerRecord, warned: map<Id, Millis>, revision: nat, o: SweepOptions): seq<AuditEvent> {
    if SweepExpires(peer, o) then
      if o.autoRevoke then
        [SweepEvent(PeerExpiredAutoRevoked, peer, revision, o), SweepEvent(PeerRevoked, peer, revision, o)]
      else [SweepEvent(PeerExpiredWarned, peer, revision, o)]
    else if SweepWarns(peer, warned, o) then [SweepEvent(PeerExpiringWarned, peer, revision, o)]
    else []
  }

  function PeerWarned(peer: PeerRecord, warned: map<Id, Millis>, next: map<Id, Millis>,
                      o: SweepOptions): map<Id, Millis> {
    if SweepExpires(peer, o) then (if o.autoRevoke then next - {peer.id} else next)
    else if SweepWarns(peer, warned, o) then next[peer.id := o.now]
    else next
  }

  function SweptPeers(peers: seq<PeerRecord>, o: SweepOptions): (r: seq<PeerRecord>)
    ensures |r| == |peers| && forall i | 0 <= i < |peers| :: r[i] == SweptPeer(peers[i], o)
  {
    seq(|peers|, i requires 0 <= i < |peers| => SweptPeer(peers[i], o))
  }

  // Left to right over the peers; both read the dedupe map as it was before.
  function SweepEvents(peers: seq<PeerRecord>, warned: map<Id, Millis>, revision: nat,
                       o: SweepOptions): seq<AuditEvent> {
    if peers == [] then []
    else SweepEvents(peers[..|peers| - 1], warned, revision, o) +
         PeerSweepEvents(peers[|peers| - 1], warned, revision, o)
  }

  function WarnedNext(peers: seq<PeerRecord>, warned: map<Id, Millis>, o: SweepOptions): map<Id, Millis> {
    if peers == [] then warned
    else PeerWarned(peers[|peers| - 1], warned, WarnedNext(peers[..|peers| - 1], warned, o), o)
  }

  // `sweepExpired` leaves the revision alone.
  function SweepEffect(s: State, o: SweepOptions): Outcome {
    Commit(s.(peers := SweptPeers(s.peers, o), expiryWarned := WarnedNext(s.peers, s.expiryWarned, o)),
           SweepEvents(s.peers, s.expiryWarned, s.revision, o))
  }

  // ── Persons ──────────────────────────────────────────────────────────────

  function CreatePersonEffect(s: State, op: Op): Outcome
    requires op.CreatePerson?
  {
    if !ValidName(op.displayName) then Failure(InvalidInput)
    else
      var person := PersonRecord(op.id, op.displayName, op.notes, InService, op.now, op.now);
      Commit(s.(persons := s.persons + [person], revision := s.revision + 1),
             [Event(PersonCreated, op.id, op.displayName, s.revision + 1, op.now)])
  }

  function PatchedPerson(person: PersonRecord, patch: PersonPatch, now: Millis): Option<PersonRecord> {
    var name := if patch.displayName.Some? then Trim(patch.displayName.value) else person.displayName;
    if patch == PersonPatch(None, None, None) then None
    else if patch.displayName.Some? && !ValidName(name) then None
    else if patch.notes.Some? && patch.notes.value.Some? && !ValidNotes(patch.notes.value.value) then None
    else Some(person.(displayName := name, notes := patch.notes.GetOr(person.notes),
                      status := patch.status.GetOr(person.status), updatedAt := now))
  }

  function UpdatePersonEffect(s: State, op: Op): Outcome
    requires op.UpdatePerson?
  {
    match FindPerson(s.persons, op.id)
    case None => Failure(NotFound)
    case Some(k) =>
      match PatchedPerson(s.persons[k], op.patch, op.now)
      case None => Failure(InvalidInput)
      case Some(person) =>
        var archives := op.patch.status == Some(Archived) && s.persons[k].status != Archived;
        Commit(s.(persons := s.persons[k := person], revision := s.revision + 1),
               [Event(PersonUpdated, person.id, person.displayName, s.revision + 1, op.now)] +
               (if archives then
                   [Event(PersonArchived, person.id, person.displayName, s.revision + 1, op.now)] else []))
  }

  predicate Owned(peer: PeerRecord, person: Id) { peer.personId == Some(person) }

  predicate Revocable(peer: PeerRecord, person: Id) {
    Owned(peer, person) && peer.status != Revoked && peer.status != Deleted
  }

  // The forced deletion keeps an earlier `revokedAt`; the device revocation
  // overwrites it.
  function CascadedPeer(peer: PeerRecord, person: Id, now: Millis): PeerRecord {
    if Revocable(peer, person)
    then peer.(status := Revoked, revokedAt := Some(peer.revokedAt.GetOr(now)), updatedAt := now)
    else peer
  }

  function CascadedPeers(peers: seq<PeerRecord>, person: Id, now: Millis): (r: seq<PeerRecord>)
    ensures |r| == |peers| && forall i | 0 <= i < |peers| :: r[i] == CascadedPeer(peers[i], person, now)
  {
    seq(|peers|, i requires 0 <= i < |peers| => CascadedPeer(peers[i], person, now))
  }

  function CascadeEvents(peers: seq<PeerRecord>, person: PersonRecord, revision: nat, now: Millis): seq<AuditEvent> {
    if peers == [] then []
    else CascadeEvents(peers[..|peers| - 1], person, revision, now) +
         (if Revocable(peers[|peers| - 1], person.id)
          then [Event(PersonDeviceRemoved, person.id, person.displayName, revision, now)] else [])
  }

  function WithoutPerson(persons: seq<PersonRecord>, id: Id): (r: seq<PersonRecord>)
    ensures forall p :: p in r <==> p in persons && p.id != id
  {
    if persons == [] then []
    else WithoutPerson(persons[..|persons| - 1], id) +
         (if persons[|persons| - 1].id != id then [persons[|persons| - 1]] else [])
  }

  function DeletePersonEffect(s: State, op: Op): Outcome
    requires op.DeletePerson?
  {
    match FindPerson(s.persons, op.id)
    case None => Failure(NotFound)
    case Some(k) =>
      var person := s.persons[k];
      if !op.force then
        Commit(s.(persons := s.persons[k := person.(status := Archived, updatedAt := op.now)],
          revision := s.revision + 1),
               if person.status == Archived then []
               else [Event(PersonArchived, person.id, person.displayName, s.revision + 1, op.now)])
      else
        Commit(s.(peers := CascadedPeers(s.peers, person.id, op.now),
                  persons := WithoutPerson(s.persons, person.id), revision := s.revision + 1),
               CascadeEvents(s.peers, person, s.revision, op.now) +
               [Event(PersonDeleted, person.id, person.displayName, s.revision + 1, op.now)])
  }

  function DeviceRevoked(peer: PeerRecord, person: Id, now: Millis): PeerRecord {
    if Revocable(peer, person) then RevokedPeer(peer, now) else peer
  }

  function DevicesRevoked(peers: seq<PeerRecord>, person: Id, now: Millis): (r: seq<PeerRecord>)
    ensures |r| == |peers| && forall i | 0 <= i < |peers| :: r[i] == DeviceRevoked(peers[i], person, now)
  {
    seq(|peers|, i requires 0 <= i < |peers| => DeviceRevoked(peers[i], person, now))
  }

  function RevokePersonDevicesEffect(s: State, op: Op): Outcome
    requires op.RevokePersonDevices?
  {
    match FindPerson(s.persons, op.id)
    case None => Failure(NotFound)
    case Some(k) =>
      Commit(s.(peers := DevicesRevoked(s.peers, op.id, op.now), revision := s.revision + 1),
             [AuditEvent(PersonDevicesRevoked, op.actor.GetOr("engine"), Some(s.persons[k].id),
                         Some(s.persons[k].displayName), s.revision + 1, op.now)])
  }

  // ── Events recorded on behalf of other components ────────────────────────

  function HostEvents(actions: seq<AuditAction>, revision: nat, now: Millis): (r: seq<AuditEvent>)
    ensures |r| == |actions|
    ensures forall i | 0 <= i < |r| :: r[i] == AuditEvent(actions[i], "engine", None, None, revision, now)
  {
    seq(|actions|, i requires 0 <= i < |actions| => AuditEvent(actions[i], "engine", None, None, revision, now))
  }

  // A reconcile appends the apply and networking events first, at the old
  // revision, then bumps the revision and records its own completion.
  function ReconcileEffect(s: State, op: Op): Outcome
    requires op.Reconcile?
  {
    Commit(s.(revision := s.revision + 1),
           HostEvents(op.hostActions, s.revision, op.now) +
           [AuditEvent(ReconcileCompleted, "engine", None, None, s.revision + 1, op.now)])
  }

  function Apply(s: State, op: Op): Outcome {
    match op
    case CreatePeer(_, _, _, _) => CreatePeerEffect(s, op)
    case RevokePeer(id, now) =>
      (match LivePeer(s, id)
       case None => Failure(NotFound)
       case Some(k) => ReplacePeer(s, k, RevokedPeer(s.peers[k], now), PeerRevoked, now))
    case DeletePeer(id, now) =>
      (match LivePeer(s, id)
       case None => Failure(NotFound)
       case Some(k) => ReplacePeer(s, k, DeletedPeer(s.peers[k], now), PeerDeleted, now))
    case Sweep(o) => SweepEffect(s, o)
    case CreatePerson(_, _, _, _) => CreatePersonEffect(s, op)
    case UpdatePerson(_, _, _) => UpdatePersonEffect(s, op)
    case DeletePerson(_, _, _) => DeletePersonEffect(s, op)
    case RevokePersonDevices(_, _, _) => RevokePersonDevicesEffect(s, op)
    case ListPersons => Commit(s, [])
    case ExportConfig(id, now) =>
      (match FindPeer(s.peers, id)
       case None => Failure(NotFound)
       case Some(k) =>
         if !IsPeerActive(s.peers[k], now) then Failure(NotFound)
         else Commit(s, [Event(PeerConfigExported, id, s.peers[k].name, s.revision, now)]))
    case RecordBackup(actions, now) => Commit(s, HostEvents(actions, s.revision, now))
    case Reconcile(_, _) => ReconcileEffect(s, op)
  }

  // What is on disk after the call: a throwing operation saves nothing.
  function Step(s: State, op: Op): State {
    match Apply(s, op)
    case Success(effect) => effect.state
    case Failure(_) => s
  }

  function Emitted(s: State, op: Op): seq<AuditEvent> {
    match Apply(s, op)
    case Success(effect) => effect.emitted
    case Failure(_) => []
  }
}
