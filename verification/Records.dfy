// The declared state of the engine (packages/engine/src/types.ts) and the
// status functions over it (packages/engine/src/peers.ts). Time is integer
// milliseconds.
module Records {
  import opened Wrappers
  import opened Text

  type Id = string
  type Millis = int

  const MAX_AUDIT_EVENTS: nat := 250
  const DAY_MS: nat := 86_400_000

  datatype PeerStatus = Active | Disabled | Revoked | Deleted
  datatype ApiPeerStatus = Stored(status: PeerStatus) | Expired

  // An `expiresAt` text as `Date.parse` reads it.
  datatype DateText = Instant(ms: Millis) | Unparseable

  datatype PeerRecord = PeerRecord(
    id: Id,
    name: string,
    publicKey: string,
    privateKey: Option<string>,
    addressV4: string,
    allowedIps: seq<string>,
    dnsServers: seq<string>,
    persistentKeepalive: nat,
    status: PeerStatus,
    expiresAt: Option<DateText>,
    createdAt: Millis,
    updatedAt: Millis,
    revokedAt: Option<Millis>,
    deletedAt: Option<Millis>,
    personId: Option<Id>,
    deviceLabel: Option<string>)

  datatype PersonStatus = InService | Archived

  datatype PersonRecord = PersonRecord(
    id: Id,
    displayName: string,
    notes: Option<string>,
    status: PersonStatus,
    createdAt: Millis,
    updatedAt: Millis)

  datatype AuditAction =
    | StateInitialized
    | PeerCreated | PeerConfigExported | PeerRevoked | PeerDeleted
    | ReconcileCompleted
    | PeerExpiredAutoRevoked | PeerExpiredWarned | PeerExpiringWarned
    | ApplyInterfaceCreated | ApplyInterfaceReconfigured
    | ApplyPeerAdded | ApplyPeerRemoved | ApplyPeerSynced
    | ApplyDriftDetected | ApplyRollbackExecuted
    | NetworkingForwardingEnabled | NetworkingMasqueradeApplied
    | NetworkingForwardPolicyApplied | NetworkingRolledBack
    | BackupCreated | BackupPruned | BackupRestored | BackupRestoreFailed
    | BackupImported | BackupDeleted
    | PersonCreated | PersonUpdated | PersonArchived | PersonDeleted
    | PersonDeviceAdded | PersonDeviceRemoved | PersonDevicesRevoked

  datatype AuditEvent = AuditEvent(
    action: AuditAction,
    actor: string,
    targetId: Option<Id>,
    targetName: Option<string>,
    revision: nat,
    createdAt: Millis)

  datatype ServerSettings = ServerSettings(
    interfaceName: string,
    listenPort: nat,
    tunnelCidrV4: string,
    serverAddressV4: string,
    serverPublicKey: string,
    serverPrivateKey: string,
    defaultAllowedIps: seq<string>,
    defaultDnsServers: seq<string>,
    persistentKeepalive: nat)

  datatype State = State(
    revision: nat,
    server: ServerSettings,
    peers: seq<PeerRecord>,
    persons: seq<PersonRecord>,
    events: seq<AuditEvent>,
    expiryWarned: map<Id, Millis>)

  // ── Status ───────────────────────────────────────────────────────────────

  function PeerApiStatus(peer: PeerRecord, now: Millis): ApiPeerStatus {
    if peer.status == Active && peer.expiresAt.Some? && peer.expiresAt.value.Instant? && peer.expiresAt.value.ms <= now
    then Expired
    else Stored(peer.status)
  }

  predicate IsPeerActive(peer: PeerRecord, now: Millis) {
    PeerApiStatus(peer, now) == Stored(Active)
  }

  // `state.peers.filter((peer) => isPeerActive(peer))`
  function ActivePeers(peers: seq<PeerRecord>, now: Millis): seq<PeerRecord> {
    if peers == [] then []
    else (if IsPeerActive(peers[0], now) then [peers[0]] else []) + ActivePeers(peers[1..], now)
  }

  // The dates of a peer, read directly: the expiry, if it has a readable one,
  // has come.
  ghost predicate PastExpiry(peer: PeerRecord, now: Millis) {
    exists ms: Millis :: peer.expiresAt == Some(Instant(ms)) && ms <= now
  }

  // The peer is to be served.
  ghost predicate InUse(peer: PeerRecord, now: Millis) { peer.status == Active && !PastExpiry(peer, now) }

  lemma StatusMeaning(peer: PeerRecord, now: Millis)
    ensures IsPeerActive(peer, now) <==> InUse(peer, now)
    ensures PeerApiStatus(peer, now) == Expired <==> peer.status == Active && PastExpiry(peer, now)
    ensures PeerApiStatus(peer, now) != Expired ==> PeerApiStatus(peer, now) == Stored(peer.status)
  {
    if peer.expiresAt.Some? && peer.expiresAt.value.Instant? {
      var ms := peer.expiresAt.value.ms;
      assert peer.expiresAt == Some(Instant(ms));
    }
  }

  // The active peers are those in use, each as often as it is listed, ...
  lemma {:induction false} ActiveMembers(peers: seq<PeerRecord>, now: Millis, p: PeerRecord)
    ensures multiset(ActivePeers(peers, now))[p] == if InUse(p, now) then multiset(peers)[p] else 0
    ensures p in ActivePeers(peers, now) <==> p in peers && InUse(p, now)
  {
    if peers != [] {
      hide InUse;
      StatusMeaning(peers[0], now);
      ActiveMembers(peers[1..], now, p);
      assert peers == [peers[0]] + peers[1..];
    }
  }

  // ... in the order of the list.
  lemma {:induction false} ActiveInOrder(a: seq<PeerRecord>, b: seq<PeerRecord>, now: Millis)
    ensures ActivePeers(a + b, now) == ActivePeers(a, now) + ActivePeers(b, now)
  {
    hide IsPeerActive;
    if a == [] {
      assert a + b == b;
    } else {
      var head := if IsPeerActive(a[0], now) then [a[0]] else [];
      assert (a + b)[1..] == a[1..] + b;
      assert ActivePeers(a + b, now) == head + ActivePeers(a[1..] + b, now);
      assert ActivePeers(a, now) == head + ActivePeers(a[1..], now);
      hide ActivePeers;
      ActiveInOrder(a[1..], b, now);
    }
  }

  // ── The capped event list ────────────────────────────────────────────────

  // `list.slice(-MAX_AUDIT_EVENTS)`
  function Recent(events: seq<AuditEvent>): seq<AuditEvent> {
    if |events| > MAX_AUDIT_EVENTS then events[|events| - MAX_AUDIT_EVENTS..] else events
  }

  // The last of the records, in order: all of them up to the cap.
  ghost predicate Latest(all: seq<AuditEvent>, kept: seq<AuditEvent>) {
    |kept| == (if |all| <= 250 then |all| else 250) && kept == all[|all| - |kept|..]
  }

  // Trimming at every append keeps exactly the most recent records of the
  // whole history, however the history is cut into appends.
  lemma RecentOfRecent(history: seq<AuditEvent>, more: seq<AuditEvent>)
    ensures Recent(Recent(history) + more) == Recent(history + more)
  {
  }

  // ── Validators ───────────────────────────────────────────────────────────

  predicate IsAlphanumeric(c: char) { 'A' <= c <= 'Z' || 'a' <= c <= 'z' || IsDigit(c) }

  // 1 to 120 letters, digits, dots, underscores, spaces and hyphens, with a
  // letter or digit at both ends.
  predicate ValidName(name: string) {
    && 1 <= |name| <= 120
    && IsAlphanumeric(name[0]) && IsAlphanumeric(name[|name| - 1])
    && forall i | 0 <= i < |name| :: IsAlphanumeric(name[i]) || name[i] in "._ -"
  }

  predicate ValidNotes(notes: string) {
    |notes| <= 2000 && forall i | 0 <= i < |notes| :: notes[i] > '\U{001F}' && notes[i] != '\U{007F}'
  }
}
