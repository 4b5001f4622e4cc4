// The preview of a restore (packages/engine/src/backup.ts): which peers it
// adds, removes and changes, and that the restore then does exactly that.
module RestorePlan {
  import opened Wrappers
  import opened Text
  import opened Records
  import opened Kernel
  import opened ApplyPlan
  import Backup
  import Invariants = StoreInvariants

  // `peers.filter((peer) => peer.status !== "deleted")`
  function NotDeleted(peers: seq<PeerRecord>): (r: seq<PeerRecord>) {
    if peers == [] then []
    else (if peers[0].status != Deleted then [peers[0]] else []) + NotDeleted(peers[1..])
  }

  ghost function LiveKeys(s: State): set<Key> {
    set i | 0 <= i < |s.peers| && s.peers[i].status != Deleted :: s.peers[i].publicKey
  }

  lemma {:induction false} NotDeletedKeys(peers: seq<PeerRecord>, key: Key)
    ensures key in PublicKeys(NotDeleted(peers)) <==>
            exists i | 0 <= i < |peers| :: peers[i].status != Deleted && peers[i].publicKey == key
  {
    if peers != [] {
      NotDeletedKeys(peers[1..], key);
      var rest := NotDeleted(peers[1..]);
      if peers[0].status != Deleted {
        assert PublicKeys(NotDeleted(peers)) == [peers[0].publicKey] + PublicKeys(rest);
      } else {
        assert NotDeleted(peers) == rest;
      }
      assert forall i | 1 <= i < |peers| :: peers[i] == peers[1..][i - 1];
    }
  }

  lemma LiveKeysListed(s: State)
    ensures forall k :: k in PublicKeys(NotDeleted(s.peers)) <==> k in LiveKeys(s)
  {
    hide NotDeleted, PublicKeys;
    forall k ensures k in PublicKeys(NotDeleted(s.peers)) <==> k in LiveKeys(s) { NotDeletedKeys(s.peers, k); }
  }

  predicate PeersEqual(a: PeerRecord, b: PeerRecord) {
    && Join(a.allowedIps, ',') == Join(b.allowedIps, ',')
    && Join(a.dnsServers, ',') == Join(b.dnsServers, ',')
    && a.persistentKeepalive == b.persistentKeepalive
    && a.status == b.status
    && a.expiresAt == b.expiresAt
    && a.name == b.name
    && a.addressV4 == b.addressV4
  }

  function IsNew(current: map<Key, PeerRecord>): Key -> bool { key => key !in current }

  function IsChanged(snapshot: map<Key, PeerRecord>, current: map<Key, PeerRecord>): Key -> bool {
    key => key in snapshot && key in current && !PeersEqual(snapshot[key], current[key])
  }

  datatype PlanDiff = PlanDiff(added: seq<Key>, removed: seq<Key>, modified: seq<Key>, affected: seq<Key>)

  function DiffOfMaps(snapshotKeys: seq<Key>, currentKeys: seq<Key>, snapshot: map<Key, PeerRecord>,
                      current: map<Key, PeerRecord>): PlanDiff {
    PlanDiff(Select(snapshotKeys, IsNew(current)),
             Select(currentKeys, IsNew(snapshot)),
             Select(snapshotKeys, IsChanged(snapshot, current)),
             snapshotKeys + Select(currentKeys, IsNew(snapshot)))
  }

  function DiffOf(snapshot: seq<PeerRecord>, current: seq<PeerRecord>): PlanDiff {
    DiffOfMaps(Distinct(PublicKeys(snapshot)), Distinct(PublicKeys(current)), PeersByKey(snapshot), PeersByKey(current))
  }

  // The loop of computePeerDiff over the snapshot's peers.
  method CompareSnapshot(keys: seq<Key>, snapshot: map<Key, PeerRecord>, current: map<Key, PeerRecord>)
    returns (added: seq<Key>, modified: seq<Key>, affected: seq<Key>)
    requires forall k :: k in keys <==> k in snapshot
    requires forall i, j | 0 <= i < j < |keys| :: keys[i] != keys[j]
    ensures added == Select(keys, IsNew(current)) && modified == Select(keys, IsChanged(snapshot, current)) &&
            affected == keys
  {
    hide Select, PeersEqual;
    added, modified, affected := [], [], [];
    SelectNone(keys, IsNew(current));
    SelectNone(keys, IsChanged(snapshot, current));
    var i := 0;
    while i < |keys|
      invariant 0 <= i <= |keys|
      invariant affected == keys[..i]
      invariant added == Select(keys[..i], IsNew(current))
      invariant modified == Select(keys[..i], IsChanged(snapshot, current))
    {
      SelectOneMore(keys, IsNew(current), i);
      SelectOneMore(keys, IsChanged(snapshot, current), i);
      var key := keys[i];
      if key !in affected { affected := affected + [key]; }
      if key !in current {
        added := added + [key];
      } else if !PeersEqual(snapshot[key], current[key]) {
        modified := modified + [key];
      }
      i := i + 1;
    }
    assert keys[..i] == keys;
  }

  // The loop over the current peers.
  method CollectRemoved(keys: seq<Key>, snapshotKeys: seq<Key>, snapshot: map<Key, PeerRecord>)
    returns (removed: seq<Key>, affected: seq<Key>)
    requires forall k :: k in snapshotKeys <==> k in snapshot
    requires forall i, j | 0 <= i < j < |keys| :: keys[i] != keys[j]
    ensures removed == Select(keys, IsNew(snapshot)) && affected == snapshotKeys + removed
  {
    hide Select;
    removed, affected := [], snapshotKeys;
    SelectNone(keys, IsNew(snapshot));
    var i := 0;
    while i < |keys|
      invariant 0 <= i <= |keys|
      invariant removed == Select(keys[..i], IsNew(snapshot))
      invariant affected == snapshotKeys + removed
    {
      SelectOneMore(keys, IsNew(snapshot), i);
      if keys[i] !in snapshot {
        NewKey(keys, IsNew(snapshot), i);
        removed := removed + [keys[i]];
        if keys[i] !in affected { affected := affected + [keys[i]]; }
      }
      i := i + 1;
    }
    assert keys[..i] == keys;
  }

  // computePeerDiff
  method ComputePeerDiff(snapshot: State, current: State) returns (diff: PlanDiff)
    ensures diff == DiffOf(NotDeleted(snapshot.peers), NotDeleted(current.peers))
  {
    hide Select, PeersEqual, PeersByKey, Distinct, NotDeleted;
    var snapshotPeers, currentPeers := NotDeleted(snapshot.peers), NotDeleted(current.peers);
    var snapshotByKey, currentByKey := PeersByKey(snapshotPeers), PeersByKey(currentPeers);
    var snapshotKeys, currentKeys := Distinct(PublicKeys(snapshotPeers)), Distinct(PublicKeys(currentPeers));
    var added, modified, seen := CompareSnapshot(snapshotKeys, snapshotByKey, currentByKey);
    var removed, affected := CollectRemoved(currentKeys, seen, snapshotByKey);
    diff := PlanDiff(added, removed, modified, affected);
  }

  lemma NewKey(keys: seq<Key>, p: Key -> bool, i: nat)
    requires i < |keys| && forall a, b | 0 <= a < b < |keys| :: keys[a] != keys[b]
    ensures keys[i] !in Select(keys[..i], p)
  {
    hide Select;
  }

  // For every two states: each live key of either falls in exactly one class,
  // and `affected` lists each of them once.
  lemma RestoreDiffPartitions(snapshot: State, current: State, key: Key)
    ensures var d := DiffOf(NotDeleted(snapshot.peers), NotDeleted(current.peers));
            && (key in d.added <==> key in LiveKeys(snapshot) && key !in LiveKeys(current))
            && (key in d.removed <==> key !in LiveKeys(snapshot) && key in LiveKeys(current))
            && (key in d.modified ==> key in LiveKeys(snapshot) && key in LiveKeys(current))
            && (key in d.affected <==> key in LiveKeys(snapshot) || key in LiveKeys(current))
    ensures var d := DiffOf(NotDeleted(snapshot.peers), NotDeleted(current.peers));
            forall i, j | 0 <= i < j < |d.affected| :: d.affected[i] != d.affected[j]
  {
    hide NotDeleted, PublicKeys, PeersByKey, Select, Distinct, PeersEqual, LiveKeys;
    LiveKeysListed(snapshot);
    LiveKeysListed(current);
    var keys := Distinct(PublicKeys(NotDeleted(snapshot.peers)));
    var removed := DiffOf(NotDeleted(snapshot.peers), NotDeleted(current.peers)).removed;
    assert forall k | k in removed :: k !in keys;
    DistinctConcat(keys, removed);
  }

  lemma DistinctConcat(a: seq<Key>, b: seq<Key>)
    requires forall i, j | 0 <= i < j < |a| :: a[i] != a[j]
    requires forall i, j | 0 <= i < j < |b| :: b[i] != b[j]
    requires forall k | k in b :: k !in a
    ensures forall i, j | 0 <= i < j < |a + b| :: (a + b)[i] != (a + b)[j]
  {
    var c := a + b;
    forall i, j | 0 <= i < j < |c| ensures c[i] != c[j] {
      if i < |a| <= j { assert c[i] in a && c[j] == b[j - |a|]; }
    }
  }

  // The last record with that key that is not deleted: the one a plan looks at.
  ghost predicate LastLive(peers: seq<PeerRecord>, key: Key, i: int) {
    && 0 <= i < |peers| && peers[i].status != Deleted && peers[i].publicKey == key
    && forall j | i < j < |peers| :: peers[j].status == Deleted || peers[j].publicKey != key
  }

  lemma {:induction false} NotDeletedConcat(a: seq<PeerRecord>, b: seq<PeerRecord>)
    ensures NotDeleted(a + b) == NotDeleted(a) + NotDeleted(b)
  {
    if a == [] {
      assert a + b == b;
    } else {
      var head := if a[0].status != Deleted then [a[0]] else [];
      assert (a + b)[1..] == a[1..] + b;
      assert NotDeleted(a + b) == head + NotDeleted(a[1..] + b) && NotDeleted(a) == head + NotDeleted(a[1..]);
      hide NotDeleted;
      NotDeletedConcat(a[1..], b);
    }
  }

  lemma {:induction false} LastWins(a: seq<PeerRecord>, x: PeerRecord, b: seq<PeerRecord>)
    requires x.publicKey !in PublicKeys(b)
    ensures x.publicKey in PeersByKey(a + [x] + b) && PeersByKey(a + [x] + b)[x.publicKey] == x
  {
    if b == [] {
      assert a + [x] + b == a + [x] && (a + [x])[..|a|] == a;
    } else {
      var init, last := b[..|b| - 1], b[|b| - 1];
      assert PublicKeys(b) == PublicKeys(init) + [last.publicKey];
      LastWins(a, x, init);
      assert (a + [x] + b)[..|a + [x] + b| - 1] == a + [x] + init;
    }
  }

  lemma LastLiveFound(peers: seq<PeerRecord>, key: Key, i: nat)
    requires LastLive(peers, key, i)
    ensures key in PeersByKey(NotDeleted(peers)) && PeersByKey(NotDeleted(peers))[key] == peers[i]
  {
    hide NotDeleted, PeersByKey, PublicKeys;
    var before, after := peers[..i], peers[i + 1..];
    assert peers == before + [peers[i]] + after;
    NotDeletedConcat(before + [peers[i]], after);
    NotDeletedConcat(before, [peers[i]]);
    assert NotDeleted([peers[i]]) == [peers[i]] by { OneKept(peers[i]); }
    NotDeletedKeys(after, key);
    assert forall j | 0 <= j < |after| :: after[j] == peers[i + 1 + j];
    LastWins(NotDeleted(before), peers[i], NotDeleted(after));
  }

  lemma OneKept(peer: PeerRecord)
    requires peer.status != Deleted
    ensures NotDeleted([peer]) == [peer]
  {
    assert [peer][1..] == [];
  }

  // A key that is in both is listed as modified exactly when the two records
  // differ in one of the seven things the plan compares.
  lemma UnlistedPeersAgree(snapshot: State, current: State, key: Key, i: nat, j: nat)
    requires LastLive(snapshot.peers, key, i) && LastLive(current.peers, key, j)
    ensures var a, b := snapshot.peers[i], current.peers[j];
            key !in DiffOf(NotDeleted(snapshot.peers), NotDeleted(current.peers)).modified <==>
            && a.name == b.name && a.addressV4 == b.addressV4 && a.status == b.status && a.expiresAt == b.expiresAt
            && a.persistentKeepalive == b.persistentKeepalive
            && Join(a.allowedIps, ',') == Join(b.allowedIps, ',') && Join(a.dnsServers, ',') == Join(b.dnsServers, ',')
  {
    hide NotDeleted, PublicKeys, PeersByKey, Select, Distinct, LastLive, Join;
    LastLiveFound(snapshot.peers, key, i);
    LastLiveFound(current.peers, key, j);
  }

  // The plan predicts the peers of the restored state file.
  lemma PlanPredictsRestore(c: Backup.Codec, bytes: Backup.Bytes, q: Backup.Request, file: Option<Backup.Bytes>,
                            current: State)
    requires Backup.Lawful(c) && Backup.RestoreNoted(c, bytes, q, file)
    ensures file.Some? && c.decode(file.value).Some? && c.decode(bytes).Some?
    ensures var d := DiffOf(NotDeleted(c.decode(bytes).value.peers), NotDeleted(current.peers));
            LiveKeys(c.decode(file.value).value) ==
            (LiveKeys(current) - (set k | k in d.removed)) + (set k | k in d.added)
  {
    hide DiffOf, NotDeleted, LiveKeys;
    var restored, snapshot := c.decode(file.value).value, c.decode(bytes).value;
    assert LiveKeys(restored) == LiveKeys(snapshot) by { SamePeersSameKeys(restored, snapshot); }
    var d := DiffOf(NotDeleted(snapshot.peers), NotDeleted(current.peers));
    forall k ensures k in LiveKeys(restored) <==>
        k in (LiveKeys(current) - (set k | k in d.removed)) + (set k | k in d.added) {
      RestoreDiffPartitions(snapshot, current, k);
    }
  }

  // ── The store's invariant ────────────────────────────────────────────────

  lemma NotedStateIsSound(s: State, action: AuditAction, actor: string, id: Id, now: Millis)
    requires Invariants.Inv(s)
    ensures Invariants.Inv(Backup.WithEvent(s, action, actor, id, now))
  {
    hide Invariants.ServerOk, Invariants.PeersOk, Invariants.LinksOk;
    var noted := [AuditEvent(action, actor, Some(id), None, s.revision, now)];
    Invariants.RevisionsKept(s.events, s.revision, noted, s.revision);
  }

  // If the state before and the snapshot satisfy the store's invariant, so does
  // whatever can be read from the file at any moment of a restore: afterwards
  // no duplicate gate fires either.
  lemma RestoreKeepsInvariant(c: Backup.Codec, before: Option<Backup.Bytes>, initial: State, snapshot: Backup.Bytes,
                              q: Backup.Request, file: Option<Backup.Bytes>)
    requires Backup.Lawful(c) && Backup.Expected(c, before, initial, snapshot, q, file)
    requires Backup.Loaded(c, before, initial).Some? ==> Invariants.Inv(Backup.Loaded(c, before, initial).value)
    requires c.decode(snapshot).Some? ==> Invariants.Inv(c.decode(snapshot).value)
    ensures Backup.Loaded(c, file, initial).Some? ==> Invariants.Inv(Backup.Loaded(c, file, initial).value)
  {
    hide Invariants.Inv, Backup.WithEvent;
    if Backup.FailureNoted(c, before, initial, q, file) {
      NotedStateIsSound(Backup.Loaded(c, before, initial).value, BackupRestoreFailed, q.actor, q.id, q.now);
    }
    if Backup.RestoreNoted(c, snapshot, q, file) {
      NotedStateIsSound(c.decode(snapshot).value, BackupRestored, q.actor, q.id, q.now);
    }
  }

  lemma SamePeersSameKeys(s: State, t: State)
    requires s.peers == t.peers
    ensures LiveKeys(s) == LiveKeys(t)
  {
  }
}
