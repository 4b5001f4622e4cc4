// Driving the kernel to the declared state (packages/engine/src/apply.ts).
module Apply {
  import opened Wrappers
  import opened Records
  import opened Kernel
  import opened ApplyPlan

  datatype ApplyError =
    | DuplicatePubkey | DuplicateAddress | DryRunOnly
    | SyncconfFailed | PeerRemoveFailed(key: Key)
    | HostError   // a plain Error from bootstrap or reconfiguration

  datatype DriftField = ListenPortDrift | ServerPublicKeyDrift | DumpUnavailable

  datatype ApplyResult = ApplyResult(
    dryRun: bool,
    ok: bool,
    bootstrap: bool,
    actionsExecuted: seq<AuditAction>,
    peerChanges: PeerDiff,
    drift: seq<DriftField>)

  // ── The duplicate gate ───────────────────────────────────────────────────

  ghost predicate NoDuplicates(peers: seq<PeerRecord>) {
    forall i, j | 0 <= i < j < |peers| ::
      peers[i].publicKey != peers[j].publicKey && peers[i].addressV4 != peers[j].addressV4
  }

  function Addresses(peers: seq<PeerRecord>): (r: seq<Prefix>)
    ensures |r| == |peers| && forall i | 0 <= i < |r| :: r[i] == peers[i].addressV4
  {
    seq(|peers|, i requires 0 <= i < |peers| => peers[i].addressV4)
  }

  function FirstDuplicate(peers: seq<PeerRecord>): Option<ApplyError> {
    if peers == [] then None
    else
      var init, last := peers[..|peers| - 1], peers[|peers| - 1];
      match FirstDuplicate(init)
      case Some(e) => Some(e)
      case None => DuplicateAt(init, last)
  }

  function DuplicateAt(seen: seq<PeerRecord>, peer: PeerRecord): Option<ApplyError> {
    if peer.publicKey in PublicKeys(seen) then Some(DuplicatePubkey)
    else if peer.addressV4 in Addresses(seen) then Some(DuplicateAddress)
    else None
  }

  lemma NoDuplicatesOfMore(init: seq<PeerRecord>, last: PeerRecord)
    ensures NoDuplicates(init + [last]) <==> NoDuplicates(init) && DuplicateAt(init, last).None?
  {
    var all := init + [last];
    assert all[|init|] == last && forall i | 0 <= i < |init| :: all[i] == init[i];
    NotAmong(init, last);
    if NoDuplicates(init) && DuplicateAt(init, last).None? {
      forall i, j | 0 <= i < j < |all|
        ensures all[i].publicKey != all[j].publicKey && all[i].addressV4 != all[j].addressV4
      {
        if j < |init| { assert init[i] == all[i] && init[j] == all[j]; }
      }
    }
    if NoDuplicates(all) {
      forall i, j | 0 <= i < j < |init|
        ensures init[i].publicKey != init[j].publicKey && init[i].addressV4 != init[j].addressV4
      {
        assert all[i] == init[i] && all[j] == init[j];
      }
      forall i | 0 <= i < |init| ensures init[i].publicKey != last.publicKey && init[i].addressV4 != last.addressV4 {
        assert all[i] == init[i] && all[|init|] == last;
      }
    }
  }

  lemma NotAmong(init: seq<PeerRecord>, last: PeerRecord)
    ensures DuplicateAt(init, last).None? <==>
            forall i | 0 <= i < |init| :: init[i].publicKey != last.publicKey && init[i].addressV4 != last.addressV4
  {
    assert forall i | 0 <= i < |init| ::
        PublicKeys(init)[i] == init[i].publicKey && Addresses(init)[i] == init[i].addressV4;
  }

  lemma {:induction false} GateMeaning(peers: seq<PeerRecord>)
    ensures FirstDuplicate(peers).None? <==> NoDuplicates(peers)
  {
    if peers != [] {
      hide NoDuplicates, DuplicateAt;
      var init, last := peers[..|peers| - 1], peers[|peers| - 1];
      GateMeaning(init);
      NoDuplicatesOfMore(init, last);
      assert init + [last] == peers;
    } else {
      assert NoDuplicates(peers);
    }
  }

  // The error names the first peer that repeats something, and an address only
  // if its key is its own.
  lemma {:induction false} GateError(peers: seq<PeerRecord>) returns (j: nat)
    requires FirstDuplicate(peers).Some?
    ensures j < |peers| && NoDuplicates(peers[..j])
    ensures var sameKey := exists i | 0 <= i < j :: peers[i].publicKey == peers[j].publicKey;
            && (sameKey || exists i | 0 <= i < j :: peers[i].addressV4 == peers[j].addressV4)
            && FirstDuplicate(peers).value == if sameKey then DuplicatePubkey else DuplicateAddress
  {
    hide NoDuplicates, DuplicateAt;
    var init, last := peers[..|peers| - 1], peers[|peers| - 1];
    GateMeaning(init);
    if FirstDuplicate(init).Some? {
      j := GateError(init);
      assert init[..j] == peers[..j] && forall i | 0 <= i <= j :: init[i] == peers[i];
    } else {
      j := |init|;
      DuplicateNamed(init, last);
      assert forall i | 0 <= i < j :: init[i] == peers[i];
    }
  }

  lemma DuplicateNamed(init: seq<PeerRecord>, last: PeerRecord)
    requires DuplicateAt(init, last).Some?
    ensures var sameKey := exists i | 0 <= i < |init| :: init[i].publicKey == last.publicKey;
            && (sameKey || exists i | 0 <= i < |init| :: init[i].addressV4 == last.addressV4)
            && DuplicateAt(init, last).value == if sameKey then DuplicatePubkey else DuplicateAddress
  {
    assert forall i | 0 <= i < |init| ::
        PublicKeys(init)[i] == init[i].publicKey && Addresses(init)[i] == init[i].addressV4;
  }

  method CheckDuplicates(peers: seq<PeerRecord>) returns (error: Option<ApplyError>)
    ensures error == FirstDuplicate(peers)
  {
    var seenPubKeys: set<Key>, seenAddresses: set<Prefix> := {}, {};
    var i := 0;
    while i < |peers|
      invariant 0 <= i <= |peers| && FirstDuplicate(peers[..i]).None?
      invariant seenPubKeys == set k | k in PublicKeys(peers[..i])
      invariant seenAddresses == set a | a in Addresses(peers[..i])
    {
      hide FirstDuplicate;
      SeenOneMore(peers, i);
      GateStep(peers, i);
      if peers[i].publicKey in seenPubKeys { return Some(DuplicatePubkey); }
      if peers[i].addressV4 in seenAddresses { return Some(DuplicateAddress); }
      seenPubKeys := seenPubKeys + {peers[i].publicKey};
      seenAddresses := seenAddresses + {peers[i].addressV4};
      i := i + 1;
    }
    assert peers[..i] == peers;
    return None;
  }

  lemma SeenOneMore(peers: seq<PeerRecord>, i: nat)
    requires i < |peers|
    ensures PublicKeys(peers[..i + 1]) == PublicKeys(peers[..i]) + [peers[i].publicKey]
    ensures Addresses(peers[..i + 1]) == Addresses(peers[..i]) + [peers[i].addressV4]
  {
  }

  lemma GateStep(peers: seq<PeerRecord>, i: nat)
    requires i < |peers| && FirstDuplicate(peers[..i]).None?
    ensures FirstDuplicate(peers[..i + 1]) == DuplicateAt(peers[..i], peers[i])
    ensures FirstDuplicate(peers[..i + 1]).Some? ==> FirstDuplicate(peers) == FirstDuplicate(peers[..i + 1])
  {
    hide DuplicateAt;
    assert peers[..i + 1][..i] == peers[..i];
    if FirstDuplicate(peers[..i + 1]).Some? { DuplicateStays(peers, i + 1); }
  }

  lemma {:induction false} DuplicateStays(peers: seq<PeerRecord>, i: nat)
    requires i <= |peers| && FirstDuplicate(peers[..i]).Some?
    ensures FirstDuplicate(peers) == FirstDuplicate(peers[..i])
  {
    if i < |peers| {
      assert peers[..|peers| - 1][..i] == peers[..i];
      DuplicateStays(peers[..|peers| - 1], i);
    } else {
      assert peers[..i] == peers;
    }
  }

  // ── The goal ─────────────────────────────────────────────────────────────

  function KeepaliveOf(peers: seq<PeerRecord>): map<Key, nat> {
    if peers == [] then map[]
    else KeepaliveOf(peers[..|peers| - 1])[peers[|peers| - 1].publicKey := peers[|peers| - 1].persistentKeepalive]
  }

  function OwnerOf(peers: seq<PeerRecord>): map<Prefix, Key> {
    if peers == [] then map[]
    else OwnerOf(peers[..|peers| - 1])[peers[|peers| - 1].addressV4 := peers[|peers| - 1].publicKey]
  }

  // The interface is up on the declared port and holds exactly the given
  // peers, each with its own address and nothing else.
  ghost predicate Converged(link: Link, server: ServerSettings, peers: seq<PeerRecord>) {
    && link.up && link.port == server.listenPort
    && link.keepalive == KeepaliveOf(peers)
    && link.owner == OwnerOf(peers)
  }

  lemma {:induction false} GoalKeys(peers: seq<PeerRecord>)
    ensures forall k :: k in KeepaliveOf(peers) <==> k in PublicKeys(peers)
    ensures forall p | p in OwnerOf(peers) :: p in Addresses(peers) && OwnerOf(peers)[p] in PublicKeys(peers)
  {
    if peers != [] {
      var init, last := peers[..|peers| - 1], peers[|peers| - 1];
      GoalKeys(init);
      assert PublicKeys(peers) == PublicKeys(init) + [last.publicKey] &&
             Addresses(peers) == Addresses(init) + [last.addressV4];
    }
  }

  // From `link` to `t`: the peers of `keep` are set as told, each owning what
  // `own` says and only that; every other peer can only have lost prefixes.
  ghost predicate Pushed(link: Link, t: Link, keep: map<Key, nat>, own: map<Prefix, Key>) {
    && t.keepalive == link.keepalive + keep
    && (forall p | p in own :: p in t.owner && t.owner[p] == own[p])
    && (forall p | p in t.owner && t.owner[p] in keep :: p in own && own[p] == t.owner[p])
    && (forall p | p in t.owner && t.owner[p] !in keep :: p in link.owner && link.owner[p] == t.owner[p])
    && t.up == link.up && t.port == link.port && t.privateKey == link.privateKey
  }

  lemma PushedOneMore(link: Link, t: Link, keep: map<Key, nat>, own: map<Prefix, Key>, s: Section)
    requires Pushed(link, t, keep, own)
    requires s.publicKey !in keep && s.allowedIp !in own
    requires forall p | p in own :: own[p] in keep
    ensures Pushed(link, Upsert(t, s), keep[s.publicKey := s.keepalive], own[s.allowedIp := s.publicKey])
  {
    assert link.keepalive + keep[s.publicKey := s.keepalive] == (link.keepalive + keep)[s.publicKey := s.keepalive];
    OwnersOneMore(link.owner, t.owner, keep, own, s);
  }

  lemma OwnersOneMore(before: map<Prefix, Key>, owner: map<Prefix, Key>, keep: map<Key, nat>, own: map<Prefix, Key>,
                      s: Section)
    requires s.publicKey !in keep && s.allowedIp !in own && forall p | p in own :: own[p] in keep
    requires forall p | p in own :: p in owner && owner[p] == own[p]
    requires forall p | p in owner && owner[p] in keep :: p in own && own[p] == owner[p]
    requires forall p | p in owner && owner[p] !in keep :: p in before && before[p] == owner[p]
    ensures var after := Disowned(owner, s.publicKey)[s.allowedIp := s.publicKey];
            var own', keep' := own[s.allowedIp := s.publicKey], keep[s.publicKey := s.keepalive];
            && (forall p | p in own' :: p in after && after[p] == own'[p])
            && (forall p | p in after && after[p] in keep' :: p in own' && own'[p] == after[p])
            && (forall p | p in after && after[p] !in keep' :: p in before && before[p] == after[p])
  {
  }

  // However the prefixes were distributed before, after a sync every listed
  // peer owns its own address and only that.
  lemma {:induction false} UpsertsGoal(link: Link, peers: seq<PeerRecord>)
    requires NoDuplicates(peers)
    ensures Pushed(link, Upserts(link, Sections(peers)), KeepaliveOf(peers), OwnerOf(peers))
  {
    if peers != [] {
      var init, last := peers[..|peers| - 1], peers[|peers| - 1];
      UpsertsGoal(link, init);
      assert Sections(peers)[..|peers| - 1] == Sections(init);
      GoalKeys(init);
      assert last.publicKey !in PublicKeys(init) && last.addressV4 !in Addresses(init);
      hide Pushed, Upsert, NoDuplicates, PublicKeys, Addresses;
      PushedOneMore(link, Upserts(link, Sections(init)), KeepaliveOf(init), OwnerOf(init), SectionOf(last));
    }
  }

  function RemovedAll(link: Link, keys: seq<Key>): Link {
    if keys == [] then link else Removed(RemovedAll(link, keys[..|keys| - 1]), keys[|keys| - 1])
  }

  lemma {:induction false} RemovedAllGoal(link: Link, keys: seq<Key>)
    ensures var t := RemovedAll(link, keys);
            && t.keepalive == link.keepalive - (set k | k in keys)
            && t.owner == (map p | p in link.owner && link.owner[p] !in keys :: link.owner[p])
            && t.up == link.up && t.port == link.port && t.privateKey == link.privateKey
  {
    if keys != [] {
      RemovedAllGoal(link, keys[..|keys| - 1]);
      assert keys == keys[..|keys| - 1] + [keys[|keys| - 1]];
    }
  }

  // One sync of the active peers, then the removal of everyone else, converges
  // from any kernel state.
  lemma SyncAndRemoveConverges(link: Link, server: ServerSettings, peers: seq<PeerRecord>, removed: seq<Key>)
    requires Wired(link) && link.up && NoDuplicates(peers)
    requires forall k :: k in removed <==> k in link.keepalive && k !in PublicKeys(peers)
    ensures var t := RemovedAll(Synced(link, IntendedIni(server, peers)), removed);
            Converged(t, server, peers) && t.privateKey == server.serverPrivateKey
  {
    hide Upserts, KeepaliveOf, OwnerOf, RemovedAll, NoDuplicates, PublicKeys, Sections;
    var start := link.(port := server.listenPort, privateKey := server.serverPrivateKey);
    var synced := Upserts(start, Sections(peers));
    UpsertsGoal(start, peers);
    GoalKeys(peers);
    RemovedAllGoal(synced, removed);
    PushedThenRemoved(start, synced, KeepaliveOf(peers), OwnerOf(peers), removed, RemovedAll(synced, removed));
  }

  lemma PushedThenRemoved(link: Link, synced: Link, keep: map<Key, nat>, own: map<Prefix, Key>, removed: seq<Key>,
                          t: Link)
    requires forall p | p in link.owner :: link.owner[p] in link.keepalive
    requires Pushed(link, synced, keep, own) && forall p | p in own :: own[p] in keep
    requires forall k :: k in removed <==> k in link.keepalive && k !in keep
    requires t.keepalive == synced.keepalive - (set k | k in removed)
    requires t.owner == map p | p in synced.owner && synced.owner[p] !in removed :: synced.owner[p]
    ensures t.keepalive == keep && t.owner == own
  {
    assert t.keepalive == keep;
    forall p ensures p in t.owner <==> p in own {
      if p in synced.owner && synced.owner[p] !in keep { assert synced.owner[p] in removed; }
    }
    assert t.owner == own;
  }

  lemma EmptyConverges(link: Link, server: ServerSettings)
    requires Wired(link) && link.up && link.port == server.listenPort && link.keepalive == map[]
    ensures Converged(link, server, [])
  {
    assert link.owner == map[];
  }
}
