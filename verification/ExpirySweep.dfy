// The expiry sweep against the status the API reports.
module ExpirySweep {
  import opened Wrappers
  import opened Records
  import opened StoreRules
  import opened StoreInvariants
  import opened StoreRuns
  import Ipv4

  // The identifiers the sweep returns, in peer order.
  function ExpiredIds(peers: seq<PeerRecord>, o: SweepOptions): seq<Id> {
    if peers == [] then []
    else ExpiredIds(peers[..|peers| - 1], o) +
         (if SweepExpires(peers[|peers| - 1], o) then [peers[|peers| - 1].id] else [])
  }

  function ExpiringSoonIds(peers: seq<PeerRecord>, o: SweepOptions): seq<Id> {
    if peers == [] then []
    else ExpiringSoonIds(peers[..|peers| - 1], o) +
         (if SweepExpiresSoon(peers[|peers| - 1], o) then [peers[|peers| - 1].id] else [])
  }

  // The sweep and the API agree, at the same clock reading, on which peers are
  // expired, and none of those is reported as expiring soon.
  lemma {:induction false} ReportedExpired(peers: seq<PeerRecord>, o: SweepOptions, id: Id)
    ensures id in ExpiredIds(peers, o) <==>
            exists k | 0 <= k < |peers| :: peers[k].id == id && PeerApiStatus(peers[k], o.now) == Expired
    ensures UniqueIds(peers) && id in ExpiredIds(peers, o) ==> id !in ExpiringSoonIds(peers, o)
  {
    if peers != [] {
      var init := peers[..|peers| - 1];
      ReportedExpired(init, o, id);
      assert forall k | 0 <= k < |init| :: init[k] == peers[k];
      SoonIds(peers, o, id);
    }
  }

  lemma {:induction false} SoonIds(peers: seq<PeerRecord>, o: SweepOptions, id: Id)
    ensures id in ExpiringSoonIds(peers, o) <==>
            exists k | 0 <= k < |peers| :: peers[k].id == id && SweepExpiresSoon(peers[k], o)
  {
    if peers != [] {
      var init := peers[..|peers| - 1];
      SoonIds(init, o, id);
      assert forall k | 0 <= k < |init| :: init[k] == peers[k];
    }
  }

  // Auto-revocation never changes which peers are served: the active list at
  // the sweep's own time is the same before and after.
  lemma {:induction false} SweepKeepsActivePeers(peers: seq<PeerRecord>, o: SweepOptions)
    ensures ActivePeers(SweptPeers(peers, o), o.now) == ActivePeers(peers, o.now)
  {
    if peers != [] {
      SweepKeepsActivePeers(peers[1..], o);
      assert SweptPeers(peers, o)[1..] == SweptPeers(peers[1..], o);
    }
  }

  lemma {:induction false} NothingExpired(peers: seq<PeerRecord>, warned: map<Id, Millis>, revision: nat,
                                          o: SweepOptions)
    requires forall k | 0 <= k < |peers| :: !SweepWarns(peers[k], warned, o)
    ensures (SweepEvents(peers, warned, revision, o) == []) <==>
            (forall k | 0 <= k < |peers| :: !SweepExpires(peers[k], o))
    ensures SweepEvents(peers, warned, revision, o) == [] ==> WarnedNext(peers, warned, o) == warned
  {
    if peers != [] {
      hide SweepExpires, SweepWarns, PeerSweepEvents, PeerWarned;
      var init, last := peers[..|peers| - 1], peers[|peers| - 1];
      NothingExpired(init, warned, revision, o);
      assert forall k | 0 <= k < |init| :: init[k] == peers[k];
      QuietPeer(last, warned, WarnedNext(init, warned, o), revision, o);
      assert forall k | 0 <= k < |peers| :: peers[k] == if k < |init| then init[k] else last;
    }
  }

  lemma QuietPeer(peer: PeerRecord, warned: map<Id, Millis>, next: map<Id, Millis>, revision: nat, o: SweepOptions)
    requires !SweepWarns(peer, warned, o)
    ensures PeerSweepEvents(peer, warned, revision, o) == [] <==> !SweepExpires(peer, o)
    ensures !SweepExpires(peer, o) ==> PeerWarned(peer, warned, next, o) == next
  {
  }

  // Repeating a sweep at the same time appends nothing and changes nothing
  // exactly when the first one revoked what it found, or found nothing
  // expired: without auto-revocation every sweep reports expired peers anew.
  lemma RepeatedSweep(s: State, o: SweepOptions)
    requires Inv(s)
    ensures var t := Step(s, Sweep(o));
            && (Emitted(t, Sweep(o)) == [] <==>
                  o.autoRevoke || forall k | 0 <= k < |s.peers| :: PeerApiStatus(s.peers[k], o.now) != Expired)
            && (Emitted(t, Sweep(o)) == [] ==> Step(t, Sweep(o)) == t)
  {
    hide InTunnel, LifecycleOk, LinksOk, RevisionsOk, LiveDistinct, Ipv4.ParseIpv4Cidr, WarnedNext, SweepEvents;
    var t := Step(s, Sweep(o));
    SweepEmits(s, o);
    SweepEmits(t, o);
    forall k | 0 <= k < |t.peers| ensures !SweepWarns(t.peers[k], t.expiryWarned, o) {
      WarnedNextOf(s.peers, s.expiryWarned, o, k);
    }
    NothingExpired(t.peers, t.expiryWarned, t.revision, o);
    forall k | 0 <= k < |s.peers|
      ensures SweepExpires(t.peers[k], o) <==> !o.autoRevoke && PeerApiStatus(s.peers[k], o.now) == Expired
    {
    }
    if Emitted(t, Sweep(o)) == [] {
      QuietSweep(t, o);
    }
  }

  lemma QuietSweep(t: State, o: SweepOptions)
    requires forall k | 0 <= k < |t.peers| :: !SweepExpires(t.peers[k], o)
    requires SweepEvents(t.peers, t.expiryWarned, t.revision, o) == []
    requires WarnedNext(t.peers, t.expiryWarned, o) == t.expiryWarned
    ensures Step(t, Sweep(o)) == t
  {
    assert SweptPeers(t.peers, o) == t.peers;
  }
}
