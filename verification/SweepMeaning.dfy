// What an expiry sweep reports, warns about, revokes and remembers, said of the
// stored dates and of the times of the last warnings.
module SweepMeaning {
  import opened Wrappers
  import opened Records
  import opened StoreRules
  import opened StoreInvariants
  import opened StoreRuns
  import opened ExpirySweep

  // The peer is to expire, and within the given number of days.
  ghost predicate DueSoon(peer: PeerRecord, o: SweepOptions) {
    && peer.status == Active
    && exists ms: Millis ::
         peer.expiresAt == Some(Instant(ms)) && o.now < ms <= o.now + o.warnWithinDays * 86_400_000
  }

  ghost predicate Lapsed(peer: PeerRecord, o: SweepOptions) { peer.status == Active && PastExpiry(peer, o.now) }

  // The last warning, if any, is more than 24 hours old.
  ghost predicate LongUnwarned(warned: map<Id, Millis>, id: Id, now: Millis) {
    id in warned ==> warned[id] + 86_400_000 < now
  }

  lemma PeerMeaning(peer: PeerRecord, warned: map<Id, Millis>, o: SweepOptions)
    ensures SweepExpiresSoon(peer, o) <==> DueSoon(peer, o)
    ensures SweepExpires(peer, o) <==> Lapsed(peer, o)
    ensures SweepWarns(peer, warned, o) <==> DueSoon(peer, o) && LongUnwarned(warned, peer.id, o.now)
    ensures !(DueSoon(peer, o) && Lapsed(peer, o))
  {
    if peer.expiresAt.Some? && peer.expiresAt.value.Instant? {
      var ms := peer.expiresAt.value.ms;
      assert peer.expiresAt == Some(Instant(ms));
      assert o.warnWithinDays <= 0 ==> o.warnWithinDays * 86_400_000 <= 0;
    }
  }

  // A sweep reports as expiring soon exactly the active peers that expire after
  // now and within the given days, and as expired exactly the active peers
  // whose expiry has come.
  lemma SweepReports(peers: seq<PeerRecord>, o: SweepOptions, id: Id)
    ensures id in ExpiringSoonIds(peers, o) <==> exists p | p in peers :: p.id == id && DueSoon(p, o)
    ensures id in ExpiredIds(peers, o) <==> exists p | p in peers :: p.id == id && Lapsed(p, o)
  {
    hide DueSoon, Lapsed, SweepExpiresSoon, PeerApiStatus;
    SoonIds(peers, o, id);
    ReportedExpired(peers, o, id);
    forall p: PeerRecord
      ensures SweepExpiresSoon(p, o) <==> DueSoon(p, o)
      ensures PeerApiStatus(p, o.now) == Expired <==> Lapsed(p, o)
    {
      PeerMeaning(p, map[], o);
      StatusMeaning(p, o.now);
      assert PeerApiStatus(p, o.now) == Expired <==> Lapsed(p, o) by { LapsedStatus(p, o); }
    }
  }

  lemma LapsedStatus(p: PeerRecord, o: SweepOptions)
    ensures PeerApiStatus(p, o.now) == Expired <==> Lapsed(p, o)
  {
    StatusMeaning(p, o.now);
  }

  // ── Events ───────────────────────────────────────────────────────────────

  ghost function Happens(b: bool): nat { if b then 1 else 0 }

  // How often a sweep records this action for the peer.
  ghost function TimesRecorded(peer: PeerRecord, warned: map<Id, Millis>, o: SweepOptions, action: AuditAction): nat {
    if action == PeerExpiringWarned then Happens(DueSoon(peer, o) && LongUnwarned(warned, peer.id, o.now))
    else if action == PeerExpiredWarned then Happens(Lapsed(peer, o) && !o.autoRevoke)
    else if action in {PeerExpiredAutoRevoked, PeerRevoked} then Happens(Lapsed(peer, o) && o.autoRevoke)
    else 0
  }

  ghost predicate EventOf(e: AuditEvent, peer: PeerRecord, revision: nat, o: SweepOptions) {
    e == AuditEvent(e.action, o.actor, Some(peer.id), Some(peer.name), revision, o.now)
  }

  lemma SameEvent(e: AuditEvent, action: AuditAction, peer: PeerRecord, revision: nat, o: SweepOptions)
    ensures e == SweepEvent(action, peer, revision, o) <==> EventOf(e, peer, revision, o) && e.action == action
  {
  }

  lemma PeerSays(peer: PeerRecord, warned: map<Id, Millis>, revision: nat, o: SweepOptions)
    ensures PeerSweepEvents(peer, warned, revision, o) ==
            if Lapsed(peer, o) && o.autoRevoke
            then [SweepEvent(PeerExpiredAutoRevoked, peer, revision, o), SweepEvent(PeerRevoked, peer, revision, o)]
            else if Lapsed(peer, o) then [SweepEvent(PeerExpiredWarned, peer, revision, o)]
            else if DueSoon(peer, o) && LongUnwarned(warned, peer.id, o.now)
            then [SweepEvent(PeerExpiringWarned, peer, revision, o)]
            else []
  {
    hide DueSoon, Lapsed, SweepExpires, SweepExpiresSoon, SweepWarns, LongUnwarned, SweepEvent;
    PeerMeaning(peer, warned, o);
  }

  lemma PeerTimes(peer: PeerRecord, warned: map<Id, Millis>, o: SweepOptions, action: AuditAction)
    ensures TimesRecorded(peer, warned, o, action) ==
            if Lapsed(peer, o) && o.autoRevoke then
                Happens(action == PeerExpiredAutoRevoked) + Happens(action == PeerRevoked)
            else if Lapsed(peer, o) then Happens(action == PeerExpiredWarned)
            else if DueSoon(peer, o) && LongUnwarned(warned, peer.id, o.now) then Happens(action == PeerExpiringWarned)
            else 0
  {
    hide DueSoon, Lapsed, LongUnwarned;
    PeerMeaning(peer, warned, o);
  }

  lemma PeerEvents(peer: PeerRecord, warned: map<Id, Millis>, revision: nat, o: SweepOptions, e: AuditEvent)
    ensures multiset(PeerSweepEvents(peer, warned, revision, o))[e] ==
            if EventOf(e, peer, revision, o) then TimesRecorded(peer, warned, o, e.action) else 0
  {
    hide DueSoon, Lapsed, LongUnwarned, EventOf, SweepEvent, PeerSweepEvents, TimesRecorded;
    PeerSays(peer, warned, revision, o);
    PeerTimes(peer, warned, o, e.action);
    if Lapsed(peer, o) && o.autoRevoke {
      SameEvent(e, PeerExpiredAutoRevoked, peer, revision, o);
      SameEvent(e, PeerRevoked, peer, revision, o);
      Two(SweepEvent(PeerExpiredAutoRevoked, peer, revision, o), SweepEvent(PeerRevoked, peer, revision, o), e);
    } else if Lapsed(peer, o) {
      SameEvent(e, PeerExpiredWarned, peer, revision, o);
      One(SweepEvent(PeerExpiredWarned, peer, revision, o), e);
    } else if DueSoon(peer, o) && LongUnwarned(warned, peer.id, o.now) {
      SameEvent(e, PeerExpiringWarned, peer, revision, o);
      One(SweepEvent(PeerExpiringWarned, peer, revision, o), e);
    }
  }

  lemma One(a: AuditEvent, e: AuditEvent)
    ensures multiset([a])[e] == if e == a then 1 else 0
  {
  }

  lemma Two(a: AuditEvent, b: AuditEvent, e: AuditEvent)
    ensures multiset([a, b])[e] == (if e == a then 1 else 0) + if e == b then 1 else 0
  {
    assert [a, b] == [a] + [b];
    One(a, e);
    One(b, e);
  }

  // The events of a sweep: for each peer what is due, once, and nothing else.
  lemma {:induction false} SweepRecords(peers: seq<PeerRecord>, warned: map<Id, Millis>, revision: nat,
                                        o: SweepOptions, e: AuditEvent, k: nat)
    requires UniqueIds(peers) && k < |peers| && e.targetId == Some(peers[k].id)
    ensures multiset(SweepEvents(peers, warned, revision, o))[e] ==
            if EventOf(e, peers[k], revision, o) then TimesRecorded(peers[k], warned, o, e.action) else 0
  {
    hide PeerSweepEvents, TimesRecorded;
    var init, last := peers[..|peers| - 1], peers[|peers| - 1];
    PeerEvents(last, warned, revision, o, e);
    if k < |init| {
      SweepRecords(init, warned, revision, o, e, k);
    } else {
      NothingElse(init, warned, revision, o, e);
    }
  }

  lemma {:induction false} NothingElse(peers: seq<PeerRecord>, warned: map<Id, Millis>, revision: nat,
                                       o: SweepOptions, e: AuditEvent)
    requires forall p | p in peers :: e.targetId != Some(p.id)
    ensures e !in SweepEvents(peers, warned, revision, o)
  {
    if peers != [] {
      hide PeerSweepEvents, TimesRecorded;
      PeerEvents(peers[|peers| - 1], warned, revision, o, e);
      NothingElse(peers[..|peers| - 1], warned, revision, o, e);
      assert multiset(PeerSweepEvents(peers[|peers| - 1], warned, revision, o))[e] == 0;
    }
  }

  // ── The whole sweep ──────────────────────────────────────────────────────

  // A sweep warns about a peer exactly when it reports it as expiring soon and
  // the last warning is not within 24 hours.
  lemma WarnsExactly(s: State, o: SweepOptions, k: nat)
    requires Inv(s) && k < |s.peers|
    ensures var p := s.peers[k];
            AuditEvent(PeerExpiringWarned, o.actor, Some(p.id), Some(p.name), s.revision, o.now) in
              Emitted(s, Sweep(o)) <==>
            p.id in ExpiringSoonIds(s.peers, o) && LongUnwarned(s.expiryWarned, p.id, o.now)
  {
    hide Emitted, InTunnel, LifecycleOk, LinksOk, RevisionsOk, LiveDistinct, DueSoon, SweepEvents, ExpiringSoonIds,
         LongUnwarned;
    var p := s.peers[k];
    var e := AuditEvent(PeerExpiringWarned, o.actor, Some(p.id), Some(p.name), s.revision, o.now);
    SweepEmits(s, o);
    SweepRecords(s.peers, s.expiryWarned, s.revision, o, e, k);
    SweepReports(s.peers, o, p.id);
    forall q | q in s.peers && q.id == p.id ensures q == p {}
  }

  // What a sweep leaves: auto-revocation revokes exactly the lapsed peers, and
  // nothing but peers, events and the times of the last warnings changes.
  lemma SweepLeaves(s: State, o: SweepOptions)
    ensures var t := Step(s, Sweep(o));
            && Apply(s, Sweep(o)).Success?
            && t == s.(peers := t.peers, events := t.events, expiryWarned := t.expiryWarned)
            && |t.peers| == |s.peers|
            && forall k | 0 <= k < |s.peers| ::
                 t.peers[k] ==
                 if o.autoRevoke && Lapsed(s.peers[k], o)
                 then s.peers[k].(status := Revoked, revokedAt := Some(o.now), updatedAt := o.now)
                 else s.peers[k]
  {
    hide SweepEvents, WarnedNext, Lapsed, SweepExpires, Appended;
    forall k | 0 <= k < |s.peers| ensures SweepExpires(s.peers[k], o) <==> Lapsed(s.peers[k], o) {
      PeerMeaning(s.peers[k], map[], o);
    }
  }

  // What it remembers: the time of a warning just given; nothing of a peer it
  // revoked; of everybody else what was known before.
  lemma SweepRemembersExactly(s: State, o: SweepOptions, id: Id)
    requires Inv(s)
    ensures var before, after := s.expiryWarned, Step(s, Sweep(o)).expiryWarned;
            forall k | 0 <= k < |s.peers| && s.peers[k].id == id ::
              if DueSoon(s.peers[k], o) && LongUnwarned(before, id, o.now) then id in after && after[id] == o.now
              else if o.autoRevoke && Lapsed(s.peers[k], o) then id !in after
              else (id in after <==> id in before) && (id in before ==> after[id] == before[id])
    ensures var before, after := s.expiryWarned, Step(s, Sweep(o)).expiryWarned;
            (forall k | 0 <= k < |s.peers| :: s.peers[k].id != id) ==>
              (id in after <==> id in before) && (id in before ==> after[id] == before[id])
  {
    hide Step, InTunnel, LifecycleOk, LinksOk, RevisionsOk, LiveDistinct, DueSoon, Lapsed, LongUnwarned, WarnedNext,
         SweepWarns, SweepExpires;
    SweepEmits(s, o);
    forall k | 0 <= k < |s.peers| && s.peers[k].id == id
      ensures var before, after := s.expiryWarned, Step(s, Sweep(o)).expiryWarned;
              if DueSoon(s.peers[k], o) && LongUnwarned(before, id, o.now) then id in after && after[id] == o.now
              else if o.autoRevoke && Lapsed(s.peers[k], o) then id !in after
              else (id in after <==> id in before) && (id in before ==> after[id] == before[id])
    {
      PeerMeaning(s.peers[k], s.expiryWarned, o);
      WarnedNextOf(s.peers, s.expiryWarned, o, k);
      if o.autoRevoke && SweepExpires(s.peers[k], o) { RevokedForgotten(s.peers, s.expiryWarned, o, k); }
    }
    if forall k | 0 <= k < |s.peers| :: s.peers[k].id != id {
      WarnedNextElsewhere(s.peers, s.expiryWarned, o, id);
    }
  }

  lemma {:induction false} RevokedForgotten(peers: seq<PeerRecord>, warned: map<Id, Millis>, o: SweepOptions, k: nat)
    requires UniqueIds(peers) && k < |peers| && o.autoRevoke && SweepExpires(peers[k], o)
    ensures peers[k].id !in WarnedNext(peers, warned, o)
  {
    var init, last := peers[..|peers| - 1], peers[|peers| - 1];
    if k < |init| {
      RevokedForgotten(init, warned, o, k);
      assert last.id != peers[k].id;
    }
  }
}
