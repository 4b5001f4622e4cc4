// Stored private keys and the public keys beside them
// (packages/engine/src/state.ts): asking for generation while giving a public
// key keeps the given public key and stores the private key of another.
module KeyPairs {
  import opened Wrappers
  import opened Text
  import opened Records
  import opened StoreRules
  import opened StoreInvariants
  import opened StoreRuns
  import Bits
  import Ipv4

  ghost predicate PairMatches(peer: PeerRecord, publicOf: string -> string) {
    peer.privateKey.Some? ==> publicOf(peer.privateKey.value) == peer.publicKey
  }

  ghost predicate PairsMatch(s: State, publicOf: string -> string) {
    forall i | 0 <= i < |s.peers| :: PairMatches(s.peers[i], publicOf)
  }

  // `wg genkey` and `wg pubkey` return a pair.
  ghost predicate Genuine(op: Op, publicOf: string -> string) {
    op.CreatePeer? && op.generated.Some? ==> publicOf(op.generated.value.privateKey) == op.generated.value.publicKey
  }

  // The request both asks for keys and brings a public key of its own.
  predicate Mixes(op: Op) {
    op.CreatePeer? && op.input.generateKeys && op.input.publicKey.Some? && op.generated.Some? &&
    op.input.publicKey != Some(op.generated.value.publicKey)
  }

  lemma CreatedPair(s: State, op: Op, publicOf: string -> string)
    requires op.CreatePeer? && Apply(s, op).Success? && Genuine(op, publicOf)
    ensures Step(s, op).peers != [] &&
            (PairMatches(Step(s, op).peers[|Step(s, op).peers| - 1], publicOf) <==> !Mixes(op))
  {
    hide Ipv4.Allocated, CreateEvents, LiveAddresses;
  }

  // An operation breaks the pairing exactly when it succeeds in mixing.
  lemma StepKeepsPairs(s: State, op: Op, publicOf: string -> string)
    requires Inv(s) && Fresh(s, op) && Genuine(op, publicOf) && PairsMatch(s, publicOf)
    ensures PairsMatch(Step(s, op), publicOf) <==> !(Apply(s, op).Success? && Mixes(op))
  {
    hide Ipv4.ParseIpv4Cidr, InTunnel, LiveDistinct, LinksOk, RevisionsOk, UniqueIds, LifecycleOk, PairMatches, Mixes,
         Apply;
    var t := Step(s, op);
    StepKeepsInvariant(s, op);
    if op.CreatePeer? {
      if Apply(s, op).Success? {
        CreateAppends(s, op);
        CreatedPair(s, op, publicOf);
        forall i | 0 <= i < |s.peers| ensures PairMatches(t.peers[i], publicOf) {
          assert t.peers[i] == t.peers[..|s.peers|][i];
        }
      }
    } else {
      NoMixing(op);
      InPlaceStep(s, op);
      forall i | 0 <= i < |t.peers| ensures PairMatches(t.peers[i], publicOf) {
        assert PeerEvolves(s.peers[i], t.peers[i]) && PairMatches(s.peers[i], publicOf);
        SamePair(s.peers[i], t.peers[i], publicOf);
      }
    }
  }

  lemma CreateAppends(s: State, op: Op)
    requires op.CreatePeer? && Apply(s, op).Success?
    ensures |Step(s, op).peers| == |s.peers| + 1 && Step(s, op).peers[..|s.peers|] == s.peers
  {
    hide Ipv4.Allocated, CreateEvents, LiveAddresses;
  }

  lemma NoMixing(op: Op)
    ensures !op.CreatePeer? ==> !Mixes(op)
  {
  }

  lemma SamePair(p: PeerRecord, q: PeerRecord, publicOf: string -> string)
    requires PeerEvolves(p, q) && PairMatches(p, publicOf)
    ensures PairMatches(q, publicOf)
  {
  }

  // Over any run without such a request every stored pair is a pair.
  lemma {:induction false} RunKeepsPairs(s: State, ops: seq<Op>, publicOf: string -> string)
    requires Inv(s) && FreshRun(s, ops) && PairsMatch(s, publicOf)
    requires forall i | 0 <= i < |ops| :: Genuine(ops[i], publicOf) && !Mixes(ops[i])
    ensures PairsMatch(Run(s, ops), publicOf)
    decreases |ops|
  {
    hide Inv, Fresh, Step, Apply, PairsMatch, Genuine, Mixes;
    if ops != [] {
      StepKeepsInvariant(s, ops[0]);
      StepKeepsPairs(s, ops[0], publicOf);
      assert forall i | 0 <= i < |ops| - 1 :: ops[1..][i] == ops[i + 1];
      RunKeepsPairs(Step(s, ops[0]), ops[1..], publicOf);
    }
  }

  // ── The request that mixes ───────────────────────────────────────────────

  function MixingRequest(name: string, publicKey: string, id: Id, pair: KeyPair, now: Millis): Op {
    Op.CreatePeer(PeerInput(name, Some(publicKey), true, None, None, None, None, None, None), id, Some(pair), now)
  }

  lemma FirstPeerIsCreated(s: State, op: Op)
    requires ServerOk(s.server) && s.peers == [] && op.CreatePeer? && op.input.personId.None? && op.generated.Some?
    ensures Apply(s, op).Success? && Fresh(s, op)
  {
    hide Ipv4.ParseIpv4Cidr, Ipv4.BlockSize, Ipv4.PeerRange, Ipv4.Allocated, CreateEvents;
    assert LiveAddresses(s.peers) == [] && Ipv4.UsedAddresses([]) == Success({});
    Ipv4.AllocationMeaning(s.server.tunnelCidrV4, []);
    Ipv4.PeerRangeSize(s.server.tunnelCidrV4);
  }

  // On any block, in the initial state of the store, such a request for any
  // name and any two different keys succeeds and breaks the pairing. The state
  // after it satisfies the store's invariant like every other.
  lemma MixingHappens(server: ServerSettings, n: nat, prefix: nat, start: Millis,
                      name: string, publicKey: string, id: Id, pair: KeyPair, publicOf: string -> string)
    requires n < Bits.WORD && 1 <= prefix <= 30
    requires server.tunnelCidrV4 == Ipv4.NumberToIpv4(n) + "/" + NatToDigits(prefix)
    requires publicOf(pair.privateKey) == pair.publicKey != publicKey
    ensures InitialState(server, start).Success?
    ensures var s, op := InitialState(server, start).value, MixingRequest(name, publicKey, id, pair, start);
            && Inv(s) && PairsMatch(s, publicOf) && Fresh(s, op) && Genuine(op, publicOf)
            && Apply(s, op).Success? && Mixes(op)
            && Inv(Step(s, op)) && |Step(s, op).peers| == 1 && !PairsMatch(Step(s, op), publicOf)
  {
    hide Ipv4.ParseIpv4Cidr, Ipv4.NumberToIpv4, Ipv4.CidrOf, Apply, PeersOk, LinksOk, RevisionsOk;
    Ipv4.CidrRoundTrip(n, prefix);
    var s, op := InitialState(server, start).value, MixingRequest(name, publicKey, id, pair, start);
    InitialInvariant(server, start);
    FirstPeerIsCreated(s, op);
    CreateAppends(s, op);
    StepKeepsInvariant(s, op);
    StepKeepsPairs(s, op, publicOf);
  }
}
