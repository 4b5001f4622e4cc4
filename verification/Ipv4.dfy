// Tunnel address arithmetic and first-fit peer address allocation
// (packages/engine/src/ip.ts). The notation is that of RFC 4632, section 3.1.
module Ipv4 {
  import opened Wrappers
  import opened Text
  import opened Bits

  datatype AddressError = InvalidAddress | InvalidCidr | NoFreeAddress

  datatype Ipv4Cidr = Ipv4Cidr(network: nat, prefix: nat, mask: nat, firstHost: nat, lastHost: nat)

  predicate IsOctet(part: string) {
    part != "" && AllDigits(part) && DigitsToNat(part) <= 255
  }

  // The `reduce` of `ipv4ToNumber`: one shift-and-or step per dotted part.
  function ReduceParts(parts: seq<string>, acc: nat): Result<nat, AddressError> {
    if parts == [] then Success(acc)
    else if !IsOctet(parts[0]) then Failure(InvalidAddress)
    else ReduceParts(parts[1..], Or(ShiftLeft(acc, 8), DigitsToNat(parts[0])))
  }

  function Ipv4ToNumber(address: string): Result<nat, AddressError> {
    var parts := Split(address, '.');
    if |parts| != 4 then Failure(InvalidAddress) else ReduceParts(parts, 0)
  }

  function Octet(value: nat, shift: nat): nat { And(ShiftRight(value, shift), 255) }

  function Octets(n: nat): seq<string> {
    [NatToDigits(Octet(n, 24)), NatToDigits(Octet(n, 16)), NatToDigits(Octet(n, 8)), NatToDigits(Octet(n, 0))]
  }

  function NumberToIpv4(value: nat): string {
    Join(Octets(value), '.')
  }

  // The base-256 value of the parts, most significant first.
  function Base256(parts: seq<string>, acc: nat): nat
    requires forall i | 0 <= i < |parts| :: AllDigits(parts[i])
  {
    if parts == [] then acc else Base256(parts[1..], acc * 256 + DigitsToNat(parts[0]))
  }

  // Values that leave room for `parts` further octets in 32 bits.
  predicate Fits(acc: nat, parts: nat) {
    match parts
    case 0 => acc < WORD
    case 1 => acc < 0x100_0000
    case 2 => acc < 0x1_0000
    case 3 => acc < 0x100
    case _ => acc < 1
  }

  ghost predicate AllOctets(parts: seq<string>) { forall i | 0 <= i < |parts| :: IsOctet(parts[i]) }

  lemma OctetStep(acc: nat, octet: nat)
    requires acc < 0x100_0000 && octet < 256
    ensures Or(ShiftLeft(acc, 8), octet) == acc * 256 + octet
  {
    Pow2Values();
    RemainderUnique(acc * 256, WORD, 0, acc * 256);
    OrAligned(acc * 256, octet, 8, 256);
  }

  lemma OctetValueOf(part: string)
    requires IsOctet(part)
    ensures AllDigits(part) && DigitsToNat(part) < 256
  {
  }

  lemma {:induction false} ReduceMeaning(parts: seq<string>, acc: nat)
    requires |parts| <= 4 && Fits(acc, |parts|)
    ensures AllOctets(parts) ==>
              ReduceParts(parts, acc) == Success(Base256(parts, acc)) && Base256(parts, acc) < WORD
    ensures !AllOctets(parts) ==> ReduceParts(parts, acc) == Failure(InvalidAddress)
  {
    hide Or, ShiftLeft, DigitsToNat, IsOctet;
    if parts != [] && IsOctet(parts[0]) {
      OctetValueOf(parts[0]);
      var octet := DigitsToNat(parts[0]);
      OctetStep(acc, octet);
      ReduceMeaning(parts[1..], acc * 256 + octet);
      assert AllOctets(parts) <==> AllOctets(parts[1..]) by { assert parts == [parts[0]] + parts[1..]; }
    }
  }

  // Exactly the strings of four decimal octets are addresses, and an address
  // means its base-256 value: no step of the reduction wraps.
  lemma Ipv4ToNumberMeaning(address: string)
    ensures var parts := Split(address, '.');
            if |parts| == 4 && AllOctets(parts) then
              Ipv4ToNumber(address) == Success(Base256(parts, 0)) && Base256(parts, 0) < WORD
            else Ipv4ToNumber(address) == Failure(InvalidAddress)
  {
    var parts := Split(address, '.');
    if |parts| == 4 { ReduceMeaning(parts, 0); }
  }

  lemma OctetValue(n: nat, shift: nat, size: nat)
    requires shift < 32 && size == Pow2(shift)
    ensures Octet(n, shift) == (n / size) % 256
  {
    hide Pow2, And;
    assert shift % 32 == shift;
    Pow2Values();
    AndLow(Quotient(n, size), 8);
  }

  lemma HornerDigits(n: nat, a: nat, b: nat, c: nat, d: nat)
    requires n < WORD
    requires a == n / 0x100_0000 % 256 && b == n / 0x1_0000 % 256 && c == n / 0x100 % 256 && d == n % 256
    ensures ((a * 256 + b) * 256 + c) * 256 + d == n
  {
    var q3 := n / 256;
    var q2 := q3 / 256;
    assert q2 == n / 0x1_0000;
    assert q2 / 256 == n / 0x100_0000;
  }

  lemma FourParts(p: seq<string>)
    requires |p| == 4 && AllOctets(p)
    ensures Base256(p, 0) == ((DigitsToNat(p[0]) * 256 + DigitsToNat(p[1])) * 256 + DigitsToNat(p[2])) * 256 +
            DigitsToNat(p[3])
  {
    var p1, p2, p3 := p[1..], p[2..], p[3..];
    var a, b, c, d := DigitsToNat(p[0]), DigitsToNat(p[1]), DigitsToNat(p[2]), DigitsToNat(p[3]);
    assert p1[1..] == p2 && p2[1..] == p3 && p3[1..] == [];
    var ab: nat := a * 256 + b;
    assert Base256(p, 0) == Base256(p1, a);
    assert Base256(p1, a) == Base256(p2, ab);
    var abc: nat := ab * 256 + c;
    assert Base256(p2, ab) == Base256(p3, abc);
    assert Base256(p3, abc) == Base256([], abc * 256 + d);
  }

  lemma OctetValues(n: nat)
    ensures Octet(n, 24) == n / 0x100_0000 % 256 && Octet(n, 16) == n / 0x1_0000 % 256
    ensures Octet(n, 8) == n / 0x100 % 256 && Octet(n, 0) == n % 256
  {
    hide Pow2;
    Pow2Values();
    OctetValue(n, 24, 0x100_0000); OctetValue(n, 16, 0x1_0000); OctetValue(n, 8, 0x100); OctetValue(n, 0, 1);
  }

  lemma OctetsRoundTrip(n: nat)
    requires n < WORD
    ensures AllOctets(Octets(n)) && Base256(Octets(n), 0) == n
  {
    var a, b, c, d := Octet(n, 24), Octet(n, 16), Octet(n, 8), Octet(n, 0);
    OctetValues(n);
    DigitsRoundTrip(a); DigitsRoundTrip(b); DigitsRoundTrip(c); DigitsRoundTrip(d);
    var p := [NatToDigits(a), NatToDigits(b), NatToDigits(c), NatToDigits(d)];
    FourParts(p);
    HornerDigits(n, a, b, c, d);
  }

  // Printing a 32-bit number and reading it back gives the number.
  lemma NumberRoundTrip(n: nat)
    requires n < WORD
    ensures Ipv4ToNumber(NumberToIpv4(n)) == Success(n)
  {
    var parts := Octets(n);
    forall i | 0 <= i < 4 ensures Lacks(parts[i], '.') { DigitsLack(parts[i], '.'); }
    SplitJoin(parts, '.');
    OctetsRoundTrip(n);
    Ipv4ToNumberMeaning(NumberToIpv4(n));
  }

  // ── CIDR blocks ──────────────────────────────────────────────────────────

  function ParseIpv4Cidr(cidr: string): Result<Ipv4Cidr, AddressError> {
    var parts := Split(cidr, '/');
    var prefix := ParseInt(if |parts| > 1 then parts[1] else "");
    if parts[0] == "" || prefix.None? || prefix.value < 1 || prefix.value > 30 then Failure(InvalidCidr)
    else
      match Ipv4ToNumber(parts[0])
      case Failure(e) => Failure(e)
      case Success(raw) => Success(CidrOf(raw, prefix.value))
  }

  function CidrOf(raw: nat, prefix: nat): Ipv4Cidr
    requires 1 <= prefix <= 30
  {
    var mask := ShiftLeft(WORD - 1, 32 - prefix);
    var network := And(raw, mask);
    var broadcast := Or(network, Not(mask));
    Ipv4Cidr(network, prefix, mask, (network + 1) % WORD, (broadcast + WORD - 1) % WORD)
  }

  // The number of addresses in a block.
  function BlockSize(prefix: nat): nat
    requires prefix <= 32
  {
    Pow2(32 - prefix)
  }

  ghost predicate IsBlock(c: Ipv4Cidr) {
    && 1 <= c.prefix <= 30
    && var size := BlockSize(c.prefix);
    && size >= 4
    && c.mask == WORD - size
    && c.network % size == 0
    && c.network + size <= WORD
    && c.firstHost == c.network + 1
    && c.lastHost == c.network + size - 2
  }

  lemma PowerBounds(k: nat)
    requires 2 <= k <= 31
    ensures 4 <= Pow2(k) && 2 * Pow2(k) <= WORD
  {
    Pow2Values();
    Pow2Add(k - 2, 2);
    Pow2Add(31 - k, k);
    Pow2Add(1, 31);
    Scale(Pow2(k - 2), 4);
    Scale(Pow2(31 - k), Pow2(k));
  }

  lemma Scale(a: nat, b: nat)
    requires a >= 1
    ensures a * b >= b
  {
  }

  lemma MaskValue(k: nat)
    requires 2 <= k <= 31
    ensures ShiftLeft(WORD - 1, k) == WORD - Pow2(k)
  {
    hide Pow2;
    PowerBounds(k);
    var p: nat := Pow2(k);
    assert (WORD - 1) * p == WORD * (p - 1) + (WORD - p);
    RemainderUnique((WORD - 1) * p, WORD, p - 1, WORD - p);
  }

  lemma MultiplesFit(a: nat, blocks: nat, size: nat)
    requires a * size < blocks * size
    ensures a * size + size <= blocks * size
  {
    assert a < blocks;
    Scale(blocks - a, size);
    assert (blocks - a) * size == blocks * size - a * size;
  }

  lemma RoundDown(x: nat, d: nat)
    requires d > 0
    ensures x - x % d == (x / d) * d
  {
  }

  lemma AlignedBlockFits(raw: nat, size: nat, blocks: nat)
    requires size > 0 && blocks * size == WORD && raw < WORD
    ensures raw - raw % size + size <= WORD
  {
    RoundDown(raw, size);
    MultiplesFit(raw / size, blocks, size);
  }

  lemma BlockFits(raw: nat, k: nat)
    requires k <= 32 && raw < WORD
    ensures raw - raw % Pow2(k) + Pow2(k) <= WORD
  {
    Pow2Values();
    Pow2Add(32 - k, k);
    AlignedBlockFits(raw, Pow2(k), Pow2(32 - k));
  }

  // The mask arithmetic computes the block that contains the address: the
  // network is the address rounded down to the block size, the host range
  // excludes network and broadcast, and nothing wraps around 2^32.
  lemma CidrMeaning(raw: nat, prefix: nat)
    requires raw < WORD && 1 <= prefix <= 30
    ensures IsBlock(CidrOf(raw, prefix)) && CidrOf(raw, prefix).prefix == prefix
    ensures CidrOf(raw, prefix).network == raw - raw % BlockSize(prefix)
  {
    hide Pow2, And, Or, ShiftLeft;
    var k := 32 - prefix;
    var size := Pow2(k);
    MaskValue(k);
    PowerBounds(k);
    BlockFits(raw, k);
    NetworkValue(raw, k);
    BroadcastValue(raw, k, size);
    HostBounds(raw - raw % size, size);
  }

  lemma HostBounds(network: nat, size: nat)
    requires size >= 4 && network + size <= WORD
    ensures (network + 1) % WORD == network + 1
    ensures (network + size - 1 + WORD - 1) % WORD == network + size - 2
  {
    RemainderUnique(network + 1, WORD, 0, network + 1);
    RemainderUnique(network + size - 1 + WORD - 1, WORD, 1, network + size - 2);
  }

  lemma Aligned(raw: nat, size: nat)
    requires size > 0
    ensures raw - raw % size == (raw / size) * size && (raw - raw % size) % size == 0
  {
    RoundDown(raw, size);
    RemainderUnique((raw / size) * size, size, raw / size, 0);
  }

  lemma BroadcastValue(raw: nat, k: nat, size: nat)
    requires size == Pow2(k)
    ensures raw >= raw % size && (raw - raw % size) % size == 0
    ensures Or(raw - raw % size, size - 1) == raw - raw % size + size - 1
  {
    hide *;
    Aligned(raw, size);
    OrAligned(raw - raw % size, size - 1, k, size);
  }

  lemma NetworkValue(raw: nat, k: nat)
    requires raw < WORD && k <= 32
    ensures Pow2(k) <= WORD && And(raw, WORD - Pow2(k)) == raw - raw % Pow2(k)
  {
    Pow2Values();
    AndHigh(raw, k, 32);
  }

  lemma ParsedCidrIsBlock(cidr: string)
    ensures ParseIpv4Cidr(cidr).Success? ==> IsBlock(ParseIpv4Cidr(cidr).value)
  {
    if ParseIpv4Cidr(cidr).Success? {
      var parts := Split(cidr, '/');
      Ipv4ToNumberMeaning(parts[0]);
      CidrMeaning(Ipv4ToNumber(parts[0]).value, ParseInt(if |parts| > 1 then parts[1] else "").value);
    }
  }

  // ── Allocation ───────────────────────────────────────────────────────────

  // `entry.split("/")[0]` of every entry, as numbers; the first bad one throws.
  function UsedAddresses(existing: seq<string>): Result<set<nat>, AddressError> {
    if existing == [] then Success({})
    else
      match Ipv4ToNumber(Split(existing[0], '/')[0])
      case Failure(e) => Failure(e)
      case Success(n) =>
        match UsedAddresses(existing[1..])
        case Failure(e) => Failure(e)
        case Success(rest) => Success({n} + rest)
  }

  ghost function Range(lo: int, hi: int): (r: set<int>)
    ensures forall n :: n in r <==> lo <= n <= hi
    decreases hi + 1 - lo
  {
    if lo > hi then {} else {lo} + Range(lo + 1, hi)
  }

  function PeerText(n: nat): string { NumberToIpv4(n) + "/32" }

  ghost predicate LowestFree(used: set<nat>, lo: nat, hi: nat, n: nat) {
    lo <= n <= hi && n !in used && forall m | lo <= m < n :: m in used
  }

  function FirstFree(used: set<nat>, lo: nat, hi: nat): (r: Option<nat>)
    ensures r.Some? ==> LowestFree(used, lo, hi, r.value)
    ensures r.None? ==> forall m | lo <= m <= hi :: m in used
    decreases hi + 1 - lo
  {
    if lo > hi then None else if lo !in used then Some(lo) else FirstFree(used, lo + 1, hi)
  }

  function Allocated(cidr: string, existing: seq<string>): Result<string, AddressError> {
    match ParseIpv4Cidr(cidr)
    case Failure(e) => Failure(e)
    case Success(c) =>
      match UsedAddresses(existing)
      case Failure(e) => Failure(e)
      case Success(used) =>
        match FirstFree(used, c.firstHost + 1, c.lastHost)
        case None => Failure(NoFreeAddress)
        case Some(n) => Success(PeerText(n))
  }

  // The counting loop over candidate addresses.
  method FindFree(used: set<nat>, firstPeer: nat, lastHost: nat) returns (r: Option<nat>)
    ensures r == FirstFree(used, firstPeer, lastHost)
  {
    var candidate := firstPeer;
    while candidate <= lastHost
      invariant FirstFree(used, candidate, lastHost) == FirstFree(used, firstPeer, lastHost)
    {
      if candidate !in used { return Some(candidate); }
      candidate := candidate + 1;
    }
    return None;
  }

  method AllocatePeerAddress(cidr: string, existing: seq<string>) returns (r: Result<string, AddressError>)
    ensures r == Allocated(cidr, existing)
  {
    hide ParseIpv4Cidr, UsedAddresses, FirstFree, PeerText;
    var parsed := ParseIpv4Cidr(cidr);
    if parsed.Failure? { return Failure(parsed.error); }
    var used := UsedAddresses(existing);
    if used.Failure? { return Failure(used.error); }
    var free := FindFree(used.value, parsed.value.firstHost + 1, parsed.value.lastHost);
    return if free.Some? then Success(PeerText(free.value)) else Failure(NoFreeAddress);
  }

  lemma {:induction false} RangeSize(lo: int, hi: int)
    requires lo <= hi + 1
    ensures |Range(lo, hi)| == hi + 1 - lo
    decreases hi + 1 - lo
  {
    if lo <= hi {
      RangeSize(lo + 1, hi);
      assert Range(lo, hi) == {lo} + Range(lo + 1, hi);
    } else {
      assert Range(lo, hi) == {};
    }
  }

  lemma SubsetSize<T>(a: set<T>, b: set<T>)
    requires a <= b
    ensures |a| <= |b| && (|a| == |b| ==> a == b)
  {
    assert |b - a| == |b| - |a|;
    assert b == a + (b - a);
  }

  // The host addresses a peer can get: network and broadcast are excluded, and
  // so is the first host, which is the server's.
  ghost function PeerRange(c: Ipv4Cidr): set<int> { Range(c.firstHost + 1, c.lastHost) }

  lemma PeerRangeSize(cidr: string)
    requires ParseIpv4Cidr(cidr).Success?
    ensures var c := ParseIpv4Cidr(cidr).value; IsBlock(c) && |PeerRange(c)| == BlockSize(c.prefix) - 3
  {
    hide CidrOf, BlockSize;
    ParsedCidrIsBlock(cidr);
    RangeSize(ParseIpv4Cidr(cidr).value.firstHost + 1, ParseIpv4Cidr(cidr).value.lastHost);
  }

  // On a valid block with readable entries the allocator returns the lowest
  // unused peer address, and it fails exactly when the entries already use
  // every one of the 2^(32-p) - 3.
  lemma AllocationMeaning(cidr: string, existing: seq<string>)
    requires ParseIpv4Cidr(cidr).Success? && UsedAddresses(existing).Success?
    ensures var c, used := ParseIpv4Cidr(cidr).value, UsedAddresses(existing).value;
            && (Allocated(cidr, existing).Success? <==> |used * PeerRange(c)| < |PeerRange(c)|)
            && (Allocated(cidr, existing).Success? ==>
                 exists n :: LowestFree(used, c.firstHost + 1, c.lastHost, n) &&
                   Allocated(cidr, existing) == Success(PeerText(n)))
            && (Allocated(cidr, existing).Failure? ==> Allocated(cidr, existing).error == NoFreeAddress)
  {
    hide CidrOf, UsedAddresses, BlockSize;
    ParsedCidrIsBlock(cidr);
    var c, used := ParseIpv4Cidr(cidr).value, UsedAddresses(existing).value;
    FirstFreeCount(used, c.firstHost + 1, c.lastHost);
  }

  // The number behind a successful allocation.
  lemma AllocatedNumber(cidr: string, existing: seq<string>) returns (n: nat)
    requires Allocated(cidr, existing).Success?
    ensures ParseIpv4Cidr(cidr).Success? && UsedAddresses(existing).Success?
    ensures n in PeerRange(ParseIpv4Cidr(cidr).value) && n !in UsedAddresses(existing).value
    ensures Allocated(cidr, existing) == Success(PeerText(n))
  {
    hide ParseIpv4Cidr, UsedAddresses, PeerText;
    var c := ParseIpv4Cidr(cidr).value;
    n := FirstFree(UsedAddresses(existing).value, c.firstHost + 1, c.lastHost).value;
  }

  // The text of an allocated address, as the next allocation reads it back.
  lemma PeerTextRoundTrip(n: nat)
    requires n < WORD
    ensures Split(PeerText(n), '/') == [NumberToIpv4(n), "32"]
    ensures Ipv4ToNumber(Split(PeerText(n), '/')[0]) == Success(n)
  {
    hide NumberToIpv4, Split, Ipv4ToNumber;
    assert PeerText(n) == NumberToIpv4(n) + ['/'] + "32";
    CidrTextParts(n, "32");
    NumberRoundTrip(n);
  }

  lemma CidrTextParts(n: nat, suffix: string)
    requires n < WORD && Lacks(suffix, '/')
    ensures Split(NumberToIpv4(n) + ['/'] + suffix, '/') == [NumberToIpv4(n), suffix]
  {
    forall i | 0 <= i < 4 ensures Lacks(Octets(n)[i], '/') { DigitsLack(Octets(n)[i], '/'); }
    JoinLacks(Octets(n), '.', '/');
    SplitFirst(NumberToIpv4(n), suffix, '/');
    SplitLacking(suffix, '/');
  }

  // Printed block notation parses to the block of that address and length.
  lemma CidrRoundTrip(n: nat, prefix: nat)
    requires n < WORD && 1 <= prefix <= 30
    ensures ParseIpv4Cidr(NumberToIpv4(n) + "/" + NatToDigits(prefix)) == Success(CidrOf(n, prefix))
  {
    hide CidrOf, Octets;
    DigitsLack(NatToDigits(prefix), '/');
    CidrTextParts(n, NatToDigits(prefix));
    DigitsRoundTrip(prefix);
    ParseIntOfDigits(NatToDigits(prefix));
    NumberRoundTrip(n);
    Ipv4ToNumberMeaning("");
    assert Split("", '.') == [""];
  }

  lemma PeerTextLacks(n: nat)
    ensures PeerText(n) != "" && Lacks(PeerText(n), ',')
  {
    forall i | 0 <= i < 4 ensures Lacks(Octets(n)[i], ',') { DigitsLack(Octets(n)[i], ','); }
    JoinLacks(Octets(n), '.', ',');
  }

  lemma PeerTextInjective(n: nat, m: nat)
    requires n < WORD && m < WORD && PeerText(n) == PeerText(m)
    ensures n == m
  {
    PeerTextRoundTrip(n);
    PeerTextRoundTrip(m);
  }

  lemma FirstFreeCount(used: set<nat>, lo: nat, hi: nat)
    requires lo <= hi + 1
    ensures FirstFree(used, lo, hi).Some? <==> |used * Range(lo, hi)| < |Range(lo, hi)|
  {
    var taken: set<int> := used * Range(lo, hi);
    match FirstFree(used, lo, hi)
    case None =>
      assert taken == Range(lo, hi);
    case Some(n) =>
      assert n in Range(lo, hi) && n !in taken;
      if |taken| >= |Range(lo, hi)| {
        SubsetSize(taken, Range(lo, hi));
      } else {
      }
  }
}
