// What an apply intends (packages/engine/src/apply.ts): the plan, the peer
// diff and the rendered configuration, against what the kernel reports.
module ApplyPlan {
  import opened Wrappers
  import opened Text
  import opened Records
  import opened Kernel
  import opened Order

  // ── JavaScript maps ──────────────────────────────────────────────────────

  // The keys of `new Map(list)`, in the order of first occurrence.
  function Distinct(keys: seq<Key>): (r: seq<Key>)
    ensures forall k :: k in r <==> k in keys
    ensures forall i, j | 0 <= i < j < |r| :: r[i] != r[j]
  {
    if keys == [] then []
    else
      var init, last := keys[..|keys| - 1], keys[|keys| - 1];
      assert forall k :: k in keys <==> k in init || k == last;
      Distinct(init) + (if last in init then [] else [last])
  }

  function PublicKeys(peers: seq<PeerRecord>): (r: seq<Key>)
    ensures |r| == |peers| && forall i | 0 <= i < |r| :: r[i] == peers[i].publicKey
  {
    seq(|peers|, i requires 0 <= i < |peers| => peers[i].publicKey)
  }

  function RowKeyList(rows: seq<RuntimePeer>): (r: seq<Key>)
    ensures |r| == |rows| && forall i | 0 <= i < |r| :: r[i] == rows[i].publicKey
  {
    seq(|rows|, i requires 0 <= i < |rows| => rows[i].publicKey)
  }

  // `new Map(peers.map(p => [p.publicKey, p]))`: the last entry of a key wins.
  function PeersByKey(peers: seq<PeerRecord>): (m: map<Key, PeerRecord>)
    ensures forall k :: k in m <==> k in PublicKeys(peers)
    ensures forall k | k in m :: m[k] in peers && m[k].publicKey == k
  {
    if peers == [] then map[]
    else
      var init, last := peers[..|peers| - 1], peers[|peers| - 1];
      assert peers == init + [last] && PublicKeys(peers) == PublicKeys(init) + [last.publicKey];
      PeersByKey(init)[last.publicKey := last]
  }

  function RowsByKey(rows: seq<RuntimePeer>): (m: map<Key, RuntimePeer>)
    ensures forall k :: k in m <==> k in RowKeyList(rows)
    ensures forall k | k in m :: m[k] in rows && m[k].publicKey == k
  {
    if rows == [] then map[]
    else
      var init, last := rows[..|rows| - 1], rows[|rows| - 1];
      assert rows == init + [last] && RowKeyList(rows) == RowKeyList(init) + [last.publicKey];
      RowsByKey(init)[last.publicKey := last]
  }

  function Select(keys: seq<Key>, p: Key -> bool): (r: seq<Key>)
    ensures forall k :: k in r <==> k in keys && p(k)
    ensures (forall i, j | 0 <= i < j < |keys| :: keys[i] != keys[j]) ==>
              forall i, j | 0 <= i < j < |r| :: r[i] != r[j]
  {
    if keys == [] then []
    else
      var init, last := keys[..|keys| - 1], keys[|keys| - 1];
      assert keys == init + [last];
      Select(init, p) + (if p(last) then [last] else [])
  }

  // ── peerConfigChanged ────────────────────────────────────────────────────

  function Insert(s: string, sorted: seq<string>): (r: seq<string>)
    ensures |r| == |sorted| + 1
  {
    if sorted == [] || LexLess(s, sorted[0]) then [s] + sorted else [sorted[0]] + Insert(s, sorted[1..])
  }

  // `[...list].sort()`
  function Sorted(list: seq<string>): (r: seq<string>)
    ensures |r| == |list| && (|list| == 1 ==> r == list)
  {
    if list == [] then [] else Insert(list[0], Sorted(list[1..]))
  }

  predicate PeerConfigChanged(intended: PeerRecord, row: RuntimePeer) {
    Join(Sorted(row.allowedIps), ',') != intended.addressV4 ||
    row.persistentKeepalive.GetOr(0) != intended.persistentKeepalive
  }

  lemma JoinedHasSeparator(parts: seq<string>, sep: char)
    requires |parts| >= 2
    ensures !Lacks(Join(parts, sep), sep)
  {
    assert Join(parts, sep)[|parts[0]|] == sep;
  }

  // For an address without commas the comparison of joined texts is the
  // comparison of the lists: the one allowed IP is the peer's own address.
  lemma ConfigChangedMeaning(intended: PeerRecord, row: RuntimePeer)
    requires intended.addressV4 != "" && Lacks(intended.addressV4, ',')
    ensures PeerConfigChanged(intended, row) <==>
            !(row.allowedIps == [intended.addressV4] &&
              row.persistentKeepalive.GetOr(0) == intended.persistentKeepalive)
  {
    if |row.allowedIps| >= 2 { JoinedHasSeparator(Sorted(row.allowedIps), ','); }
  }

  // ── planApply and diffPeers ──────────────────────────────────────────────

  datatype PeerDiff = PeerDiff(added: seq<Key>, removed: seq<Key>, modified: seq<Key>)

  datatype Plan = Plan(bootstrap: bool, reconfigureInterface: bool, addPeers: seq<Key>, removePeers: seq<Key>,
                       modifyPeers: seq<Key>)

  function IsAdded(current: map<Key, RuntimePeer>): Key -> bool { key => key !in current }

  function IsRemoved(intended: map<Key, PeerRecord>): Key -> bool { key => key !in intended }

  function IsModified(intended: map<Key, PeerRecord>, current: map<Key, RuntimePeer>): Key -> bool {
    key => key in intended && key in current && PeerConfigChanged(intended[key], current[key])
  }

  function Diff(intended: seq<PeerRecord>, current: seq<RuntimePeer>): PeerDiff {
    var byKey, rows := PeersByKey(intended), RowsByKey(current);
    PeerDiff(
      Select(Distinct(PublicKeys(intended)), IsAdded(rows)),
      Select(Distinct(RowKeyList(current)), IsRemoved(byKey)),
      Select(Distinct(PublicKeys(intended)), IsModified(byKey, rows)))
  }

  function PlanOf(server: ServerSettings, active: seq<PeerRecord>, runtime: RuntimeState): Plan {
    var diff := Diff(active, runtime.peers);
    Plan(!runtime.up, runtime.up && runtime.listenPort != Some(server.listenPort), diff.added, diff.removed,
      diff.modified)
  }

  lemma SelectOneMore(keys: seq<Key>, p: Key -> bool, i: nat)
    requires i < |keys|
    ensures Select(keys[..i + 1], p) == Select(keys[..i], p) + (if p(keys[i]) then [keys[i]] else [])
  {
    assert keys[..i + 1][..i] == keys[..i];
  }

  // The loops over the two maps.
  method DiffPeers(intended: seq<PeerRecord>, current: seq<RuntimePeer>) returns (diff: PeerDiff)
    ensures diff == Diff(intended, current)
  {
    hide Select, PeerConfigChanged, PeersByKey, RowsByKey, Distinct;
    var intendedByKey, currentByKey := PeersByKey(intended), RowsByKey(current);
    var intendedKeys, currentKeys := Distinct(PublicKeys(intended)), Distinct(RowKeyList(current));
    var add: seq<Key>, modified: seq<Key>, remove: seq<Key> := [], [], [];
    SelectNone(intendedKeys, IsAdded(currentByKey));
    SelectNone(intendedKeys, IsModified(intendedByKey, currentByKey));
    SelectNone(currentKeys, IsRemoved(intendedByKey));
    var i := 0;
    while i < |intendedKeys|
      invariant 0 <= i <= |intendedKeys|
      invariant add == Select(intendedKeys[..i], IsAdded(currentByKey))
      invariant modified == Select(intendedKeys[..i], IsModified(intendedByKey, currentByKey))
    {
      SelectOneMore(intendedKeys, IsAdded(currentByKey), i);
      SelectOneMore(intendedKeys, IsModified(intendedByKey, currentByKey), i);
      var key := intendedKeys[i];
      if key !in currentByKey {
        add := add + [key];
      } else if PeerConfigChanged(intendedByKey[key], currentByKey[key]) {
        modified := modified + [key];
      }
      i := i + 1;
    }
    assert intendedKeys[..i] == intendedKeys;
    i := 0;
    while i < |currentKeys|
      invariant 0 <= i <= |currentKeys|
      invariant remove == Select(currentKeys[..i], IsRemoved(intendedByKey))
    {
      SelectOneMore(currentKeys, IsRemoved(intendedByKey), i);
      if currentKeys[i] !in intendedByKey { remove := remove + [currentKeys[i]]; }
      i := i + 1;
    }
    assert currentKeys[..i] == currentKeys;
    diff := PeerDiff(add, remove, modified);
  }

  lemma SelectNone(keys: seq<Key>, p: Key -> bool)
    ensures Select(keys[..0], p) == []
  {
  }

  // planApply has its own copy of the two loops; the keys it collects are those
  // of the diff.
  method PlanApply(state: State, runtime: RuntimeState, now: Millis) returns (plan: Plan)
    ensures var diff := Diff(ActivePeers(state.peers, now), runtime.peers);
            plan.addPeers == diff.added && plan.removePeers == diff.removed && plan.modifyPeers == diff.modified
    ensures plan.bootstrap <==> !runtime.up
    ensures plan.reconfigureInterface <==> runtime.up && runtime.listenPort != Some(state.server.listenPort)
  {
    hide Select, PeerConfigChanged, PeersByKey, RowsByKey, Distinct, ActivePeers;
    var activePeers := ActivePeers(state.peers, now);
    var intendedByKey, currentByKey := PeersByKey(activePeers), RowsByKey(runtime.peers);
    var intendedKeys, currentKeys := Distinct(PublicKeys(activePeers)), Distinct(RowKeyList(runtime.peers));
    var addPeers: seq<Key>, removePeers: seq<Key>, modifyPeers: seq<Key> := [], [], [];
    SelectNone(intendedKeys, IsAdded(currentByKey));
    SelectNone(intendedKeys, IsModified(intendedByKey, currentByKey));
    SelectNone(currentKeys, IsRemoved(intendedByKey));
    for i := 0 to |intendedKeys|
      invariant addPeers == Select(intendedKeys[..i], IsAdded(currentByKey))
      invariant modifyPeers == Select(intendedKeys[..i], IsModified(intendedByKey, currentByKey))
    {
      SelectOneMore(intendedKeys, IsAdded(currentByKey), i);
      SelectOneMore(intendedKeys, IsModified(intendedByKey, currentByKey), i);
      var key := intendedKeys[i];
      if key !in currentByKey {
        addPeers := addPeers + [key];
      } else if PeerConfigChanged(intendedByKey[key], currentByKey[key]) {
        modifyPeers := modifyPeers + [key];
      }
    }
    for i := 0 to |currentKeys|
      invariant removePeers == Select(currentKeys[..i], IsRemoved(intendedByKey))
    {
      SelectOneMore(currentKeys, IsRemoved(intendedByKey), i);
      if currentKeys[i] !in intendedByKey { removePeers := removePeers + [currentKeys[i]]; }
    }
    assert intendedKeys[..|intendedKeys|] == intendedKeys && currentKeys[..|currentKeys|] == currentKeys;
    var bootstrap := !runtime.up;
    var port: int := if runtime.listenPort.Some? then runtime.listenPort.value else -1;
    plan := Plan(bootstrap, !bootstrap && runtime.up && port != state.server.listenPort, addPeers, removePeers,
      modifyPeers);
  }

  // ── What the diff says ───────────────────────────────────────────────────

  // What one side says about a peer on the wire.
  datatype Wire = Wire(allowedIps: string, keepalive: nat)

  function IntendedWire(intended: seq<PeerRecord>): (m: map<Key, Wire>)
  {
    var byKey := PeersByKey(intended);
    map k | k in byKey :: Wire(byKey[k].addressV4, byKey[k].persistentKeepalive)
  }

  function CurrentWire(current: seq<RuntimePeer>): (m: map<Key, Wire>)
  {
    var rows := RowsByKey(current);
    map k | k in rows :: Wire(Join(Sorted(rows[k].allowedIps), ','), rows[k].persistentKeepalive.GetOr(0))
  }

  ghost predicate Unchanged(intended: seq<PeerRecord>, current: seq<RuntimePeer>, key: Key) {
    && key in IntendedWire(intended) && key in CurrentWire(current)
    && IntendedWire(intended)[key] == CurrentWire(current)[key]
  }

  // Every key of either side falls in exactly one of the four classes, each
  // listed without repetition, for any two lists of peers.
  lemma DiffPartitions(intended: seq<PeerRecord>, current: seq<RuntimePeer>, key: Key)
    ensures var d := Diff(intended, current);
            && (key in d.added <==> key in IntendedWire(intended) && key !in CurrentWire(current))
            && (key in d.removed <==> key !in IntendedWire(intended) && key in CurrentWire(current))
            && (key in d.modified <==>
                 key in IntendedWire(intended) && key in CurrentWire(current) && !Unchanged(intended, current, key))
    ensures var d := Diff(intended, current);
            forall i, j | 0 <= i < j < |d.added| :: d.added[i] != d.added[j]
    ensures var d := Diff(intended, current);
            forall i, j | 0 <= i < j < |d.removed| :: d.removed[i] != d.removed[j]
    ensures var d := Diff(intended, current);
            forall i, j | 0 <= i < j < |d.modified| :: d.modified[i] != d.modified[j]
  {
    hide PeersByKey, RowsByKey, Select, Distinct;
  }

  lemma ModifiedMeaning(intended: seq<PeerRecord>, current: seq<RuntimePeer>, key: Key)
    ensures key in Diff(intended, current).modified <==>
            key in PeersByKey(intended) && key in RowsByKey(current) &&
            PeerConfigChanged(PeersByKey(intended)[key], RowsByKey(current)[key])
  {
    hide PeersByKey, RowsByKey, PeerConfigChanged, Distinct, Select;
  }

  // Applying the diff to what the kernel has gives what is intended.
  function Patched(intended: seq<PeerRecord>, current: seq<RuntimePeer>, diff: PeerDiff): map<Key, Wire>
    requires forall k | k in diff.added || k in diff.modified :: k in IntendedWire(intended)
  {
    var have, want := CurrentWire(current), IntendedWire(intended);
    map k | k in have.Keys + want.Keys && ((k in have && k !in diff.removed) || k in diff.added) ::
      if k in diff.added || k in diff.modified then want[k] else have[k]
  }

  lemma PatchGivesIntended(intended: seq<PeerRecord>, current: seq<RuntimePeer>)
    ensures var d := Diff(intended, current);
            && (forall k | k in d.added || k in d.modified :: k in IntendedWire(intended))
            && Patched(intended, current, d) == IntendedWire(intended)
  {
    hide Diff, IntendedWire, CurrentWire;
    forall k ensures var d := Diff(intended, current);
            && (k in d.added <==> k in IntendedWire(intended) && k !in CurrentWire(current))
            && (k in d.removed <==> k !in IntendedWire(intended) && k in CurrentWire(current))
            && (k in d.modified <==>
                 k in IntendedWire(intended) && k in CurrentWire(current) && !Unchanged(intended, current, k))
    {
      DiffPartitions(intended, current, k);
    }
  }

  // ── renderWgIni ──────────────────────────────────────────────────────────

  datatype Line =
    | Blank | InterfaceHeader | PrivateKeyLine(value: string) | ListenPortLine(port: nat)
    | PeerHeader | PublicKeyLine(key: Key) | AllowedIpsLine(prefix: Prefix) | KeepaliveLine(seconds: nat)

  function PeerLines(peer: PeerRecord): seq<Line> {
    [Blank, PeerHeader, PublicKeyLine(peer.publicKey), AllowedIpsLine(peer.addressV4)] +
    (if peer.persistentKeepalive > 0 then [KeepaliveLine(peer.persistentKeepalive)] else [])
  }

  function AllPeerLines(peers: seq<PeerRecord>): seq<Line> {
    if peers == [] then [] else AllPeerLines(peers[..|peers| - 1]) + PeerLines(peers[|peers| - 1])
  }

  function RenderedLines(server: ServerSettings, peers: seq<PeerRecord>): seq<Line> {
    [InterfaceHeader, PrivateKeyLine(server.serverPrivateKey), ListenPortLine(server.listenPort)] + AllPeerLines(peers)
  }

  method RenderWgIni(state: State, activeOnly: bool, now: Millis) returns (lines: seq<Line>)
    ensures lines == RenderedLines(state.server, if activeOnly then ActivePeers(state.peers, now) else state.peers)
  {
    var header :=
        [InterfaceHeader, PrivateKeyLine(state.server.serverPrivateKey), ListenPortLine(state.server.listenPort)];
    lines := header;
    var peers := if activeOnly then ActivePeers(state.peers, now) else state.peers;
    var i := 0;
    while i < |peers|
      invariant 0 <= i <= |peers| && lines == header + AllPeerLines(peers[..i])
    {
      assert peers[..i + 1][..i] == peers[..i];
      lines := lines + [Blank, PeerHeader, PublicKeyLine(peers[i].publicKey), AllowedIpsLine(peers[i].addressV4)];
      if peers[i].persistentKeepalive > 0 {
        lines := lines + [KeepaliveLine(peers[i].persistentKeepalive)];
      }
      assert lines == header + (AllPeerLines(peers[..i]) + PeerLines(peers[i]));
      i := i + 1;
    }
    assert peers[..i] == peers;
  }

  // How `wg` reads the file: a section without a keepalive has none.
  function ReadLine(ini: Ini, line: Line): Ini {
    match line
    case PrivateKeyLine(value) => ini.(privateKey := value)
    case ListenPortLine(port) => ini.(port := port)
    case PeerHeader => ini.(sections := ini.sections + [Section("", "", 0)])
    case PublicKeyLine(key) => LastSection(ini, (s: Section) => s.(publicKey := key))
    case AllowedIpsLine(prefix) => LastSection(ini, (s: Section) => s.(allowedIp := prefix))
    case KeepaliveLine(seconds) => LastSection(ini, (s: Section) => s.(keepalive := seconds))
    case _ => ini
  }

  function LastSection(ini: Ini, edit: Section -> Section): Ini {
    if ini.sections == [] then ini
    else ini.(sections := ini.sections[|ini.sections| - 1 := edit(ini.sections[|ini.sections| - 1])])
  }

  function ReadLines(lines: seq<Line>): Ini {
    if lines == [] then Ini("", 0, []) else ReadLine(ReadLines(lines[..|lines| - 1]), lines[|lines| - 1])
  }

  function SectionOf(peer: PeerRecord): Section {
    Section(peer.publicKey, peer.addressV4, peer.persistentKeepalive)
  }

  function Sections(peers: seq<PeerRecord>): (r: seq<Section>)
    ensures |r| == |peers| && forall i | 0 <= i < |r| :: r[i] == SectionOf(peers[i])
  {
    seq(|peers|, i requires 0 <= i < |peers| => SectionOf(peers[i]))
  }

  function IntendedIni(server: ServerSettings, peers: seq<PeerRecord>): Ini {
    Ini(server.serverPrivateKey, server.listenPort, Sections(peers))
  }

  lemma ReadMore(lines: seq<Line>, line: Line)
    ensures ReadLines(lines + [line]) == ReadLine(ReadLines(lines), line)
  {
    assert (lines + [line])[..|lines|] == lines;
  }

  lemma ReadPeer(lines: seq<Line>, peer: PeerRecord)
    ensures ReadLines(lines + PeerLines(peer)) ==
            ReadLines(lines).(sections := ReadLines(lines).sections + [SectionOf(peer)])
  {
    hide ReadLines;
    var l1 := lines + [Blank];
    var l2 := l1 + [PeerHeader];
    var l3 := l2 + [PublicKeyLine(peer.publicKey)];
    var l4 := l3 + [AllowedIpsLine(peer.addressV4)];
    ReadMore(lines, Blank);
    ReadMore(l1, PeerHeader);
    ReadMore(l2, PublicKeyLine(peer.publicKey));
    ReadMore(l3, AllowedIpsLine(peer.addressV4));
    if peer.persistentKeepalive > 0 {
      ReadMore(l4, KeepaliveLine(peer.persistentKeepalive));
      assert lines + PeerLines(peer) == l4 + [KeepaliveLine(peer.persistentKeepalive)];
    } else {
      assert lines + PeerLines(peer) == l4;
    }
  }

  // Reading the rendered file back gives exactly the server and its peers.
  lemma {:induction false} RenderRoundTrip(server: ServerSettings, peers: seq<PeerRecord>)
    ensures ReadLines(RenderedLines(server, peers)) == IntendedIni(server, peers)
  {
    var header := [InterfaceHeader, PrivateKeyLine(server.serverPrivateKey), ListenPortLine(server.listenPort)];
    if peers == [] {
      ReadMore([], header[0]);
      ReadMore([header[0]], header[1]);
      ReadMore([header[0], header[1]], header[2]);
      assert [] + [header[0]] == [header[0]] && [header[0]] + [header[1]] == [header[0], header[1]];
      assert [header[0], header[1]] + [header[2]] == header == RenderedLines(server, peers);
    } else {
      var init, last := peers[..|peers| - 1], peers[|peers| - 1];
      RenderRoundTrip(server, init);
      ReadPeer(RenderedLines(server, init), last);
      assert RenderedLines(server, peers) == RenderedLines(server, init) + PeerLines(last);
      assert Sections(peers) == Sections(init) + [SectionOf(last)];
    }
  }
}
