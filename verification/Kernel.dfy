// The WireGuard interface as the apply path sees it: up or down, a port, a
// private key, peers with their keepalive, and a table in which each
// allowed-IP prefix belongs to the peer that claimed it last.
module Kernel {
  import opened Wrappers

  type Key = string
  type Prefix = string

  datatype Section = Section(publicKey: Key, allowedIp: Prefix, keepalive: nat)

  datatype Ini = Ini(privateKey: string, port: nat, sections: seq<Section>)

  datatype Link = Link(
    up: bool,
    port: nat,
    privateKey: string,
    keepalive: map<Key, nat>,
    owner: map<Prefix, Key>)

  const DOWN := Link(false, 0, "", map[], map[])

  ghost predicate Wired(link: Link) {
    && (!link.up ==> link == DOWN)
    && forall p | p in link.owner :: link.owner[p] in link.keepalive
  }

  function Owned(link: Link, key: Key): set<Prefix> {
    set p | p in link.owner && link.owner[p] == key
  }

  function Disowned(owner: map<Prefix, Key>, key: Key): map<Prefix, Key> {
    map p | p in owner && owner[p] != key :: owner[p]
  }

  // A [Peer] section replaces the peer's allowed IPs and keepalive; a prefix
  // held by another peer changes hands.
  function Upsert(link: Link, s: Section): Link {
    link.(keepalive := link.keepalive[s.publicKey := s.keepalive],
          owner := Disowned(link.owner, s.publicKey)[s.allowedIp := s.publicKey])
  }

  function Upserts(link: Link, sections: seq<Section>): Link {
    if sections == [] then link else Upsert(Upserts(link, sections[..|sections| - 1]), sections[|sections| - 1])
  }

  // `wg syncconf`: the listed peers are upserted, none is removed.
  function Synced(link: Link, ini: Ini): Link {
    Upserts(link.(port := ini.port, privateKey := ini.privateKey), ini.sections)
  }

  function Removed(link: Link, key: Key): Link {
    link.(keepalive := link.keepalive - {key}, owner := Disowned(link.owner, key))
  }

  // ── What the commands do ─────────────────────────────────────────────────

  // A row of `wg show dump`, as parsed by getRuntimeState.
  datatype RuntimePeer = RuntimePeer(publicKey: Key, allowedIps: seq<Prefix>, persistentKeepalive: Option<nat>)

  datatype RuntimeState = RuntimeState(up: bool, listenPort: Option<nat>, peers: seq<RuntimePeer>)

  const UNREADABLE := RuntimeState(false, None, [])

  // The allowed IPs of a peer come in any order; a peer without any shows the
  // text "(none)", and a keepalive of zero shows "off".
  ghost predicate RowOk(link: Link, row: RuntimePeer) {
    && row.publicKey in link.keepalive
    && (if Owned(link, row.publicKey) == {} then row.allowedIps == ["(none)"]
        else |row.allowedIps| == |Owned(link, row.publicKey)| &&
             forall p :: p in row.allowedIps <==> p in Owned(link, row.publicKey))
    && row.persistentKeepalive ==
       (if link.keepalive[row.publicKey] == 0 then None else Some(link.keepalive[row.publicKey]))
  }

  ghost function RowKeys(rows: seq<RuntimePeer>): set<Key> {
    set i | 0 <= i < |rows| :: rows[i].publicKey
  }

  ghost predicate Reports(link: Link, r: RuntimeState) {
    && r.up == link.up
    && (!link.up ==> r == UNREADABLE)
    && (link.up ==> r.listenPort == Some(link.port))
    && (forall i | 0 <= i < |r.peers| :: RowOk(link, r.peers[i]))
    && (forall i, j | 0 <= i < j < |r.peers| :: r.peers[i].publicKey != r.peers[j].publicKey)
    && RowKeys(r.peers) == link.keepalive.Keys
  }

  // The host. Every command may fail, and a failed one may have done part of
  // its work; `failed` records that some command did.
  class Host {
    var link: Link
    ghost var failed: bool

    constructor (initial: Link)
      requires Wired(initial)
      ensures link == initial && Wired(link) && !failed
    {
      link, failed := initial, false;
    }

    // ip link add <iface> type wireguard
    method LinkAdd() returns (ok: bool)
      requires Wired(link)
      modifies this
      ensures Wired(link) && (old(failed) ==> failed)
      ensures ok ==> !old(link.up) && link == DOWN.(up := true) && failed == old(failed)
      ensures !ok ==> link == old(link) && (failed || old(link.up))
    {
      var fault: bool := *;
      if link.up { return false; }
      if fault { failed := true; return false; }
      link := DOWN.(up := true);
      return true;
    }

    // ip link del <iface>
    method LinkDel() returns (ok: bool)
      requires Wired(link)
      modifies this
      ensures Wired(link) && (old(failed) ==> failed)
      ensures link == DOWN || link == old(link)
      ensures ok ==> link == DOWN && failed == old(failed)
      ensures !ok ==> failed || !old(link.up)
    {
      var fault: bool := *;
      if fault { failed := true; return false; }
      if !link.up { return false; }
      link := DOWN;
      return true;
    }

    // wg setconf with an [Interface] block only: the peers go.
    method SetConf(privateKey: string, port: nat) returns (ok: bool)
      requires Wired(link) && link.up
      modifies this
      ensures Wired(link) && link.up && (old(failed) ==> failed)
      ensures ok ==> link == DOWN.(up := true, port := port, privateKey := privateKey) && failed == old(failed)
      ensures !ok ==> failed && (link == old(link) || (link.keepalive == map[] && link.owner == map[]))
    {
      var fault, started: bool := *, *;
      if fault {
        failed := true;
        if started { link := DOWN.(up := true, port := port); }
        return false;
      }
      link := DOWN.(up := true, port := port, privateKey := privateKey);
      return true;
    }

    // Steps this view does not show: the temporary file, `ip addr replace`,
    // `ip link set ... up`.
    method Ancillary() returns (ok: bool)
      modifies this`failed
      ensures (old(failed) ==> failed) && (ok ==> failed == old(failed)) && (!ok ==> failed)
    {
      var fault: bool := *;
      if fault { failed := true; }
      return !fault;
    }

    // The interface row of `wg show <iface> dump`.
    method InterfaceRow() returns (row: Option<(nat, string)>)
      modifies this`failed
      ensures old(failed) ==> failed
      ensures row.Some? ==> link.up && row.value == (link.port, link.privateKey) && failed == old(failed)
      ensures row.None? ==> failed || !link.up
    {
      var fault: bool := *;
      if !link.up { return None; }
      if fault { failed := true; return None; }
      return Some((link.port, link.privateKey));
    }

    // wg syncconf: a failure leaves the interface settings and a prefix of the
    // peers applied, or nothing.
    method SyncConf(ini: Ini) returns (ok: bool)
      requires Wired(link)
      modifies this
      ensures Wired(link) && (old(failed) ==> failed)
      ensures ok ==> old(link.up) && link == Synced(old(link), ini) && failed == old(failed)
      ensures !ok ==> (failed || !old(link.up))
      ensures !ok ==> link == old(link) ||
                      (old(link.up) && exists n ::
                         0 <= n <= |ini.sections| && link == Synced(old(link), ini.(sections := ini.sections[..n])))
    {
      var fault, started: bool := *, *;
      if !link.up { return false; }
      if fault {
        failed := true;
        if started {
          var n :| 0 <= n <= |ini.sections|;
          UpsertsWired(link.(port := ini.port, privateKey := ini.privateKey), ini.sections[..n]);
          link := Synced(link, ini.(sections := ini.sections[..n]));
        }
        return false;
      }
      UpsertsWired(link.(port := ini.port, privateKey := ini.privateKey), ini.sections);
      link := Synced(link, ini);
      return true;
    }

    // wg set <iface> peer <key> remove
    method RemovePeer(key: Key) returns (ok: bool)
      requires Wired(link)
      modifies this
      ensures Wired(link) && (old(failed) ==> failed)
      ensures ok ==> old(link.up) && link == Removed(old(link), key) && failed == old(failed)
      ensures !ok ==> (failed || !old(link.up))
      ensures !ok ==> link == old(link) || (old(link.up) && link == Removed(old(link), key))
    {
      var fault, done: bool := *, *;
      if !link.up { return false; }
      if !fault || done { link := Removed(link, key); }
      if fault { failed := true; }
      return !fault;
    }

    method Row(key: Key) returns (row: RuntimePeer)
      requires key in link.keepalive
      ensures RowOk(link, row) && row.publicKey == key
    {
      var ips := Enumerate(Owned(link, key));
      row := RuntimePeer(key, if ips == [] then ["(none)"] else ips,
                         if link.keepalive[key] == 0 then None else Some(link.keepalive[key]));
    }

    // wg show <iface> dump, as getRuntimeState reads it: any error reads as an
    // absent interface.
    method Dump() returns (r: RuntimeState)
      requires Wired(link)
      modifies this`failed
      ensures old(failed) ==> failed
      ensures Reports(link, r) || (r == UNREADABLE && link.up && failed)
      ensures Reports(link, r) ==> failed == old(failed)
    {
      var fault: bool := *;
      if !link.up { return UNREADABLE; }
      if fault { failed := true; return UNREADABLE; }
      var rows: seq<RuntimePeer> := [];
      var keys := link.keepalive.Keys;
      while keys != {}
        invariant failed == old(failed) && keys <= link.keepalive.Keys
        invariant forall i | 0 <= i < |rows| :: RowOk(link, rows[i])
        invariant forall i, j | 0 <= i < j < |rows| :: rows[i].publicKey != rows[j].publicKey
        invariant RowKeys(rows) == link.keepalive.Keys - keys
        decreases keys
      {
        hide RowOk;
        var key :| key in keys;
        var row := Row(key);
        assert forall i | 0 <= i < |rows| :: rows[i].publicKey in RowKeys(rows);
        RowAppended(rows, row);
        rows := rows + [row];
        keys := keys - {key};
      }
      return RuntimeState(true, Some(link.port), rows);
    }
  }

  lemma RowAppended(rows: seq<RuntimePeer>, row: RuntimePeer)
    ensures RowKeys(rows + [row]) == RowKeys(rows) + {row.publicKey}
  {
    var all := rows + [row];
    assert forall i | 0 <= i < |rows| :: all[i] == rows[i];
    assert all[|rows|] == row;
  }

  method Enumerate(s: set<Prefix>) returns (r: seq<Prefix>)
    ensures |r| == |s| && forall p :: p in r <==> p in s
  {
    r := [];
    var rest := s;
    while rest != {}
      invariant rest <= s && |r| == |s| - |rest| && forall p :: p in r <==> p in s - rest
      decreases rest
    {
      var p :| p in rest;
      r := r + [p];
      rest := rest - {p};
    }
  }

  lemma {:induction false} UpsertsWired(link: Link, sections: seq<Section>)
    requires forall p | p in link.owner :: link.owner[p] in link.keepalive
    ensures var t := Upserts(link, sections);
            && (forall p | p in t.owner :: t.owner[p] in t.keepalive)
            && t.up == link.up && t.port == link.port && t.privateKey == link.privateKey
            && t.keepalive.Keys == link.keepalive.Keys + set s | s in sections :: s.publicKey
  {
    if sections != [] {
      UpsertsWired(link, sections[..|sections| - 1]);
      assert sections == sections[..|sections| - 1] + [sections[|sections| - 1]];
    }
  }
}
