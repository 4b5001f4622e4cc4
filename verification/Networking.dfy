// The NAT and forwarding policy (packages/engine/src/networking.ts): four
// rules ensured one by one, with deletion of what was ensured when one fails.
module Networking {
  import opened Wrappers
  import opened Records
  import opened HostAudit
  import opened RuleTable
  import Store = StateStore

  const FWD_ESTAB_RELATED := "kintunnel:fwd:allow-estab-related"
  const FWD_TUNNEL_NEW := "kintunnel:fwd:allow-tunnel-new"
  const FWD_DROP_INVALID := "kintunnel:fwd:drop-invalid"
  const NAT_MASQUERADE := "kintunnel:nat:masquerade"
  const FORWARD_PREFIX := "kintunnel:fwd:"

  datatype NetworkingConfig = NetworkingConfig(
    natEnabled: bool,
    natApply: bool,
    dryRun: bool,
    wgEgressInterface: Option<string>,
    interfaceName: string,
    tunnelCidrV4: string)

  datatype NetworkingError =
    | IptablesUnavailable | EgressUnresolvable | ForwardingWriteFailed
    | RuleInsertFailed(marker: string)

  datatype NetworkingResult = NetworkingResult(
    ok: bool,
    applied: bool,
    skipped: bool,
    rulesInserted: seq<string>,
    rulesRolledBack: seq<string>,
    forwardingEnabled: bool,
    error: Option<NetworkingError>)

  // buildRuleSpecs, in the order of insertion; a rule's comment is its marker.
  function Specs(config: NetworkingConfig, egress: string): (r: seq<Rule>)
    ensures |r| == 4
  {
    [ Rule(Forward, ["-m", "conntrack", "--ctstate", "ESTABLISHED,RELATED"], FWD_ESTAB_RELATED, "ACCEPT"),
      Rule(Forward, ["-i", config.interfaceName, "-m", "conntrack", "--ctstate", "NEW"], FWD_TUNNEL_NEW, "ACCEPT"),
      Rule(Forward, ["-m", "conntrack", "--ctstate", "INVALID"], FWD_DROP_INVALID, "DROP"),
      Rule(Postrouting, ["-t", "nat", "-s", config.tunnelCidrV4, "-o", egress], NAT_MASQUERADE, "MASQUERADE") ]
  }

  function Markers(specs: seq<Rule>): (r: seq<string>)
    ensures |r| == |specs| && forall i | 0 <= i < |r| :: r[i] == specs[i].comment
  {
    seq(|specs|, i requires 0 <= i < |specs| => specs[i].comment)
  }

  lemma MarkersDiffer(config: NetworkingConfig, egress: string)
    ensures var s := Specs(config, egress); forall i, j | 0 <= i < j < 4 :: s[i].comment != s[j].comment
    ensures Unique(Specs(config, egress))
  {
    assert |FWD_ESTAB_RELATED| == 33 && |FWD_TUNNEL_NEW| == 30 && |FWD_DROP_INVALID| == 26 && |NAT_MASQUERADE| == 24;
  }

  // `specs.filter((spec) => markers.has(spec.marker))`
  function Marked(specs: seq<Rule>, markers: seq<string>): seq<Rule> {
    if specs == [] then []
    else Marked(specs[..|specs| - 1], markers) +
         (if specs[|specs| - 1].comment in markers then [specs[|specs| - 1]] else [])
  }

  lemma {:induction false} MarkedPrefix(specs: seq<Rule>, i: nat, n: nat)
    requires i <= n <= |specs| && forall a, b | 0 <= a < b < |specs| :: specs[a].comment != specs[b].comment
    ensures Marked(specs[..n], Markers(specs[..i])) == specs[..i]
    decreases n
  {
    if n > 0 {
      assert specs[..n][..n - 1] == specs[..n - 1];
      if i < n {
        MarkedPrefix(specs, i, n - 1);
        assert forall a | 0 <= a < i :: Markers(specs[..i])[a] == specs[a].comment;
      } else {
        OwnMarked(specs[..n]);
      }
    }
  }

  lemma OwnMarked(specs: seq<Rule>)
    ensures Marked(specs, Markers(specs)) == specs
  {
    hide Marked;
    forall a | 0 <= a < |specs| ensures specs[a].comment in Markers(specs) {
      assert Markers(specs)[a] == specs[a].comment;
    }
    AllMarked(specs, Markers(specs));
  }

  lemma {:induction false} AllMarked(specs: seq<Rule>, markers: seq<string>)
    ensures (forall a | 0 <= a < |specs| :: specs[a].comment in markers) ==> Marked(specs, markers) == specs
  {
    if specs != [] { AllMarked(specs[..|specs| - 1], markers); }
  }

  // Rollback deletes exactly the rules ensured so far, whatever egress it
  // resolves: only the last rule names one.
  lemma RollbackSpecs(config: NetworkingConfig, egress: string, later: string, i: nat)
    requires i < 4
    ensures Marked(Specs(config, later), Markers(Specs(config, egress)[..i])) == Specs(config, egress)[..i]
  {
    hide Marked, Specs, Markers;
    MarkersDiffer(config, later);
    FirstThree(config, egress, later, i);
    MarkedPrefix(Specs(config, later), i, 4);
    assert Specs(config, later)[..4] == Specs(config, later);
  }

  lemma FirstThree(config: NetworkingConfig, egress: string, later: string, i: nat)
    requires i < 4
    ensures Specs(config, egress)[..i] == Specs(config, later)[..i]
  {
  }

  // ── The host ─────────────────────────────────────────────────────────────

  class Router {
    var rules: seq<Rule>
    var ipForward: string
    // Some `-C` failed although the rule was there; some `-D` failed likewise.
    ghost var misread: bool
    ghost var stuck: bool

    constructor (rules: seq<Rule>, ipForward: string)
      ensures this.rules == rules && this.ipForward == ipForward && !misread && !stuck
    {
      this.rules, this.ipForward, misread, stuck := rules, ipForward, false, false;
    }

    method Check(r: Rule) returns (there: bool)
      modifies this`misread
      ensures there ==> r in rules
      ensures misread <==> old(misread) || (!there && r in rules)
    {
      var fault: bool := *;
      there := r in rules && !fault;
      if !there && r in rules { misread := true; }
    }

    method Append(r: Rule) returns (ok: bool)
      modifies this`rules
      ensures rules == if ok then old(rules) + [r] else old(rules)
    {
      ok := *;
      if ok { rules := rules + [r]; }
    }

    method Delete(r: Rule)
      modifies this`rules, this`stuck
      ensures rules == RemoveFirst(old(rules), r) || (rules == old(rules) && stuck)
      ensures old(stuck) ==> stuck
    {
      var fault: bool := *;
      if fault { stuck := true; } else { rules := RemoveFirst(rules, r); }
    }

    method ReadForward() returns (value: Option<string>)
      ensures value.Some? ==> value.value == ipForward
    {
      var fault: bool := *;
      value := if fault then None else Some(ipForward);
    }

    method WriteForward() returns (ok: bool)
      modifies this`ipForward
      ensures ipForward == if ok then "1" else old(ipForward)
    {
      ok := *;
      if ok { ipForward := "1"; }
    }
  }

  datatype Outcome = Inserted | Exists | Failed

  method InsertIdempotentRule(host: Router, r: Rule) returns (outcome: Outcome)
    modifies host`rules, host`misread
    ensures outcome.Inserted? ==> host.rules == old(host.rules) + [r] && (r in old(host.rules) ==> host.misread)
    ensures outcome.Exists? ==> host.rules == old(host.rules) && r in host.rules
    ensures outcome.Failed? ==> host.rules == old(host.rules) && (r in host.rules ==> host.misread)
    ensures old(host.misread) ==> host.misread
  {
    var there := host.Check(r);
    if there { return Exists; }
    var ok := host.Append(r);
    outcome := if ok then Inserted else Failed;
  }

  // `config.wgEgressInterface ?? await detectEgressInterface() ?? "unknown"`
  function RollbackEgress(config: NetworkingConfig, route: Option<string>): string {
    if config.wgEgressInterface.Some? then config.wgEgressInterface.value else route.GetOr("unknown")
  }

  method RollbackNetworking(host: Router, config: NetworkingConfig, route: Option<string>, markers: seq<string>)
    modifies host`rules, host`stuck
    ensures !host.stuck ==>
              host.rules == RemoveEach(old(host.rules), Marked(Specs(config, RollbackEgress(config, route)), markers))
    ensures old(host.stuck) ==> host.stuck
  {
    hide Marked, Specs;
    var egress := if config.wgEgressInterface.Some? then config.wgEgressInterface.value else route.GetOr("unknown");
    var specs := Marked(Specs(config, egress), markers);
    var i := 0;
    assert specs[..0] == [];
    while i < |specs|
      invariant 0 <= i <= |specs|
      invariant !host.stuck ==> host.rules == RemoveEach(old(host.rules), specs[..i])
      invariant old(host.stuck) ==> host.stuck
    {
      assert specs[..i + 1][..i] == specs[..i];
      host.Delete(specs[i]);
      i := i + 1;
    }
    assert specs[..i] == specs;
  }

  // ── applyNetworking ──────────────────────────────────────────────────────

  // The first `done` of `specs` hold; each was added at most once, and, if no
  // check was misread, exactly when it was missing.
  ghost predicate Ensured(before: seq<Rule>, after: seq<Rule>, added: seq<Rule>, specs: seq<Rule>, misread: bool) {
    && after == before + added
    && (forall x | x in specs :: x in after)
    && multiset(added) <= multiset(specs)
    && (!misread ==> added == Absent(before, specs))
  }

  lemma EnsuredOneMore(before: seq<Rule>, after: seq<Rule>, added: seq<Rule>, specs: seq<Rule>, i: nat, misread: bool,
                       outcome: Outcome, next: seq<Rule>, nextMisread: bool)
    requires i < |specs| && Unique(specs) && Ensured(before, after, added, specs[..i], misread)
    requires misread ==> nextMisread
    requires !outcome.Failed?
    requires outcome.Inserted? ==> next == after + [specs[i]] && (specs[i] in after ==> nextMisread)
    requires outcome.Exists? ==> next == after && specs[i] in after
    ensures Ensured(before, next, added + (if outcome.Inserted? then [specs[i]] else []), specs[..i + 1], nextMisread)
  {
    hide Absent, Unique;
    CountOneMore(added, specs, i);
    var grown := added + (if outcome.Inserted? then [specs[i]] else []);
    assert next == before + grown;
    forall x | x in specs[..i + 1] ensures x in next { assert x in specs[..i] || x == specs[i]; }
    if !nextMisread { AddedIsAbsent(before, added, specs, i, outcome.Inserted?); }
  }

  lemma AddedIsAbsent(before: seq<Rule>, added: seq<Rule>, specs: seq<Rule>, i: nat, inserted: bool)
    requires i < |specs| && Unique(specs) && added == Absent(before, specs[..i])
    requires inserted <==> specs[i] !in before + added
    ensures added + (if inserted then [specs[i]] else []) == Absent(before, specs[..i + 1])
  {
    hide Absent, Unique;
    AbsentOneMore(before, specs, i);
    NotYet(specs, i);
    assert specs[i] !in added;
  }

  lemma CountOneMore(added: seq<Rule>, specs: seq<Rule>, i: nat)
    requires i < |specs| && multiset(added) <= multiset(specs[..i])
    ensures multiset(added) <= multiset(specs[..i + 1]) && multiset(added + [specs[i]]) <= multiset(specs[..i + 1])
  {
    assert specs[..i + 1] == specs[..i] + [specs[i]];
    assert multiset(specs[..i + 1]) == multiset(specs[..i]) + multiset{specs[i]};
  }

  // The event list of the run up to the rules.
  function RuleEvents(done: nat): seq<AuditAction> { if done == 4 then [NetworkingMasqueradeApplied] else [] }

  // The insertion loop, up to the first rule that cannot be inserted.
  method EnsureRules(host: Router, state: Store.EngineState, config: NetworkingConfig, egress: string, now: Millis)
    returns (done: nat, ghost added: seq<Rule>)
    modifies host`rules, host`misread, state`events
    ensures done <= 4 && Ensured(old(host.rules), host.rules, added, Specs(config, egress)[..done], host.misread)
    ensures old(host.misread) ==> host.misread
    ensures done < 4 && !host.misread ==> Specs(config, egress)[done] !in host.rules
    ensures Recorded(old(state.events), state.events, RuleEvents(done), state.revision, now)
  {
    hide Specs, Recorded, Ensured, Unique;
    var specs := Specs(config, egress);
    MarkersDiffer(config, egress);
    RecordedNone(state.events, state.revision, now);
    done, added := 0, [];
    EnsuredNone(host.rules, specs, host.misread);
    while done < |specs|
      invariant 0 <= done <= |specs|
      invariant Ensured(old(host.rules), host.rules, added, specs[..done], host.misread)
      invariant old(host.misread) ==> host.misread
      invariant Recorded(old(state.events), state.events, RuleEvents(done), state.revision, now)
    {
      ghost var before, misread := host.rules, host.misread;
      var outcome := InsertIdempotentRule(host, specs[done]);
      if outcome.Failed? {
        SpuriousStays(old(host.rules), before, added, specs[..done], misread, host.misread);
        return;
      }
      EnsuredOneMore(old(host.rules), before, added, specs, done, misread, outcome, host.rules, host.misread);
      added := added + (if outcome.Inserted? then [specs[done]] else []);
      if done == 3 {
        ghost var events := state.events;
        Emit(state, NetworkingMasqueradeApplied, now);
        RecordedThen(old(state.events), events, state.events, [], [NetworkingMasqueradeApplied], state.revision, now);
        assert [] + [NetworkingMasqueradeApplied] == RuleEvents(4);
      }
      done := done + 1;
    }
  }

  lemma EnsuredNone(rules: seq<Rule>, specs: seq<Rule>, misread: bool)
    ensures Ensured(rules, rules, [], specs[..0], misread)
  {
    assert specs[..0] == [] && rules + [] == rules;
  }

  lemma SpuriousStays(before: seq<Rule>, after: seq<Rule>, added: seq<Rule>, specs: seq<Rule>, misread: bool,
                      later: bool)
    requires Ensured(before, after, added, specs, misread) && (misread ==> later)
    ensures Ensured(before, after, added, specs, later)
  {
  }

  function ForwardOnly(markers: seq<string>): (r: seq<string>)
    ensures forall m :: m in r <==> m in markers && IsForwardMarker(m)
  {
    if markers == [] then []
    else
      var init, last := markers[..|markers| - 1], markers[|markers| - 1];
      assert forall m :: m in markers <==> m in init || m == last;
      ForwardOnly(init) + (if IsForwardMarker(last) then [last] else [])
  }

  predicate IsForwardMarker(marker: string) { FORWARD_PREFIX <= marker }

  lemma ForwardMarkers(config: NetworkingConfig, egress: string)
    ensures exists m :: m in Markers(Specs(config, egress)) && IsForwardMarker(m)
  {
    assert Markers(Specs(config, egress))[0] == FWD_ESTAB_RELATED;
    assert IsForwardMarker(FWD_ESTAB_RELATED);
  }

  // What a run may leave behind, by its result.
  ghost predicate Settled(before: seq<Rule>, after: seq<Rule>, specs: seq<Rule>, r: NetworkingResult, misread: bool,
                          stuck: bool)
    requires |specs| == 4 && |r.rulesRolledBack| <= 4
  {
    var list := specs[..|r.rulesRolledBack|];
    && (r.ok ==>
          && (forall x | x in specs :: x in after)
          && multiset(after) <= multiset(before) + multiset(specs)
          && Foreign(after, specs) == Foreign(before, specs)
          && (!misread ==> after == before + Absent(before, specs)))
    && (!r.ok && !stuck ==>
          && multiset(after) <= multiset(before)
          && Foreign(after, specs) == Foreign(before, specs)
          && (!misread ==> after == RemoveEach(before + Absent(before, list), list)))
    && (r.error.Some? && r.error.value.RuleInsertFailed? ==>
          |r.rulesRolledBack| < 4 && (!misread ==> specs[|r.rulesRolledBack|] !in before))
  }

  lemma SettledByInsertion(before: seq<Rule>, after: seq<Rule>, added: seq<Rule>, specs: seq<Rule>,
                           r: NetworkingResult, misread: bool, stuck: bool)
    requires |specs| == 4 && r.ok && r.rulesRolledBack == [] && r.error.None? &&
             Ensured(before, after, added, specs, misread)
    ensures Settled(before, after, specs, r, misread, stuck)
  {
    hide Absent, Foreign, RemoveEach;
    forall x | x in added ensures x in specs { assert x in multiset(added); }
    ForeignOfMore(before, added, specs);
    assert multiset(after) == multiset(before) + multiset(added);
  }

  lemma SettledByRollback(before: seq<Rule>, mid: seq<Rule>, added: seq<Rule>, specs: seq<Rule>, after: seq<Rule>,
                          r: NetworkingResult, misread: bool, stuck: bool)
    requires |specs| == 4 && !r.ok && |r.rulesRolledBack| < 4
    requires Ensured(before, mid, added, specs[..|r.rulesRolledBack|], misread)
    requires !misread ==> specs[|r.rulesRolledBack|] !in mid
    requires !stuck ==> after == RemoveEach(mid, specs[..|r.rulesRolledBack|])
    ensures Settled(before, after, specs, r, misread, stuck)
  {
    hide Absent, Foreign, RemoveEach;
    var list := specs[..|r.rulesRolledBack|];
    NeverMore(before, added, list);
    forall x | x in list ensures x in specs {}
    forall x | x in added ensures x in specs { assert x in multiset(added); }
    RemoveEachForeign(mid, list, specs);
    ForeignOfMore(before, added, specs);
  }

  // A run that finds every rule, its checks being right, succeeds and leaves
  // the table as it is.
  lemma AllPresent(before: seq<Rule>, after: seq<Rule>, specs: seq<Rule>, r: NetworkingResult, stuck: bool)
    requires |specs| == 4 && |r.rulesRolledBack| <= 4 && Settled(before, after, specs, r, false, stuck)
    requires forall x | x in specs :: x in before
    requires r.ok || (r.error.Some? && r.error.value.RuleInsertFailed?)
    ensures r.ok && after == before
  {
    hide Absent, Foreign, RemoveEach;
    NothingAbsent(before, specs);
    assert before + [] == before;
  }

  lemma {:induction false} NothingAbsent(rules: seq<Rule>, specs: seq<Rule>)
    requires forall x | x in specs :: x in rules
    ensures Absent(rules, specs) == []
  {
    if specs != [] {
      assert forall x | x in specs[..|specs| - 1] :: x in specs;
      NothingAbsent(rules, specs[..|specs| - 1]);
    }
  }

  // The override unless it is empty, else the default route.
  function ResolveEgress(config: NetworkingConfig, route: Option<string>): Option<string> {
    if config.wgEgressInterface.Some? && config.wgEgressInterface.value != "" then config.wgEgressInterface
    else if route.Some? && route.value != "" then route
    else None
  }

  lemma EgressMeaning(config: NetworkingConfig, route: Option<string>, egress: string)
    ensures ResolveEgress(config, route) == Some(egress) <==>
            egress != "" &&
              (config.wgEgressInterface == Some(egress) ||
               (config.wgEgressInterface in [None, Some("")] && route == Some(egress)))
  {
  }

  predicate Live(config: NetworkingConfig) { config.natEnabled && config.natApply && !config.dryRun }

  function ForwardingEvents(ipForward: string): seq<AuditAction> {
    if ipForward == "1" then [] else [NetworkingForwardingEnabled]
  }

  // Step 4: read the switch, write it only when it is off.
  method EnableForwarding(host: Router, state: Store.EngineState, now: Millis) returns (ok: bool)
    modifies host`ipForward, state`events
    ensures ok ==>
              host.ipForward == "1" &&
                Recorded(old(state.events), state.events, ForwardingEvents(old(host.ipForward)), state.revision, now)
    ensures !ok ==> host.ipForward == old(host.ipForward) && state.events == old(state.events)
  {
    hide Recorded;
    RecordedNone(state.events, state.revision, now);
    var before := host.ReadForward();
    if before.None? { return false; }
    if before.value == "1" { return true; }
    ok := host.WriteForward();
    if !ok { return; }
    Emit(state, NetworkingForwardingEnabled, now);
  }

  // Steps 5 and 6 on a live host; `routeLater` is what the route table says
  // when a rollback asks again.
  method ApplyRules(config: NetworkingConfig, state: Store.EngineState, host: Router, egress: string,
                    routeLater: Option<string>, now: Millis)
    returns (r: NetworkingResult, emitted: seq<AuditAction>)
    modifies host`rules, host`misread, host`stuck, state`events
    ensures |r.rulesRolledBack| <= 4 &&
            Settled(old(host.rules), host.rules, Specs(config, egress), r, host.misread, host.stuck)
    ensures r.ok <==> r.error.None?
    ensures r.ok <==>
              r.applied && !r.skipped && r.forwardingEnabled && r.rulesInserted == Markers(Specs(config, egress)) &&
                r.rulesRolledBack == []
    ensures !r.ok ==>
              r.rulesInserted == [] && r.rulesRolledBack == Markers(Specs(config, egress)[..|r.rulesRolledBack|])
    ensures !r.ok ==>
              |r.rulesRolledBack| < 4 &&
              r.error == Some(RuleInsertFailed(Specs(config, egress)[|r.rulesRolledBack|].comment))
    ensures r.forwardingEnabled
    ensures emitted == if r.ok then [NetworkingMasqueradeApplied, NetworkingForwardPolicyApplied]
                       else [NetworkingRolledBack]
    ensures Recorded(old(state.events), state.events, emitted, state.revision, now)
    ensures (old(host.misread) ==> host.misread) && (old(host.stuck) ==> host.stuck)
  {
    hide Recorded, Specs, Ensured, Settled, Markers, Marked;
    ghost var before := host.rules;
    var done, added := EnsureRules(host, state, config, egress, now);
    var specs := Specs(config, egress);
    ghost var events := state.events;
    if done == 4 {
      assert specs[..4] == specs;
      ForwardMarkers(config, egress);
      var inserted := Markers(specs);
      var forwardMarkers := ForwardOnly(inserted);
      if |forwardMarkers| > 0 { Emit(state, NetworkingForwardPolicyApplied, now); }
      RecordedThen(old(state.events), events, state.events, [NetworkingMasqueradeApplied],
        [NetworkingForwardPolicyApplied], state.revision, now);
      emitted := [NetworkingMasqueradeApplied, NetworkingForwardPolicyApplied];
      assert [NetworkingMasqueradeApplied] + [NetworkingForwardPolicyApplied] == emitted;
      r := NetworkingResult(true, true, false, inserted, [], true, None);
      SettledByInsertion(before, host.rules, added, specs, r, host.misread, host.stuck);
    } else {
      var intended := Markers(specs[..done]);
      Emit(state, NetworkingRolledBack, now);
      emitted := [NetworkingRolledBack];
      RecordedThen(old(state.events), events, state.events, [], emitted, state.revision, now);
      assert [] + emitted == emitted;
      ghost var mid := host.rules;
      RollbackSpecs(config, egress, RollbackEgress(config, routeLater), done);
      RollbackNetworking(host, config, routeLater, intended);
      r := NetworkingResult(false, false, false, [], intended, true, Some(RuleInsertFailed(specs[done].comment)));
      SettledByRollback(before, mid, added, specs, host.rules, r, host.misread, host.stuck);
    }
  }

  // What a live call records, by its result.
  function LiveEvents(ipForward: string, r: NetworkingResult): seq<AuditAction> {
    if r.ok then ForwardingEvents(ipForward) + [NetworkingMasqueradeApplied, NetworkingForwardPolicyApplied]
    else if r.error.Some? && r.error.value.RuleInsertFailed? then ForwardingEvents(ipForward) + [NetworkingRolledBack]
    else []
  }

  // What a live call has recorded: the switch exactly if it was off, the
  // masquerade and the forward policy exactly on success, the rollback exactly
  // when a rule could not be inserted; each once.
  lemma RecordedOnce(ipForward: string, r: NetworkingResult)
    requires r.ok <==> r.error.None?
    ensures var m, rolledBack := multiset(LiveEvents(ipForward, r)), r.error.Some? && r.error.value.RuleInsertFailed?;
            && m[NetworkingForwardingEnabled] == (if ipForward != "1" && (r.ok || rolledBack) then 1 else 0)
            && m[NetworkingMasqueradeApplied] == m[NetworkingForwardPolicyApplied] == (if r.ok then 1 else 0)
            && m[NetworkingRolledBack] == (if rolledBack then 1 else 0)
  {
  }

  // applyNetworking. `hasIptables` and the two routes are what the probes say.
  method ApplyNetworking(config: NetworkingConfig, state: Store.EngineState, host: Router, hasIptables: bool,
                         route: Option<string>, routeLater: Option<string>, now: Millis)
    returns (r: NetworkingResult, emitted: seq<AuditAction>)
    modifies host, state`events
    ensures |r.rulesRolledBack| <= 4 && (r.ok <==> r.error.None?)
    ensures r.rulesInserted == if r.ok && r.applied
                               then [FWD_ESTAB_RELATED, FWD_TUNNEL_NEW, FWD_DROP_INVALID, NAT_MASQUERADE] else []
    ensures !Live(config) ==>
              && r.ok && host.rules == old(host.rules) && host.ipForward == old(host.ipForward) && emitted == []
              && (r.skipped <==> !config.natEnabled || !config.natApply) && (r.applied <==> !r.skipped)
    ensures Live(config) && r.ok ==>
              hasIptables && ResolveEgress(config, route).Some? && host.ipForward == "1" && r.applied && !r.skipped
    ensures Live(config) && ResolveEgress(config, route).Some? ==>
              Settled(old(host.rules), host.rules, Specs(config, ResolveEgress(config, route).value), r, host.misread,
                host.stuck)
    ensures Live(config) && (!hasIptables || ResolveEgress(config, route).None?) ==>
              !r.ok && host.rules == old(host.rules) && host.ipForward == old(host.ipForward) && emitted == []
    ensures Live(config) && !hasIptables ==> r.error == Some(IptablesUnavailable)
    ensures Live(config) && hasIptables && ResolveEgress(config, route).None? ==> r.error == Some(EgressUnresolvable)
    ensures Live(config) && hasIptables && ResolveEgress(config, route).Some? ==>
              r.error.None? || r.error.value.RuleInsertFailed? || r.error == Some(ForwardingWriteFailed)
    ensures r.error == Some(ForwardingWriteFailed) ==>
              host.rules == old(host.rules) && host.ipForward == old(host.ipForward) && emitted == [] &&
                !r.forwardingEnabled
    ensures r.error.Some? && r.error.value.RuleInsertFailed? ==>
              && ResolveEgress(config, route).Some? && |r.rulesRolledBack| < 4 && r.forwardingEnabled &&
                 host.ipForward == "1"
              && var specs := Specs(config, ResolveEgress(config, route).value);
                 r.error.value.marker == specs[|r.rulesRolledBack|].comment &&
                   r.rulesRolledBack == Markers(specs[..|r.rulesRolledBack|])
    ensures emitted == if Live(config) then LiveEvents(old(host.ipForward), r) else []
    ensures NetworkingMasqueradeApplied in emitted <==> Live(config) && r.ok
    ensures Live(config) && (r.ok || (r.error.Some? && r.error.value.RuleInsertFailed?)) && !host.misread &&
            ResolveEgress(config, route).Some? &&
            (forall x | x in Specs(config, ResolveEgress(config, route).value) :: x in old(host.rules)) ==>
              r.ok && host.rules == old(host.rules)
    ensures Recorded(old(state.events), state.events, emitted, state.revision, now)
  {
    hide Recorded, Specs, Settled, Markers;
    RecordedNone(state.events, state.revision, now);
    emitted := [];
    if !config.natEnabled || !config.natApply {
      return NetworkingResult(true, false, true, [], [], false, None), [];
    }
    if !config.dryRun && !hasIptables {
      r := NetworkingResult(false, false, false, [], [], false, Some(IptablesUnavailable));
      SettledUntouched(host.rules, config, route, r, host.misread, host.stuck);
      return;
    }
    var override := config.wgEgressInterface.GetOr("");
    var egress := if override != "" then override else if config.dryRun then "eth0" else route.GetOr("");
    if egress == "" {
      r := NetworkingResult(false, false, false, [], [], false, Some(EgressUnresolvable));
      return;
    }
    if config.dryRun {
      FourMarkers(config, egress);
      return NetworkingResult(true, true, false, Markers(Specs(config, egress)), [], true, None), [];
    }
    var ipForward := host.ipForward;
    var on := EnableForwarding(host, state, now);
    if !on {
      r := NetworkingResult(false, false, false, [], [], false, Some(ForwardingWriteFailed));
      SettledUntouched(host.rules, config, route, r, host.misread, host.stuck);
      return;
    }
    ghost var events := state.events;
    r, emitted := ApplyRules(config, state, host, egress, routeLater, now);
    RecordedThen(old(state.events), events, state.events, ForwardingEvents(ipForward), emitted, state.revision, now);
    emitted := ForwardingEvents(ipForward) + emitted;
    FourMarkers(config, egress);
    if !host.misread && forall x | x in Specs(config, egress) :: x in old(host.rules) {
      AllPresent(old(host.rules), host.rules, Specs(config, egress), r, host.stuck);
    }
  }

  lemma FourMarkers(config: NetworkingConfig, egress: string)
    ensures Markers(Specs(config, egress)) == [FWD_ESTAB_RELATED, FWD_TUNNEL_NEW, FWD_DROP_INVALID, NAT_MASQUERADE]
  {
  }

  lemma SettledUntouched(rules: seq<Rule>, config: NetworkingConfig, route: Option<string>, r: NetworkingResult,
                         misread: bool, stuck: bool)
    requires !r.ok && r.rulesRolledBack == [] && !(r.error.Some? && r.error.value.RuleInsertFailed?)
    ensures forall egress :: Settled(rules, rules, Specs(config, egress), r, misread, stuck)
  {
    hide Foreign;
    forall egress ensures Settled(rules, rules, Specs(config, egress), r, misread, stuck) {
      assert Specs(config, egress)[..0] == [];
      assert rules + [] == rules;
    }
  }

  // ── Consequences ─────────────────────────────────────────────────────────

  // A second call after a successful one is such a run.
  lemma SecondRunInsertsNothing(before: seq<Rule>, mid: seq<Rule>, after: seq<Rule>, specs: seq<Rule>,
                                first: NetworkingResult, second: NetworkingResult, misread: bool, stuck: bool)
    requires |specs| == 4 && |first.rulesRolledBack| <= 4 && |second.rulesRolledBack| <= 4
    requires first.ok && Settled(before, mid, specs, first, misread, stuck)
    requires Settled(mid, after, specs, second, false, stuck)
    requires second.ok || (second.error.Some? && second.error.value.RuleInsertFailed?)
    ensures second.ok && after == mid
  {
    RulesPresent(before, mid, specs, first, misread, stuck);
    hide Settled;
    AllPresent(mid, after, specs, second, stuck);
  }

  lemma RulesPresent(before: seq<Rule>, after: seq<Rule>, specs: seq<Rule>, r: NetworkingResult, misread: bool,
                     stuck: bool)
    requires |specs| == 4 && |r.rulesRolledBack| <= 4 && Settled(before, after, specs, r, misread, stuck) && r.ok
    ensures forall x | x in specs :: x in after
  {
    hide Foreign, Absent, RemoveEach;
  }

  // With all rules and forwarding in place a call appends nothing, and still
  // records that masquerading was applied.
  lemma WarmRunRecordsAgain(before: seq<Rule>, after: seq<Rule>, specs: seq<Rule>, r: NetworkingResult, stuck: bool)
    requires |specs| == 4 && |r.rulesRolledBack| <= 4 && Settled(before, after, specs, r, false, stuck)
    requires forall x | x in specs :: x in before
    requires r.ok || (r.error.Some? && r.error.value.RuleInsertFailed?)
    ensures after == before && LiveEvents("1", r) == [NetworkingMasqueradeApplied, NetworkingForwardPolicyApplied]
  {
    AllPresent(before, after, specs, r, stuck);
  }

  // A run that fails at rule `d`, which was missing, with checks and deletions
  // that work.
  ghost predicate FailsAt(before: seq<Rule>, after: seq<Rule>, specs: seq<Rule>, d: nat) {
    d < |specs| && specs[d] !in before && after == RemoveEach(before + Absent(before, specs[..d]), specs[..d])
  }

  lemma FailedRunFailsAt(before: seq<Rule>, after: seq<Rule>, specs: seq<Rule>, r: NetworkingResult)
    requires |specs| == 4 && |r.rulesRolledBack| <= 4 && Settled(before, after, specs, r, false, false)
    requires r.error.Some? && r.error.value.RuleInsertFailed? && !r.ok
    ensures FailsAt(before, after, specs, |r.rulesRolledBack|)
  {
    hide Absent, Foreign, RemoveEach;
  }

  // Such a run puts the table back exactly when none of the rules before the
  // missing one had been there.
  lemma FailedRunRestores(before: seq<Rule>, after: seq<Rule>, config: NetworkingConfig, egress: string, d: nat)
    requires FailsAt(before, after, Specs(config, egress), d)
    ensures after == before <==> forall i | 0 <= i < d :: Specs(config, egress)[i] !in before
  {
    hide Absent, RemoveEach, Specs;
    var specs := Specs(config, egress);
    MarkersDiffer(config, egress);
    PrefixUnique(specs, d);
    RollbackExact(before, specs[..d]);
    assert forall i | 0 <= i < d :: specs[..d][i] == specs[i];
  }

  // Of the managed rules in the table, none comes before one that is missing.
  ghost predicate PresentLast(before: seq<Rule>, specs: seq<Rule>) {
    forall i, j | 0 <= i < j < |specs| && specs[i] in before :: specs[j] in before
  }

  // Every failing run puts the table back exactly when the managed rules that
  // are there are the last ones in the order of insertion.
  lemma FailedRunsRestore(before: seq<Rule>, config: NetworkingConfig, egress: string)
    ensures var specs := Specs(config, egress);
            (forall after: seq<Rule>, d: nat | FailsAt(before, after, specs, d) :: after == before) <==>
                PresentLast(before, specs)
  {
    hide Absent, RemoveEach, Specs, FailsAt;
    var specs := Specs(config, egress);
    if PresentLast(before, specs) {
      forall after: seq<Rule>, d: nat | FailsAt(before, after, specs, d) ensures after == before {
        FailsAtMissing(before, after, specs, d);
        FailedRunRestores(before, after, config, egress, d);
      }
    } else {
      var i, j :| 0 <= i < j < |specs| && specs[i] in before && specs[j] !in before;
      var after := RemoveEach(before + Absent(before, specs[..j]), specs[..j]);
      FailsAtHere(before, specs, j);
      FailedRunRestores(before, after, config, egress, j);
      assert FailsAt(before, after, specs, j) && after != before;
    }
  }

  lemma FailsAtMissing(before: seq<Rule>, after: seq<Rule>, specs: seq<Rule>, d: nat)
    requires FailsAt(before, after, specs, d)
    ensures d < |specs| && specs[d] !in before
  {
  }

  lemma FailsAtHere(before: seq<Rule>, specs: seq<Rule>, d: nat)
    requires d < |specs| && specs[d] !in before
    ensures FailsAt(before, RemoveEach(before + Absent(before, specs[..d]), specs[..d]), specs, d)
  {
  }

  lemma PrefixUnique(specs: seq<Rule>, d: nat)
    requires Unique(specs) && d <= |specs|
    ensures Unique(specs[..d])
  {
  }

  // Each rule a failing run takes off and that had been there is lost once.
  lemma FailedRunLoses(before: seq<Rule>, after: seq<Rule>, config: NetworkingConfig, egress: string, d: nat, x: Rule)
    requires FailsAt(before, after, Specs(config, egress), d) && x in Specs(config, egress)[..d] && x in before
    ensures multiset(after)[x] == multiset(before)[x] - 1
  {
    hide Absent, RemoveEach, Specs;
    MarkersDiffer(config, egress);
    PrefixUnique(Specs(config, egress), d);
    OneFewer(before, Specs(config, egress)[..d], x);
  }

  // With only the first rule in place, a run that cannot insert the second
  // removes the first.
  lemma FirstRuleLost(config: NetworkingConfig, egress: string)
    ensures var specs := Specs(config, egress);
            FailsAt([specs[0]], [], specs, 1)
  {
    hide Specs;
    MarkersDiffer(config, egress);
    var specs := Specs(config, egress);
    AloneRemoved(specs[0]);
    assert specs[..1] == [specs[0]] && specs[1] !in [specs[0]];
  }

  lemma AloneRemoved(r: Rule)
    ensures RemoveEach([r] + Absent([r], [r]), [r]) == []
  {
    assert [r][..0] == [] && Absent([r], []) == [] && Absent([r], [r]) == [];
    assert [r] + [] == [r] && RemoveEach([r], []) == [r];
    assert RemoveFirst([r], r) == [];
  }
}
