// What the managed rules do to packets: how `iptables` reads a rule's match
// arguments, the verdict of a chain, and the verdict wherever the four rules of
// the networking policy are in place (packages/engine/src/networking.ts).
module Firewall {
  import opened Wrappers
  import opened Text
  import opened RuleTable
  import opened Networking

  // A forwarded packet: its connection state, the interfaces it enters and
  // leaves by, the blocks its source address lies in, and what it answers to
  // any other option with its value.
  datatype Packet = Packet(
    state: string,
    input: string,
    output: string,
    sourceIn: string -> bool,
    other: (string, string) -> bool)

  // One option and its value; `-m` and `-t` load a module and name a table.
  predicate OptionHolds(option: string, value: string, p: Packet) {
    if option == "-m" || option == "-t" then true
    else if option == "--ctstate" then p.state in Split(value, ',')
    else if option == "-i" then p.input == value
    else if option == "-o" then p.output == value
    else if option == "-s" then p.sourceIn(value)
    else p.other(option, value)
  }

  predicate Holds(matches: seq<string>, p: Packet)
    decreases |matches|
  {
    if |matches| < 2 then matches == []
    else OptionHolds(matches[0], matches[1], p) && Holds(matches[2..], p)
  }

  // The target of the first rule of the chain that matches.
  function Verdict(rules: seq<Rule>, chain: Chain, p: Packet): Option<string> {
    if rules == [] then None
    else if rules[0].chain == chain && Holds(rules[0].matches, p) then Some(rules[0].target)
    else Verdict(rules[1..], chain, p)
  }

  // ── The four rules ───────────────────────────────────────────────────────

  lemma HoldsPair(option: string, value: string, rest: seq<string>, p: Packet)
    ensures Holds([option, value] + rest, p) <==> OptionHolds(option, value, p) && Holds(rest, p)
  {
    assert ([option, value] + rest)[2..] == rest;
  }

  lemma TrackedStates(p: Packet)
    ensures OptionHolds("--ctstate", "ESTABLISHED,RELATED", p) <==> p.state in ["ESTABLISHED", "RELATED"]
    ensures OptionHolds("--ctstate", "NEW", p) <==> p.state == "NEW"
    ensures OptionHolds("--ctstate", "INVALID", p) <==> p.state == "INVALID"
  {
    hide Split;
    assert "ESTABLISHED" + [','] + "RELATED" == "ESTABLISHED,RELATED";
    SplitFirst("ESTABLISHED", "RELATED", ',');
    SplitLacking("RELATED", ',');
    SplitLacking("NEW", ',');
    SplitLacking("INVALID", ',');
  }

  lemma TrackedHolds(value: string, p: Packet)
    ensures Holds(["-m", "conntrack", "--ctstate", value], p) <==> OptionHolds("--ctstate", value, p)
  {
    hide OptionHolds, Holds;
    assert ["-m", "conntrack", "--ctstate", value] == ["-m", "conntrack"] + (["--ctstate", value] + []);
    HoldsPair("-m", "conntrack", ["--ctstate", value] + [], p);
    HoldsPair("--ctstate", value, [], p);
    assert OptionHolds("-m", "conntrack", p) && Holds([], p) by { ModuleHolds(p); }
  }

  lemma ModuleHolds(p: Packet)
    ensures OptionHolds("-m", "conntrack", p) && OptionHolds("-t", "nat", p) && Holds([], p)
  {
  }

  lemma InputHolds(name: string, p: Packet)
    ensures OptionHolds("-i", name, p) <==> p.input == name
  {
  }

  lemma NewHolds(name: string, p: Packet)
    ensures Holds(["-i", name, "-m", "conntrack", "--ctstate", "NEW"], p) <==>
            OptionHolds("-i", name, p) && OptionHolds("--ctstate", "NEW", p)
  {
    hide Holds, OptionHolds;
    TrackedHolds("NEW", p);
    var tracked := ["-m", "conntrack", "--ctstate", "NEW"];
    HoldsPair("-i", name, tracked, p);
    assert ["-i", name, "-m", "conntrack", "--ctstate", "NEW"] == ["-i", name] + tracked;
  }

  lemma MasqueradeHolds(cidr: string, egress: string, p: Packet)
    ensures Holds(["-t", "nat", "-s", cidr, "-o", egress], p) <==> p.sourceIn(cidr) && p.output == egress
  {
    hide Holds;
    ModuleHolds(p);
    assert ["-t", "nat", "-s", cidr, "-o", egress] == ["-t", "nat"] + (["-s", cidr] + (["-o", egress] + []));
    HoldsPair("-t", "nat", ["-s", cidr] + (["-o", egress] + []), p);
    HoldsPair("-s", cidr, ["-o", egress] + [], p);
    HoldsPair("-o", egress, [], p);
  }

  // What a managed rule does to a packet it matches, and which packets some
  // managed rule matches.
  ghost function Forwarded(config: NetworkingConfig, p: Packet): Option<string> {
    if p.state in ["ESTABLISHED", "RELATED"] || (p.state == "NEW" && p.input == config.interfaceName)
    then Some("ACCEPT")
    else if p.state == "INVALID" then Some("DROP")
    else None
  }

  ghost function Translated(config: NetworkingConfig, egress: string, p: Packet): Option<string> {
    if p.sourceIn(config.tunnelCidrV4) && p.output == egress then Some("MASQUERADE") else None
  }

  ghost function Intended(config: NetworkingConfig, egress: string, chain: Chain, p: Packet): Option<string> {
    match chain
    case Forward => Forwarded(config, p)
    case Postrouting => Translated(config, egress, p)
  }

  lemma ManagedRules(config: NetworkingConfig, egress: string, chain: Chain, p: Packet)
    ensures forall x | x in Specs(config, egress) && x.chain == chain && Holds(x.matches, p) ::
              Intended(config, egress, chain, p) == Some(x.target)
    ensures Intended(config, egress, chain, p).Some? ==>
              exists x | x in Specs(config, egress) :: x.chain == chain && Holds(x.matches, p)
  {
    TrackedStates(p);
    TrackedHolds("ESTABLISHED,RELATED", p);
    TrackedHolds("INVALID", p);
    NewHolds(config.interfaceName, p);
    InputHolds(config.interfaceName, p);
    MasqueradeHolds(config.tunnelCidrV4, egress, p);
    hide Holds, OptionHolds;
    var specs := Specs(config, egress);
    assert specs[0] in specs && specs[1] in specs && specs[2] in specs && specs[3] in specs;
  }

  // Wherever the four rules are in place, in whatever order and however often,
  // a packet that no other rule matches is accepted if it belongs to a known
  // connection or opens one from the tunnel, dropped if it is invalid, and
  // otherwise left to the chain's policy; it is masqueraded exactly if it comes
  // from the tunnel's block and leaves by the egress interface.
  lemma PolicyInForce(rules: seq<Rule>, config: NetworkingConfig, egress: string, chain: Chain, p: Packet)
    requires forall x | x in Specs(config, egress) :: x in rules
    requires forall x | x in rules && x !in Specs(config, egress) && x.chain == chain :: !Holds(x.matches, p)
    ensures Verdict(rules, chain, p) == Intended(config, egress, chain, p)
  {
    hide Holds, Specs, Intended, Verdict;
    ManagedRules(config, egress, chain, p);
    FirstMatch(rules, chain, p);
  }

  lemma {:induction false} FirstMatch(rules: seq<Rule>, chain: Chain, p: Packet)
    ensures Verdict(rules, chain, p).Some? ==>
              exists x | x in rules :: x.chain == chain && Holds(x.matches, p) &&
                Verdict(rules, chain, p) == Some(x.target)
    ensures Verdict(rules, chain, p).None? ==> forall x | x in rules && x.chain == chain :: !Holds(x.matches, p)
  {
    hide Holds;
    if rules != [] {
      FirstMatch(rules[1..], chain, p);
      assert forall x :: x in rules <==> x == rules[0] || x in rules[1..];
    }
  }
}
