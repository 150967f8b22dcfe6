/** The end-to-end results spelled out: on the fields of the records, with the literal names, texts and rules of the
    tables, so that they say the same whatever the definitions of the model are. */
module SpelledOut {
  import opened PolTypes
  import opened PolicySet
  import opened EndpointSet
  import opened RuleSet
  import opened RuleArguments
  import opened PolicyMeaning
  import opened FieldMeaning
  import opened PacketFilter
  import opened Provisioner
  import opened ChainEffects
  import opened InstalledTables
  import opened Verdicts
  import opened PolicyControl

  // ---- Verdicts ----

  /** A table that enforces the policies decides INPUT, OUTPUT and FORWARD as the fields of the records say. */
  lemma EnforcedOnFields(t: Chains, pols: seq<Policy>, eps: seq<DanmEp>, pod: Pod, fam: Family, p: Packet)
    requires Enforces(t, pols, eps, pod, fam)
    ensures Accepted(t, "INPUT", p) <==> PassesByFields(pols, eps, pod, Ingress, fam, p)
    ensures Accepted(t, "OUTPUT", p) <==> PassesByFields(pols, eps, pod, Egress, fam, p)
    ensures !Accepted(t, "FORWARD", p)
  {
    assert Accepted(t, HookName(Ingress), p) <==> Permitted(pols, eps, pod, Ingress, fam, p);
    assert Accepted(t, HookName(Egress), p) <==> Permitted(pols, eps, pod, Egress, fam, p);
    MeaningOnFields(pols, eps, pod, Ingress, fam, p);
    MeaningOnFields(pols, eps, pod, Egress, fam, p);
  }

  /** The rules of a chain, by their field. */
  function RulesField(rs: NetRuleSet, dir: Direction, fam: Family): seq<NetRule> {
    match (dir, fam)
    case (Ingress, V4) => rs.ingressV4.rules
    case (Ingress, V6) => rs.ingressV6.rules
    case (Egress, V4) => rs.egressV4.rules
    case (Egress, V6) => rs.egressV6.rules
  }

  /** The table of a fresh namespace after a run without failures. */
  function Fresh(rs: NetRuleSet, fam: Family): Chains {
    Exec(FRESH, FamilyPlan(rs, fam), {})
  }

  lemma FreshOnFields(rs: NetRuleSet, pols: seq<Policy>, eps: seq<DanmEp>, pod: Pod, fam: Family, p: Packet)
    requires Compiled(rs, pols, eps, pod) && Identified(pols, eps)
    ensures Accepted(Fresh(rs, fam), "INPUT", p) <==> PassesByFields(pols, eps, pod, Ingress, fam, p)
    ensures Accepted(Fresh(rs, fam), "OUTPUT", p) <==> PassesByFields(pols, eps, pod, Egress, fam, p)
    ensures !Accepted(Fresh(rs, fam), "FORWARD", p)
  {
    RunEnforces(rs, pols, eps, pod, fam);
    EnforcedOnFields(Fresh(rs, fam), pols, eps, pod, fam, p);
  }

  // ---- Which endpoints a rule is for ----

  /** The end of a rule that names a peer. */
  function PeerEnd(r: NetRule, dir: Direction): string {
    match dir
    case Ingress => r.sourceIp
    case Egress => r.destIp
  }

  function PeerPort(r: NetRule, dir: Direction): string {
    match dir
    case Ingress => r.sourcePort
    case Egress => r.destPort
  }

  /** The text is an address. */
  predicate IsAddressText(text: string) {
    text != "" && text != "none"
  }

  lemma AddressRuleEnd(dir: Direction, address: string, ports: seq<PolicyPort>, r: NetRule)
    requires r in AddressRules(dir, address, ports)
    ensures PeerEnd(r, dir) == Host(address)
  {
  }

  lemma OriginOfRule(depSet: DanmEpSet, pols: seq<Policy>, dir: Direction, fam: Family, r: NetRule)
    returns (peer: Peer, d: DanmEp)
    requires r in PoliciesRules(depSet, pols, dir, fam)
    ensures d in PeerEndpoints(depSet, peer) && d.HasAddress(fam) && PeerEnd(r, dir) == Host(d.Address(fam))
  {
    var pol :| pol in pols && r in PolicyRules(depSet, pol, dir, fam);
    var ports := pol.Sections(dir)[0].ports;
    peer :| peer in pol.Sections(dir)[0].peers && r in Expanded(PeerEndpoints(depSet, peer), dir, fam, ports);
    d :| d in PeerEndpoints(depSet, peer) && d.HasAddress(fam) && r in AddressRules(dir, d.Address(fam), ports);
    AddressRuleEnd(dir, d.Address(fam), ports, r);
  }

  /** Every compiled rule names the host of an endpoint of the list that has an address of the family. */
  lemma RulesNameAddresses(
    rs: NetRuleSet, pols: seq<Policy>, eps: seq<DanmEp>, pod: Pod, dir: Direction, fam: Family, r: NetRule)
    requires Compiled(rs, pols, eps, pod) && Identified(pols, eps) && r in RulesField(rs, dir, fam)
    ensures exists d :: d in eps && IsAddressText(TextOf(d, fam)) && IsHostPart(PeerEnd(r, dir), TextOf(d, fam))
  {
    var applicable, depSet :|
      && IsApplicable(applicable, pols, pod)
      && IsEndpointIndex(depSet, eps, pod)
      && IsRuleSet(rs, applicable, depSet);
    assert r in ToSet(rs.Chain(dir, fam).rules);
    var peer, d := OriginOfRule(depSet, applicable, dir, fam, r);
    PeerSelectionRefinesJoin(depSet, eps, pod, peer);
    EndpointOfRule(eps, peer, d, fam, PeerEnd(r, dir));
  }

  lemma EndpointOfRule(eps: seq<DanmEp>, peer: Peer, d: DanmEp, fam: Family, host: string)
    requires PeerPicks(ByKey, peer, eps, d) && d.HasAddress(fam) && host == Host(d.Address(fam))
    ensures d in eps && IsAddressText(TextOf(d, fam)) && IsHostPart(host, TextOf(d, fam))
  {
    AddressingIsAt(d, Ingress, fam, TEN_STATE);
    HostIsHostPart(TextOf(d, fam), host);
  }

  const TEN_STATE := Packet("", "", New, iset{}, iset{}, iset{}, iset{}, iset{})

  /** Every endpoint that a policy for the Pod uses and that has an address of the family has a rule, for each of the
      ports of the section or, if there are none, without port. */
  lemma UsedEndpointsHaveRules(
    rs: NetRuleSet, pols: seq<Policy>, eps: seq<DanmEp>, pod: Pod, dir: Direction, fam: Family,
    pol: Policy, peer: Peer, d: DanmEp)
    requires Compiled(rs, pols, eps, pod) && Identified(pols, eps)
    requires pol in pols && IsFor(pol, pod)
    requires FirstSection(pol, dir).Some? && peer in FirstSection(pol, dir).value.peers
    requires Uses(peer, eps, d) && IsAddressText(TextOf(d, fam))
    ensures FirstSection(pol, dir).value.ports == [] ==>
              exists r :: r in RulesField(rs, dir, fam) && IsHostPart(PeerEnd(r, dir), TextOf(d, fam))
                          && PeerPort(r, dir) == "" && r.protocol == ""
    ensures forall port :: port in FirstSection(pol, dir).value.ports && port.port.Some? && port.protocol.Some? ==>
              exists r :: r in RulesField(rs, dir, fam) && IsHostPart(PeerEnd(r, dir), TextOf(d, fam))
                          && PeerPort(r, dir) == (match port.port.value case Int(_) => "" case Str(text) => text)
                          && r.protocol == port.protocol.value
  {
    var section := FirstSection(pol, dir).value;
    HostIsHostPart(TextOf(d, fam), Host(TextOf(d, fam)));
    AddressingIsAt(d, dir, fam, TEN_STATE);
    if section.ports == [] {
      UsedRuleIsThere(rs, pols, eps, pod, dir, fam, pol, peer, d, RuleFor(dir, d.Address(fam), "", ""));
    }
    forall port | port in section.ports && port.port.Some? && port.protocol.Some?
      ensures exists r :: r in RulesField(rs, dir, fam) && IsHostPart(PeerEnd(r, dir), TextOf(d, fam))
                          && PeerPort(r, dir) == (match port.port.value case Int(_) => "" case Str(text) => text)
                          && r.protocol == port.protocol.value
    {
      UsedRuleIsThere(rs, pols, eps, pod, dir, fam, pol, peer, d, PortRule(dir, d.Address(fam), port));
    }
  }

  lemma UsedRuleIsThere(
    rs: NetRuleSet, pols: seq<Policy>, eps: seq<DanmEp>, pod: Pod, dir: Direction, fam: Family,
    pol: Policy, peer: Peer, d: DanmEp, r: NetRule)
    requires Compiled(rs, pols, eps, pod) && Identified(pols, eps)
    requires pol in pols && IsFor(pol, pod)
    requires FirstSection(pol, dir).Some? && peer in FirstSection(pol, dir).value.peers
    requires Uses(peer, eps, d) && d.HasAddress(fam)
    requires r in AddressRules(dir, d.Address(fam), FirstSection(pol, dir).value.ports)
    ensures r in RulesField(rs, dir, fam)
  {
    var applicable, depSet :|
      && IsApplicable(applicable, pols, pod)
      && IsEndpointIndex(depSet, eps, pod)
      && IsRuleSet(rs, applicable, depSet);
    ApplyingIsFor(pol, pod);
    ApplicableIsScan(applicable, pols, pod);
    assert pol in ToSet(applicable);
    PickingIsUsing(peer, eps, d);
    PeerSelectionRefinesJoin(depSet, eps, pod, peer);
    var section := pol.Sections(dir)[0];
    assert r in Expanded(PeerEndpoints(depSet, peer), dir, fam, section.ports);
    assert r in PolicyRules(depSet, pol, dir, fam);
    assert r in PoliciesRules(depSet, applicable, dir, fam);
    assert r in ToSet(rs.Chain(dir, fam).rules);
  }

  /** If no endpoint of the list has an address of a family, its chains have no rules, and the fresh table accepts just
      what needs no policy. */
  lemma FamilyWithoutAddresses(
    rs: NetRuleSet, pols: seq<Policy>, eps: seq<DanmEp>, pod: Pod, fam: Family, p: Packet)
    requires Compiled(rs, pols, eps, pod) && Identified(pols, eps)
    requires forall d :: d in eps ==> TextOf(d, fam) == "" || TextOf(d, fam) == "none"
    ensures RulesField(rs, Ingress, fam) == [] && RulesField(rs, Egress, fam) == []
    ensures Accepted(Fresh(rs, fam), "INPUT", p) <==> NeedsNoPolicy(Ingress, p)
    ensures Accepted(Fresh(rs, fam), "OUTPUT", p) <==> NeedsNoPolicy(Egress, p)
  {
    forall dir: Direction ensures RulesField(rs, dir, fam) == [] {
      if RulesField(rs, dir, fam) != [] {
        RulesNameAddresses(rs, pols, eps, pod, dir, fam, RulesField(rs, dir, fam)[0]);
      }
    }
    FreshOnFields(rs, pols, eps, pod, fam, p);
    assert forall peer, d, dir: Direction :: Uses(peer, eps, d) ==> !IsAt(d, dir, fam, p);
  }

  // ---- The tables, rule by rule ----

  /** The names of our own chains. */
  function OwnName(dir: Direction, fam: Family): string {
    match (dir, fam)
    case (Ingress, V4) => "DANM_INGRESS_V4"
    case (Ingress, V6) => "DANM_INGRESS_V6"
    case (Egress, V4) => "DANM_EGRESS_V4"
    case (Egress, V6) => "DANM_EGRESS_V6"
  }

  /** The arguments of a compiled rule. */
  function WhitelistingArgs(r: NetRule): Args {
    (if r.protocol == "" then [] else ["-p", r.protocol])
    + (if r.sourcePort == "" then [] else ["--sport", r.sourcePort])
    + (if r.destPort == "" then [] else ["--dport", r.destPort])
    + (if r.sourceIp == "" then [] else ["-s", r.sourceIp])
    + (if r.destIp == "" then [] else ["-d", r.destIp])
    + ["-j", "ACCEPT"]
  }

  lemma NothingBetween(a: Args, b: Args, c: Args, d: Args)
    ensures a + [] + [] + b + c + [] + d == a + b + c + d
  {
  }

  lemma ArgsOfPlainRule(r: NetRule)
    requires IsPlain(r)
    ensures ArgsOf(r) == WhitelistingArgs(r)
  {
    NothingBetween(Flag("-p", r.protocol) + Flag("--sport", r.sourcePort) + Flag("--dport", r.destPort),
                   Flag("-s", r.sourceIp), Flag("-d", r.destIp), ["-j", "ACCEPT"]);
  }

  /** The flag for a connection state stands right after the one that loads its module. */
  lemma StateFlagIsLoaded(r: NetRule) returns (i: nat)
    requires r.state != ""
    ensures i + 4 <= |ArgsOf(r)| && ArgsOf(r)[i..i + 4] == ["-m", "conntrack", "--ctstate", r.state]
  {
    i := |LinkArgs(r) + Flag("-s", r.sourceIp) + Flag("-d", r.destIp)|;
  }

  /** The arguments end in the target, ACCEPT if the rule gives none. */
  lemma ArgsEndInTarget(r: NetRule)
    ensures var args := ArgsOf(r);
            |args| >= 2 && args[|args| - 2..] == ["-j", if r.operation == "" then "ACCEPT" else r.operation]
  {
  }

  lemma LoopbackArgs()
    ensures ArgsOf(EMPTY_RULE.(sourceIface := "lo", operation := IPTABLES_ACCEPT)) == ["-i", "lo", "-j", "ACCEPT"]
    ensures ArgsOf(EMPTY_RULE.(destIface := "lo", operation := IPTABLES_ACCEPT)) == ["-o", "lo", "-j", "ACCEPT"]
    ensures ArgsOf(REJECT_RULE) == ["-j", "REJECT"] && ArgsOf(DEFAULT_RETURN_RULE) == ["-j", "RETURN"]
  {
  }

  lemma StateArgs(state: string)
    requires state != ""
    ensures ArgsOf(EMPTY_RULE.(state := state, operation := IPTABLES_ACCEPT))
            == ["-m", "conntrack", "--ctstate", state, "-j", "ACCEPT"]
  {
  }

  lemma DnsArgs(protocol: string)
    requires protocol != ""
    ensures ArgsOf(EMPTY_RULE.(protocol := protocol, destPort := "53", state := STATE_NEW_ESTABLISHED,
                               operation := IPTABLES_ACCEPT))
            == ["-p", protocol, "--dport", "53", "-m", "conntrack", "--ctstate", "NEW,ESTABLISHED", "-j", "ACCEPT"]
  {
  }

  lemma DefaultIngressArgs()
    ensures ArgsAll(DefaultRules(Ingress))
            == [["-i", "lo", "-j", "ACCEPT"], ["-m", "conntrack", "--ctstate", "ESTABLISHED,RELATED", "-j", "ACCEPT"],
                ["-j", "REJECT"]]
  {
    LoopbackArgs();
    StateArgs(STATE_ESTABLISHED_RELATED);
    AllArgs3(DefaultRules(Ingress));
  }

  lemma DefaultEgressArgs()
    ensures ArgsAll(DefaultRules(Egress))
            == [["-o", "lo", "-j", "ACCEPT"], ["-m", "conntrack", "--ctstate", "ESTABLISHED,RELATED", "-j", "ACCEPT"],
                ["-p", "tcp", "--dport", "53", "-m", "conntrack", "--ctstate", "NEW,ESTABLISHED", "-j", "ACCEPT"],
                ["-p", "udp", "--dport", "53", "-m", "conntrack", "--ctstate", "NEW,ESTABLISHED", "-j", "ACCEPT"],
                ["-j", "REJECT"]]
  {
    LoopbackArgs();
    StateArgs(STATE_ESTABLISHED_RELATED);
    DnsArgs("tcp");
    DnsArgs("udp");
    AllArgs5(DefaultRules(Egress));
  }

  lemma AllArgs3(rules: seq<NetRule>)
    requires |rules| == 3
    ensures ArgsAll(rules) == [ArgsOf(rules[0]), ArgsOf(rules[1]), ArgsOf(rules[2])]
  {
  }

  lemma AllArgs5(rules: seq<NetRule>)
    requires |rules| == 5
    ensures ArgsAll(rules)
            == [ArgsOf(rules[0]), ArgsOf(rules[1]), ArgsOf(rules[2]), ArgsOf(rules[3]), ArgsOf(rules[4])]
  {
  }

  /** The built-in chains of a fresh namespace after a run without failures. */
  lemma BuiltInChains(rs: NetRuleSet, pols: seq<Policy>, eps: seq<DanmEp>, pod: Pod, fam: Family)
    requires Compiled(rs, pols, eps, pod) && Identified(pols, eps)
    ensures Lookup(Fresh(rs, fam), "INPUT")
            == Some((if RulesField(rs, Ingress, fam) == [] then [] else [["-j", OwnName(Ingress, fam)]])
                    + [["-i", "lo", "-j", "ACCEPT"],
                       ["-m", "conntrack", "--ctstate", "ESTABLISHED,RELATED", "-j", "ACCEPT"],
                       ["-j", "REJECT"]])
    ensures Lookup(Fresh(rs, fam), "OUTPUT")
            == Some((if RulesField(rs, Egress, fam) == [] then [] else [["-j", OwnName(Egress, fam)]])
                    + [["-o", "lo", "-j", "ACCEPT"],
                       ["-m", "conntrack", "--ctstate", "ESTABLISHED,RELATED", "-j", "ACCEPT"],
                       ["-p", "tcp", "--dport", "53", "-m", "conntrack", "--ctstate", "NEW,ESTABLISHED", "-j", "ACCEPT"],
                       ["-p", "udp", "--dport", "53", "-m", "conntrack", "--ctstate", "NEW,ESTABLISHED", "-j", "ACCEPT"],
                       ["-j", "REJECT"]])
    ensures Lookup(Fresh(rs, fam), "FORWARD") == Some([["-j", "REJECT"]])
  {
    var ingress, egress := rs.Chain(Ingress, fam).rules, rs.Chain(Egress, fam).rules;
    PlanOfCompiled(rs, pols, eps, pod, fam);
    RunOnFresh(fam, ingress, egress);
    InstalledLookup(fam, ingress, egress, "INPUT");
    InstalledLookup(fam, ingress, egress, "OUTPUT");
    InstalledLookup(fam, ingress, egress, "FORWARD");
    HookNames();
    DefaultIngressArgs();
    DefaultEgressArgs();
    JumpTexts(fam);
  }

  lemma JumpTexts(fam: Family)
    ensures JumpArgs(Ingress, fam) == ["-j", OwnName(Ingress, fam)] && JumpArgs(Egress, fam) == ["-j", OwnName(Egress, fam)]
    ensures ArgsOf(REJECT_RULE) == ["-j", "REJECT"] && ArgsOf(DEFAULT_RETURN_RULE) == ["-j", "RETURN"]
  {
    OwnNames(Ingress, fam);
    OwnNames(Egress, fam);
  }

  lemma OwnLookup(rs: NetRuleSet, pols: seq<Policy>, eps: seq<DanmEp>, pod: Pod, dir: Direction, fam: Family)
    requires Compiled(rs, pols, eps, pod) && Identified(pols, eps)
    ensures Lookup(Fresh(rs, fam), OwnName(dir, fam)) == OwnIfAny(RulesField(rs, dir, fam))
  {
    var ingress, egress := rs.Chain(Ingress, fam).rules, rs.Chain(Egress, fam).rules;
    PlanOfCompiled(rs, pols, eps, pod, fam);
    RunOnFresh(fam, ingress, egress);
    OwnNames(dir, fam);
    InstalledLookup(fam, ingress, egress, ChainName(dir, fam));
    assert RulesField(rs, dir, fam) == rs.Chain(dir, fam).rules;
  }

  lemma CompiledArePlain(rs: NetRuleSet, pols: seq<Policy>, eps: seq<DanmEp>, pod: Pod, dir: Direction, fam: Family)
    requires Compiled(rs, pols, eps, pod) && Identified(pols, eps)
    ensures Whitelist(RulesField(rs, dir, fam)) && forall r :: r in RulesField(rs, dir, fam) ==> IsPlain(r)
  {
    CompiledMeaning(rs, pols, eps, pod, dir, fam, TEN_STATE);
    assert RulesField(rs, dir, fam) == rs.Chain(dir, fam).rules;
  }

  /** Our own chains: none without rules, and otherwise the rules, each once, and RETURN. */
  lemma OwnChains(rs: NetRuleSet, pols: seq<Policy>, eps: seq<DanmEp>, pod: Pod, dir: Direction, fam: Family)
    requires Compiled(rs, pols, eps, pod) && Identified(pols, eps)
    ensures var own, rules := Lookup(Fresh(rs, fam), OwnName(dir, fam)), RulesField(rs, dir, fam);
            if rules == [] then own == None
            else
              && own.Some? && own.value != [] && own.value[|own.value| - 1] == ["-j", "RETURN"]
              && (forall a :: a in own.value <==> a == ["-j", "RETURN"] || exists r :: r in rules && a == WhitelistingArgs(r))
              && (forall i, j :: 0 <= i < j < |own.value| ==> own.value[i] != own.value[j])
  {
    OwnLookup(rs, pols, eps, pod, dir, fam);
    CompiledArePlain(rs, pols, eps, pod, dir, fam);
    JumpTexts(fam);
    var rules := RulesField(rs, dir, fam);
    if rules != [] {
      OwnChainTexts(rules, OwnArgs(rules));
    }
  }

  lemma ArgsAreTexts(rules: seq<NetRule>)
    requires forall r :: r in rules ==> IsPlain(r)
    ensures forall a :: a in ArgsAll(rules) <==> exists r :: r in rules && a == WhitelistingArgs(r)
  {
    var xs := ArgsAll(rules);
    forall i | 0 <= i < |rules| ensures xs[i] == WhitelistingArgs(rules[i]) && rules[i] in rules {
      ArgsOfPlainRule(rules[i]);
    }
    forall a | a in xs ensures exists r :: r in rules && a == WhitelistingArgs(r) {
      var i :| 0 <= i < |xs| && xs[i] == a;
      assert rules[i] in rules;
    }
    forall r | r in rules ensures WhitelistingArgs(r) in xs {
      var i :| 0 <= i < |rules| && rules[i] == r;
      assert xs[i] == WhitelistingArgs(r);
    }
  }

  lemma OwnChainTexts(rules: seq<NetRule>, own: seq<Args>)
    requires Whitelist(rules) && (forall r :: r in rules ==> IsPlain(r)) && own == OwnArgs(rules)
    ensures own != [] && own[|own| - 1] == ArgsOf(DEFAULT_RETURN_RULE)
    ensures forall a :: a in own <==> a == ArgsOf(DEFAULT_RETURN_RULE) || exists r :: r in rules && a == WhitelistingArgs(r)
    ensures forall i, j :: 0 <= i < j < |own| ==> own[i] != own[j]
  {
    var last, texts := ArgsOf(DEFAULT_RETURN_RULE), EnsureAll([], ArgsAll(rules));
    OwnChainIsClosed(rules);
    assert own == texts + [last] && Distinct(own);
    EnsureAllMembers([], ArgsAll(rules));
    ArgsAreTexts(rules);
    forall a ensures a in own <==> a == last || exists r :: r in rules && a == WhitelistingArgs(r) {
      assert a in own <==> a in texts || a == last;
    }
  }

  // ---- A failing creation ----

  /** When the ingress chain of IPv4 cannot be created, the egress chain of an earlier run and its jump survive, and the
      IPv6 table is not touched. */
  lemma IngressFailureSparesEgress(
    t: Chains, rs: NetRuleSet, pols: seq<Policy>, eps: seq<DanmEp>, pod: Pod,
    calls4: nat, faults4: set<nat>, calls6: nat, faults6: set<nat>, faults: set<nat>)
    requires Compiled(rs, pols, eps, pod) && Identified(pols, eps)
    requires rs.ingressV4.rules != [] && calls4 in faults4
    ensures var n := ChainsGoneThrough(rs, calls4, faults4, calls6, faults6);
            var u := Exec(t, CallsForChains(rs, V4, n), faults);
            && Lookup(u, "DANM_EGRESS_V4") == Lookup(t, "DANM_EGRESS_V4") && Lookup(u, "OUTPUT") == Lookup(t, "OUTPUT")
            && CallsForChains(rs, V6, n) == []
  {
    var ops := ChainOps(rs.ingressV4, JumpRules(Ingress, V4));
    FailureStopsTheRest(rs, calls4, faults4, calls6, faults6);
    PlanOfCompiled(rs, pols, eps, pod, V4);
    OwnNames(Ingress, V4);
    HookNames();
    forall op | op in ops ensures op.chain == "DANM_INGRESS_V4" || op.chain == "INPUT" {
    }
    DifferentNames();
    ExecElsewhere(t, ops, faults, "DANM_EGRESS_V4");
    ExecElsewhere(t, ops, faults, "OUTPUT");
  }

  lemma DifferentNames()
    ensures "DANM_EGRESS_V4" != "DANM_INGRESS_V4" && "DANM_EGRESS_V4" != "INPUT"
    ensures "OUTPUT" != "DANM_INGRESS_V4" && "OUTPUT" != "INPUT"
  {
    assert |"DANM_EGRESS_V4"| == 14 && |"DANM_INGRESS_V4"| == 15 && |"INPUT"| == 5 && |"OUTPUT"| == 6;
  }

  // ---- Networks and labels ----

  /** A network selector without a type meets exactly the endpoints of that network whose type is absent or DanmNet. */
  lemma SelectorWithoutType(name: string, d: DanmEp)
    requires IsObjectName(name) && IsObjectName(d.networkName) && IsKind(d.apiType)
    ensures OnNetwork(ByKey, NetworkSelector(name, ""), d)
            <==> d.networkName == name && (d.apiType == "" || d.apiType == "DanmNet")
  {
    NetworkKeyInjective(name, "", d.networkName, d.apiType);
  }
}
