/** What the installed tables decide about a packet. */
module Verdicts {
  import opened Strings
  import opened PolTypes
  import opened RuleArguments
  import opened PacketFilter
  import opened Provisioner
  import opened ChainEffects
  import opened InstalledTables

  /** Every rule only whitelists, as those compiled from policies do. */
  predicate Whitelist(rules: seq<NetRule>) {
    forall r :: r in rules ==> r.operation == ""
  }

  ghost predicate SomeRuleMatches(rules: seq<NetRule>, p: Packet) {
    exists r :: r in rules && RuleMatches(r, p)
  }

  /** Outgoing name resolution. */
  ghost predicate IsDnsQuery(p: Packet) {
    && ("tcp" in p.protocols || "udp" in p.protocols)
    && "53" in p.destPorts
    && (p.state.New? || p.state.Established?)
  }

  /** What isolation never hinders: loopback, known connections, and outgoing name resolution. */
  ghost predicate AlwaysAllowed(dir: Direction, p: Packet) {
    match dir
    case Ingress => p.inIface == "lo" || p.state.Established? || p.state.Related?
    case Egress => p.outIface == "lo" || p.state.Established? || p.state.Related? || IsDnsQuery(p)
  }

  lemma ArgsMeaning(r: NetRule, p: Packet)
    ensures Matches(ArgsOf(r), p) <==> RuleMatches(r, p)
    ensures Target(ArgsOf(r)) == Normalised(r).operation
  {
    ArgumentsRoundTrip(r);
  }

  /** A whitelisting rule is never taken for RETURN, for a jump or for REJECT. */
  lemma WhitelistingArgsAreTheirOwn(r: NetRule, dir: Direction, fam: Family)
    requires r.operation == ""
    ensures ArgsOf(r) != ArgsOf(DEFAULT_RETURN_RULE)
    ensures ArgsOf(r) != JumpArgs(dir, fam)
    ensures ArgsOf(r) != ArgsOf(REJECT_RULE)
  {
    OwnNames(dir, fam);
    ArgumentsIdentifyRules(r, DEFAULT_RETURN_RULE);
    ArgumentsIdentifyRules(r, EMPTY_RULE.(operation := ChainName(dir, fam)));
    ArgumentsIdentifyRules(r, REJECT_RULE);
  }

  /** A chain of our own holds each whitelisting rule once, and RETURN at its end. */
  lemma OwnChainIsClosed(rules: seq<NetRule>)
    requires Whitelist(rules)
    ensures OwnArgs(rules) == EnsureAll([], ArgsAll(rules)) + [ArgsOf(DEFAULT_RETURN_RULE)]
    ensures Distinct(OwnArgs(rules))
    ensures forall r :: r in rules ==> ArgsOf(r) in OwnArgs(rules)
  {
    var xs, last := ArgsAll(rules), [ArgsOf(DEFAULT_RETURN_RULE)];
    EnsureAllConcat([], xs, last);
    EnsureAllMembers([], xs);
    EnsureAllMembers([], xs + last);
    forall i | 0 <= i < |rules| ensures xs[i] != ArgsOf(DEFAULT_RETURN_RULE) && xs[i] in xs {
      assert rules[i] in rules;
      WhitelistingArgsAreTheirOwn(rules[i], Ingress, V4);
    }
    EnsureAllAbsent(EnsureAll([], xs), last);
    forall r | r in rules ensures ArgsOf(r) in OwnArgs(rules) {
      var i :| 0 <= i < |rules| && rules[i] == r;
      assert xs[i] in xs + last;
    }
  }

  function DefaultAccepts(dir: Direction): seq<NetRule> {
    DefaultRules(dir)[..|DefaultRules(dir)| - 1]
  }

  lemma InterfaceRule(r: NetRule, iface: string, operation: string, p: Packet)
    requires iface != ""
    ensures r == EMPTY_RULE.(sourceIface := iface, operation := operation) ==> (RuleMatches(r, p) <==> p.inIface == iface)
    ensures r == EMPTY_RULE.(destIface := iface, operation := operation) ==> (RuleMatches(r, p) <==> p.outIface == iface)
  {
  }

  lemma StateRule(r: NetRule, protocol: string, port: string, state: string, operation: string, p: Packet)
    requires state != ""
    requires r == EMPTY_RULE.(protocol := protocol, destPort := port, state := state, operation := operation)
    ensures RuleMatches(r, p)
            <==> && (protocol == "" || protocol in p.protocols)
                 && (port == "" || port in p.destPorts)
                 && p.state.Name() in Split(state, ',')
  {
  }

  lemma KnownConnectionRule(r: NetRule, p: Packet)
    requires r == EMPTY_RULE.(state := STATE_ESTABLISHED_RELATED, operation := IPTABLES_ACCEPT)
    ensures RuleMatches(r, p) <==> p.state.Established? || p.state.Related?
  {
    EstablishedRelatedStates(p.state);
    StateRule(r, "", "", r.state, IPTABLES_ACCEPT, p);
  }

  lemma DnsRule(r: NetRule, protocol: string, p: Packet)
    requires protocol != ""
    requires r == EMPTY_RULE.(protocol := protocol, destPort := "53", state := STATE_NEW_ESTABLISHED,
                              operation := IPTABLES_ACCEPT)
    ensures RuleMatches(r, p)
            <==> protocol in p.protocols && "53" in p.destPorts && (p.state.New? || p.state.Established?)
  {
    NewEstablishedStates(p.state);
    StateRule(r, protocol, "53", r.state, IPTABLES_ACCEPT, p);
  }

  lemma SomeOfFirst(rules: seq<NetRule>, p: Packet)
    requires |rules| > 0
    ensures SomeRuleMatches(rules, p) <==> RuleMatches(rules[0], p) || SomeRuleMatches(rules[1..], p)
  {
    assert rules == [rules[0]] + rules[1..];
  }

  lemma DefaultAcceptsMeaning(dir: Direction, p: Packet)
    ensures SomeRuleMatches(DefaultAccepts(dir), p) <==> AlwaysAllowed(dir, p)
  {
    var rules := DefaultAccepts(dir);
    SomeOfFirst(rules, p);
    InterfaceRule(rules[0], "lo", IPTABLES_ACCEPT, p);
    SomeOfFirst(rules[1..], p);
    KnownConnectionRule(rules[1], p);
    if dir == Egress {
      DnsAcceptsMeaning(p);
    }
  }

  lemma DnsAcceptsMeaning(p: Packet)
    ensures SomeRuleMatches(DefaultAccepts(Egress)[1..][1..], p) <==> IsDnsQuery(p)
  {
    var rules := DefaultAccepts(Egress)[1..][1..];
    SomeOfFirst(rules, p);
    DnsRule(rules[0], "tcp", p);
    SomeOfFirst(rules[1..], p);
    DnsRule(rules[1], "udp", p);
  }

  /** Accepting rules, as arguments: the packet is accepted when one of them matches. */
  lemma RunAcceptingRules(t: Chains, rules: seq<NetRule>, p: Packet, depth: nat)
    requires forall r :: r in rules ==> Normalised(r).operation == IPTABLES_ACCEPT
    ensures Run(t, ArgsAll(rules), p, depth) == if SomeRuleMatches(rules, p) then Some(Accept) else None
  {
    var xs := ArgsAll(rules);
    forall i | 0 <= i < |rules|
      ensures Target(xs[i]) == IPTABLES_ACCEPT
      ensures Matches(xs[i], p) <==> RuleMatches(rules[i], p)
      ensures rules[i] in rules && xs[i] in xs
    {
      ArgsMeaning(rules[i], p);
    }
    RunAccepting(t, xs, p, depth);
  }

  lemma RunFinalRule(t: Chains, r: NetRule, p: Packet, depth: nat)
    requires r == REJECT_RULE || r == DEFAULT_RETURN_RULE
    ensures Run(t, [ArgsOf(r)], p, depth) == Some(if r == REJECT_RULE then Reject else Return)
  {
    ArgsMeaning(r, p);
  }

  lemma RunDefaults(t: Chains, dir: Direction, p: Packet, depth: nat)
    ensures Run(t, ArgsAll(DefaultRules(dir)), p, depth) == Some(if AlwaysAllowed(dir, p) then Accept else Reject)
  {
    DefaultRulesDistinct(dir);
    DefaultAcceptsMeaning(dir, p);
    var accepts := DefaultAccepts(dir);
    assert ArgsAll(DefaultRules(dir)) == ArgsAll(accepts) + [ArgsOf(REJECT_RULE)];
    RunConcat(t, ArgsAll(accepts), [ArgsOf(REJECT_RULE)], p, depth);
    RunAcceptingRules(t, accepts, p, depth);
    RunFinalRule(t, REJECT_RULE, p, depth);
  }

  /** A chain of our own accepts what one of its rules matches and returns everything else. */
  lemma RunOwnChain(t: Chains, rules: seq<NetRule>, p: Packet, depth: nat)
    requires Whitelist(rules)
    ensures Run(t, OwnArgs(rules), p, depth) == Some(if SomeRuleMatches(rules, p) then Accept else Return)
  {
    var xs, last := ArgsAll(rules), [ArgsOf(DEFAULT_RETURN_RULE)];
    RunEnsureAll(t, [], xs + last, p, depth);
    assert [] + (xs + last) == xs + last;
    RunConcat(t, xs, last, p, depth);
    RunAcceptingRules(t, rules, p, depth);
    RunFinalRule(t, DEFAULT_RETURN_RULE, p, depth);
  }

  /** The jump hands the packet to the chain of our own. */
  lemma StepJump(t: Chains, dir: Direction, fam: Family, p: Packet, depth: nat)
    ensures Step(t, JumpArgs(dir, fam), p, depth)
            == if ChainName(dir, fam) in t && depth > 0 then
                 (var inner := Run(t, t[ChainName(dir, fam)], p, depth - 1);
                  if inner == Some(Return) then None else inner)
               else None
  {
    ArgsMeaning(EMPTY_RULE.(operation := ChainName(dir, fam)), p);
    OwnNames(dir, fam);
  }

  /** The jump, in any table whose chain of our own is the one the rules make. */
  lemma RunJump(t: Chains, fam: Family, dir: Direction, rules: seq<NetRule>, p: Packet, depth: nat)
    requires Whitelist(rules) && Lookup(t, ChainName(dir, fam)) == Some(OwnArgs(rules)) && depth > 0
    ensures Run(t, [JumpArgs(dir, fam)], p, depth) == if SomeRuleMatches(rules, p) then Some(Accept) else None
  {
    var own := OwnArgs(rules);
    assert t[ChainName(dir, fam)] == own;
    RunOwnChain(t, rules, p, depth - 1);
    StepJump(t, dir, fam, p, depth);
    RunOne(t, JumpArgs(dir, fam), p, depth);
  }

  lemma RunOne(t: Chains, a: Args, p: Packet, depth: nat)
    ensures Run(t, [a], p, depth) == Step(t, a, p, depth)
  {
    assert [a][1..] == [];
  }

  /** A built-in chain in such a table. */
  lemma RunHook(t: Chains, fam: Family, dir: Direction, rules: seq<NetRule>, p: Packet, depth: nat)
    requires Whitelist(rules) && Lookup(t, ChainName(dir, fam)) == OwnIfAny(rules) && depth > 0
    ensures Run(t, HookArgs(dir, fam, rules), p, depth)
            == Some(if AlwaysAllowed(dir, p) || SomeRuleMatches(rules, p) then Accept else Reject)
  {
    var defaults := ArgsAll(DefaultRules(dir));
    RunDefaults(t, dir, p, depth);
    if rules == [] {
      assert HookArgs(dir, fam, rules) == defaults;
    } else {
      RunConcat(t, [JumpArgs(dir, fam)], defaults, p, depth);
      RunJump(t, fam, dir, rules, p, depth);
    }
  }

  /** The decision of an installed table at INPUT (OUTPUT), the same for every bound on nested jumps that allows one. */
  lemma InstalledDecision(
    fam: Family, ingress: seq<NetRule>, egress: seq<NetRule>, dir: Direction, p: Packet, depth: nat)
    requires Whitelist(RulesOf(dir, ingress, egress)) && depth > 0
    ensures var t := Installed(fam, ingress, egress);
            Run(t, Bucket(t, HookName(dir)), p, depth)
            == Some(if AlwaysAllowed(dir, p) || SomeRuleMatches(RulesOf(dir, ingress, egress), p) then Accept else Reject)
  {
    HookNames();
    OwnNames(dir, fam);
    InstalledLookup(fam, ingress, egress, HookName(dir));
    InstalledLookup(fam, ingress, egress, ChainName(dir, fam));
    RunHook(Installed(fam, ingress, egress), fam, dir, RulesOf(dir, ingress, egress), p, depth);
  }

  /** The installed table accepts a packet at INPUT (OUTPUT) exactly when it is always allowed or one of the
      ingress (egress) rules matches it. */
  lemma InstalledVerdict(fam: Family, ingress: seq<NetRule>, egress: seq<NetRule>, dir: Direction, p: Packet)
    requires Whitelist(RulesOf(dir, ingress, egress))
    ensures Accepted(Installed(fam, ingress, egress), HookName(dir), p)
            <==> AlwaysAllowed(dir, p) || SomeRuleMatches(RulesOf(dir, ingress, egress), p)
  {
    InstalledDecision(fam, ingress, egress, dir, p, JUMP_LIMIT);
  }

  lemma ForwardVerdict(fam: Family, ingress: seq<NetRule>, egress: seq<NetRule>, p: Packet)
    ensures !Accepted(Installed(fam, ingress, egress), CHAIN_FORWARD, p)
  {
    HookNames();
    InstalledLookup(fam, ingress, egress, CHAIN_FORWARD);
    RunFinalRule(Installed(fam, ingress, egress), REJECT_RULE, p, JUMP_LIMIT);
  }

  /** Two rule lists with the same members, in whatever order and however often, give the same verdicts. */
  lemma OrderPlaysNoPart(
    fam: Family, ingress: seq<NetRule>, egress: seq<NetRule>, ingress': seq<NetRule>, egress': seq<NetRule>,
    dir: Direction, p: Packet)
    requires ToSet(ingress) == ToSet(ingress') && ToSet(egress) == ToSet(egress')
    requires Whitelist(ingress) && Whitelist(egress)
    ensures Accepted(Installed(fam, ingress, egress), HookName(dir), p)
            <==> Accepted(Installed(fam, ingress', egress'), HookName(dir), p)
  {
    var rules, rules' := RulesOf(dir, ingress, egress), RulesOf(dir, ingress', egress');
    assert forall r :: r in rules <==> r in ToSet(rules);
    assert forall r :: r in rules' <==> r in ToSet(rules');
    InstalledVerdict(fam, ingress, egress, dir, p);
    InstalledVerdict(fam, ingress', egress', dir, p);
  }
}
