/** From applicable policies and indexed endpoints to the rules of the four chains. */
module RuleSet {
  import opened Strings
  import opened PolTypes
  import opened EndpointSet

  /** The address without its prefix length. */
  function Host(address: string): string {
    Split(address, '/')[0]
  }

  /** The host part of an address, with or without a prefix length. */
  lemma HostOfAddress(host: string, length: string)
    requires '/' !in host
    ensures Host(host + "/" + length) == host
    ensures Host(host) == host
  {
    SplitAtSeparator(host, '/', length);
    SplitWithoutSeparator(host, '/');
    assert "/" == ['/'];
  }

  /** The rule for one peer address and one port; without ports the two texts are empty. */
  function RuleFor(dir: Direction, address: string, port: string, protocol: string): NetRule {
    match dir
    case Ingress => EMPTY_RULE.(sourceIp := Host(address), sourcePort := port, protocol := protocol)
    case Egress => EMPTY_RULE.(destIp := Host(address), destPort := port, protocol := protocol)
  }

  function PortRule(dir: Direction, address: string, port: PolicyPort): NetRule
    requires port.Defined()
  {
    RuleFor(dir, address, port.port.value.StrVal(), port.protocol.value)
  }

  predicate AllDefined(ports: seq<PolicyPort>) {
    forall i :: 0 <= i < |ports| ==> ports[i].Defined()
  }

  /** The rules an address expands to; None when a nil port or protocol stops the program. */
  function NetRules(dir: Direction, address: string, ports: seq<PolicyPort>): Option<seq<NetRule>> {
    if ports == [] then
      Some([RuleFor(dir, address, "", "")])
    else if AllDefined(ports) then
      Some(seq(|ports|, i requires 0 <= i < |ports| => PortRule(dir, address, ports[i])))
    else
      None
  }

  method NewIngressNetRules(address: string, ports: seq<PolicyPort>) returns (rules: Option<seq<NetRule>>)
    ensures rules == NetRules(Ingress, address, ports)
  {
    if |ports| == 0 {
      return Some([EMPTY_RULE.(sourceIp := Split(address, '/')[0])]);
    }
    var ingressRules := [];
    for i := 0 to |ports|
      invariant |ingressRules| == i
      invariant forall k :: 0 <= k < i ==> ports[k].Defined() && ingressRules[k] == PortRule(Ingress, address, ports[k])
    {
      if !ports[i].Defined() {
        return None;
      }
      ingressRules := ingressRules + [EMPTY_RULE.(
        sourceIp := Split(address, '/')[0],
        sourcePort := ports[i].port.value.StrVal(),
        protocol := ports[i].protocol.value)];
    }
    assert ingressRules == NetRules(Ingress, address, ports).value;
    rules := Some(ingressRules);
  }

  method NewEgressNetRules(address: string, ports: seq<PolicyPort>) returns (rules: Option<seq<NetRule>>)
    ensures rules == NetRules(Egress, address, ports)
  {
    if |ports| == 0 {
      return Some([EMPTY_RULE.(destIp := Split(address, '/')[0])]);
    }
    var egressRules := [];
    for i := 0 to |ports|
      invariant |egressRules| == i
      invariant forall k :: 0 <= k < i ==> ports[k].Defined() && egressRules[k] == PortRule(Egress, address, ports[k])
    {
      if !ports[i].Defined() {
        return None;
      }
      egressRules := egressRules + [EMPTY_RULE.(
        destIp := Split(address, '/')[0],
        destPort := ports[i].port.value.StrVal(),
        protocol := ports[i].protocol.value)];
    }
    assert egressRules == NetRules(Egress, address, ports).value;
    rules := Some(egressRules);
  }

  // ---- Selecting the endpoints of a peer ----

  /** What the label index holds for a selector. */
  ghost function PodHits(byLabel: EndpointBuckets, sel: LabelSelector): set<DanmEp> {
    if sel.matchLabels == map[] || sel.asMap.None? then {}
    else set k, d | k in sel.asMap.value && d in Bucket(byLabel, LabelKey(k, sel.asMap.value[k])) :: d
  }

  ghost function NetworkHits(byNetwork: EndpointBuckets, sels: seq<NetworkSelector>): set<DanmEp> {
    set s, d | s in sels && d in Bucket(byNetwork, NetworkKey(s.name, s.kind)) :: d
  }

  /** Both selections when both found something, otherwise the one that did. */
  ghost function Joined(first: set<DanmEp>, second: set<DanmEp>): set<DanmEp> {
    if first == {} then second else if second == {} then first else first * second
  }

  ghost function PeerEndpoints(depSet: DanmEpSet, peer: Peer): set<DanmEp> {
    Joined(PodHits(depSet.byLabel, peer.podSelector), NetworkHits(depSet.byNetwork, peer.networkSelector))
  }

  /** Endpoints anywhere in the index are told apart by their UID. */
  ghost predicate IndexIdentified(depSet: DanmEpSet) {
    forall d, e :: InIndex(depSet, d) && InIndex(depSet, e) && d.uid == e.uid ==> d == e
  }

  ghost predicate InIndex(depSet: DanmEpSet, d: DanmEp) {
    || (exists key :: key in depSet.byLabel && d in depSet.byLabel[key])
    || (exists key :: key in depSet.byNetwork && d in depSet.byNetwork[key])
  }

  method FilterDepsByPodSelector(depSet: DanmEpSet, podSelector: LabelSelector) returns (selected: seq<DanmEp>)
    ensures ToSet(selected) == PodHits(depSet.byLabel, podSelector)
  {
    selected := [];
    if |podSelector.matchLabels| == 0 {
      return;
    }
    if podSelector.asMap.None? {
      return;
    }
    var selectors := podSelector.asMap.value;
    var rest := selectors.Keys;
    while rest != {}
      invariant rest <= selectors.Keys
      invariant forall d :: d in selected <==>
                  exists k :: k in selectors.Keys - rest && d in Bucket(depSet.byLabel, LabelKey(k, selectors[k]))
    {
      var k :| k in rest;
      selected := selected + Bucket(depSet.byLabel, LabelKey(k, selectors[k]));
      rest := rest - {k};
    }
  }

  method FilterDepsByNetworkSelector(depSet: DanmEpSet, networkSelectors: seq<NetworkSelector>)
    returns (selected: seq<DanmEp>)
    ensures ToSet(selected) == NetworkHits(depSet.byNetwork, networkSelectors)
  {
    selected := [];
    for i := 0 to |networkSelectors|
      invariant ToSet(selected) == NetworkHits(depSet.byNetwork, networkSelectors[..i])
    {
      var s := networkSelectors[i];
      var bucketName := s.name + s.kind;
      if s.kind == "" {
        bucketName := bucketName + DANM_NET_KIND;
      }
      assert bucketName == NetworkKey(s.name, s.kind);
      assert networkSelectors[..i + 1] == networkSelectors[..i] + [s];
      NetworkHitsConcat(depSet.byNetwork, networkSelectors[..i], s);
      selected := selected + Bucket(depSet.byNetwork, bucketName);
    }
    assert networkSelectors[..|networkSelectors|] == networkSelectors;
  }

  lemma NetworkHitsConcat(byNetwork: EndpointBuckets, sels: seq<NetworkSelector>, s: NetworkSelector)
    ensures NetworkHits(byNetwork, sels + [s])
            == NetworkHits(byNetwork, sels) + ToSet(Bucket(byNetwork, NetworkKey(s.name, s.kind)))
  {
    assert forall x :: x in sels + [s] <==> x in sels || x == s;
  }

  /** The members of the first list whose UID occurs in the second; an empty list puts no restriction. */
  method IntersectDepSets(first: seq<DanmEp>, second: seq<DanmEp>) returns (r: seq<DanmEp>)
    ensures first == [] ==> r == second
    ensures first != [] && second == [] ==> r == first
    ensures first != [] && second != []
            ==> ToSet(r) == set d | d in first && exists e :: e in second && e.uid == d.uid
  {
    if |first| == 0 {
      return second;
    } else if |second| == 0 {
      return first;
    }
    var index := {};
    for i := 0 to |second|
      invariant index == Uids(second[..i])
    {
      assert second[..i + 1] == second[..i] + [second[i]];
      index := index + {second[i].uid};
    }
    assert second[..|second|] == second;
    r := [];
    for i := 0 to |first|
      invariant forall d :: d in r <==> d in first[..i] && d.uid in index
    {
      assert forall d :: d in first[..i + 1] <==> d in first[..i] || d == first[i];
      if first[i].uid in index {
        r := r + [first[i]];
      }
    }
    assert first[..|first|] == first;
  }

  /** With UIDs identifying records, the join by UID is the join of the two selections. */
  lemma IntersectionIsJoin(first: seq<DanmEp>, second: seq<DanmEp>, r: seq<DanmEp>)
    requires forall d, e :: d in first && e in second && d.uid == e.uid ==> d == e
    requires first == [] ==> r == second
    requires first != [] && second == [] ==> r == first
    requires first != [] && second != []
             ==> ToSet(r) == set d | d in first && exists e :: e in second && e.uid == d.uid
    ensures ToSet(r) == Joined(ToSet(first), ToSet(second))
  {
    if first != [] {
      assert first[0] in ToSet(first);
      if second != [] {
        assert second[0] in ToSet(second);
      }
    }
  }

  // ---- Expanding endpoints into rules ----

  ghost function AddressRules(dir: Direction, address: string, ports: seq<PolicyPort>): set<NetRule> {
    if ports == [] then {RuleFor(dir, address, "", "")}
    else set port | port in ports && port.Defined() :: PortRule(dir, address, port)
  }

  ghost function Expanded(eps: set<DanmEp>, dir: Direction, fam: Family, ports: seq<PolicyPort>): set<NetRule> {
    set d, r | d in eps && d.HasAddress(fam) && r in AddressRules(dir, d.Address(fam), ports) :: r
  }

  ghost function PeersRules(depSet: DanmEpSet, peers: seq<Peer>, ports: seq<PolicyPort>, dir: Direction, fam: Family)
    : set<NetRule>
  {
    set peer, r | peer in peers && r in Expanded(PeerEndpoints(depSet, peer), dir, fam, ports) :: r
  }

  /** Expanding these endpoints dereferences a nil port or protocol. */
  ghost predicate ExpansionFails(eps: set<DanmEp>, ports: seq<PolicyPort>) {
    !AllDefined(ports) && exists d :: d in eps && (d.HasAddress(V4) || d.HasAddress(V6))
  }

  ghost predicate PeersFail(depSet: DanmEpSet, peers: seq<Peer>, ports: seq<PolicyPort>) {
    exists peer :: peer in peers && ExpansionFails(PeerEndpoints(depSet, peer), ports)
  }

  lemma NetRulesAreAddressRules(dir: Direction, address: string, ports: seq<PolicyPort>)
    ensures NetRules(dir, address, ports).None? <==> !AllDefined(ports)
    ensures AllDefined(ports) ==> ToSet(NetRules(dir, address, ports).value) == AddressRules(dir, address, ports)
  {
    if AllDefined(ports) && ports != [] {
      var rules := NetRules(dir, address, ports).value;
      forall i | 0 <= i < |ports| ensures rules[i] in AddressRules(dir, address, ports) {
        assert ports[i] in ports;
      }
      forall r | r in AddressRules(dir, address, ports) ensures r in rules {
        var port :| port in ports && port.Defined() && r == PortRule(dir, address, port);
        var i :| 0 <= i < |ports| && ports[i] == port;
        assert rules[i] == r;
      }
    }
  }

  /** UIDs tell the endpoints of a list apart. */
  ghost predicate ListIdentified(deps: seq<DanmEp>) {
    forall d, e :: d in deps && e in deps && d.uid == e.uid ==> d == e
  }

  lemma ExpandedOneMore(eps: set<DanmEp>, d: DanmEp, dir: Direction, fam: Family, ports: seq<PolicyPort>)
    ensures Expanded(eps + {d}, dir, fam, ports)
            == Expanded(eps, dir, fam, ports)
               + (if d.HasAddress(fam) then AddressRules(dir, d.Address(fam), ports) else {})
    ensures ExpansionFails(eps + {d}, ports)
            <==> ExpansionFails(eps, ports) || (!AllDefined(ports) && (d.HasAddress(V4) || d.HasAddress(V6)))
  {
  }

  /** What the lists of both families hold once the endpoints `eps` are expanded. */
  ghost predicate HoldsExpansion(
    v4Rules: seq<NetRule>, v6Rules: seq<NetRule>, eps: set<DanmEp>, dir: Direction, ports: seq<PolicyPort>)
  {
    && !ExpansionFails(eps, ports)
    && ToSet(v4Rules) == Expanded(eps, dir, V4, ports)
    && ToSet(v6Rules) == Expanded(eps, dir, V6, ports)
  }

  method NetRulesOf(dir: Direction, address: string, ports: seq<PolicyPort>) returns (rules: Option<seq<NetRule>>)
    ensures rules.None? <==> !AllDefined(ports)
    ensures rules.Some? ==> ToSet(rules.value) == AddressRules(dir, address, ports)
  {
    NetRulesAreAddressRules(dir, address, ports);
    match dir {
      case Ingress => rules := NewIngressNetRules(address, ports);
      case Egress => rules := NewEgressNetRules(address, ports);
    }
  }

  lemma HoldsOneMore(
    v4Rules: seq<NetRule>, v6Rules: seq<NetRule>, eps: set<DanmEp>, dir: Direction, ports: seq<PolicyPort>,
    d: DanmEp, more4: seq<NetRule>, more6: seq<NetRule>)
    requires HoldsExpansion(v4Rules, v6Rules, eps, dir, ports)
    requires d.HasAddress(V4) || d.HasAddress(V6) ==> AllDefined(ports)
    requires ToSet(more4) == if d.HasAddress(V4) then AddressRules(dir, d.address, ports) else {}
    requires ToSet(more6) == if d.HasAddress(V6) then AddressRules(dir, d.addressIPv6, ports) else {}
    ensures HoldsExpansion(v4Rules + more4, v6Rules + more6, eps + {d}, dir, ports)
  {
    ExpandedOneMore(eps, d, dir, V4, ports);
    ExpandedOneMore(eps, d, dir, V6, ports);
    assert ToSet(v4Rules + more4) == ToSet(v4Rules) + ToSet(more4);
    assert ToSet(v6Rules + more6) == ToSet(v6Rules) + ToSet(more6);
  }

  lemma RepeatedUidIsPresent(deps: seq<DanmEp>, i: nat)
    requires i < |deps| && ListIdentified(deps) && deps[i].uid in Uids(deps[..i])
    ensures ToSet(deps[..i]) + {deps[i]} == ToSet(deps[..i])
  {
    var e :| e in deps[..i] && e.uid == deps[i].uid;
    assert e == deps[i];
  }

  /** The inner loop: each endpoint once, each of its addresses into the list of its family. */
  method ExpandEndpoints(deps: seq<DanmEp>, ports: seq<PolicyPort>, dir: Direction)
    returns (rules: Option<(seq<NetRule>, seq<NetRule>)>)
    ensures ListIdentified(deps) ==> (rules.None? <==> ExpansionFails(ToSet(deps), ports))
    ensures ListIdentified(deps) && rules.Some?
            ==> HoldsExpansion(rules.value.0, rules.value.1, ToSet(deps), dir, ports)
  {
    var v4Rules, v6Rules := [], [];
    var depCache := {};
    for i := 0 to |deps|
      invariant depCache == Uids(deps[..i])
      invariant ListIdentified(deps) ==> HoldsExpansion(v4Rules, v6Rules, ToSet(deps[..i]), dir, ports)
    {
      var d := deps[i];
      assert deps[..i + 1] == deps[..i] + [d];
      assert ToSet(deps[..i + 1]) == ToSet(deps[..i]) + {d};
      if d.uid in depCache {
        if ListIdentified(deps) {
          RepeatedUidIsPresent(deps, i);
        }
        continue;
      }
      depCache := depCache + {d.uid};
      var more4, more6 := [], [];
      if d.HasAddress(V4) {
        var r := NetRulesOf(dir, d.address, ports);
        if r.None? {
          assert d in ToSet(deps);
          return None;
        }
        more4 := r.value;
      }
      if d.HasAddress(V6) {
        var r := NetRulesOf(dir, d.addressIPv6, ports);
        if r.None? {
          assert d in ToSet(deps);
          return None;
        }
        more6 := r.value;
      }
      if ListIdentified(deps) {
        HoldsOneMore(v4Rules, v6Rules, ToSet(deps[..i]), dir, ports, d, more4, more6);
      }
      v4Rules, v6Rules := v4Rules + more4, v6Rules + more6;
    }
    assert deps[..|deps|] == deps;
    rules := Some((v4Rules, v6Rules));
  }

  /** Whatever a peer selects comes from the index. */
  lemma HitsAreInIndex(depSet: DanmEpSet, peer: Peer)
    ensures forall d :: d in PodHits(depSet.byLabel, peer.podSelector) ==> InIndex(depSet, d)
    ensures forall d :: d in NetworkHits(depSet.byNetwork, peer.networkSelector) ==> InIndex(depSet, d)
  {
    forall d | d in PodHits(depSet.byLabel, peer.podSelector) ensures InIndex(depSet, d) {
      var sel := peer.podSelector.asMap.value;
      var k :| k in sel && d in Bucket(depSet.byLabel, LabelKey(k, sel[k]));
      assert LabelKey(k, sel[k]) in depSet.byLabel;
    }
    forall d | d in NetworkHits(depSet.byNetwork, peer.networkSelector) ensures InIndex(depSet, d) {
      var s :| s in peer.networkSelector && d in Bucket(depSet.byNetwork, NetworkKey(s.name, s.kind));
      assert NetworkKey(s.name, s.kind) in depSet.byNetwork;
    }
  }

  /** The endpoints of one peer, selected and joined. */
  method SelectEndpoints(depSet: DanmEpSet, peer: Peer) returns (finalDeps: seq<DanmEp>)
    ensures IndexIdentified(depSet) ==> ToSet(finalDeps) == PeerEndpoints(depSet, peer) && ListIdentified(finalDeps)
  {
    var podSelected := FilterDepsByPodSelector(depSet, peer.podSelector);
    var networkSelected := FilterDepsByNetworkSelector(depSet, peer.networkSelector);
    finalDeps := IntersectDepSets(podSelected, networkSelected);
    if IndexIdentified(depSet) {
      HitsAreInIndex(depSet, peer);
      assert forall d :: d in podSelected ==> d in ToSet(podSelected);
      assert forall d :: d in networkSelected ==> d in ToSet(networkSelected);
      IntersectionIsJoin(podSelected, networkSelected, finalDeps);
      assert forall d :: d in finalDeps ==> d in ToSet(finalDeps);
    }
  }

  lemma PeersRulesOneMore(
    depSet: DanmEpSet, peers: seq<Peer>, peer: Peer, ports: seq<PolicyPort>, dir: Direction, fam: Family)
    ensures PeersRules(depSet, peers + [peer], ports, dir, fam)
            == PeersRules(depSet, peers, ports, dir, fam) + Expanded(PeerEndpoints(depSet, peer), dir, fam, ports)
  {
    assert forall x :: x in peers + [peer] <==> x in peers || x == peer;
  }

  lemma PeersFailOneMore(depSet: DanmEpSet, peers: seq<Peer>, peer: Peer, ports: seq<PolicyPort>)
    ensures PeersFail(depSet, peers + [peer], ports)
            <==> PeersFail(depSet, peers, ports) || ExpansionFails(PeerEndpoints(depSet, peer), ports)
  {
    assert forall x :: x in peers + [peer] <==> x in peers || x == peer;
  }

  lemma PeerFailing(depSet: DanmEpSet, peers: seq<Peer>, peer: Peer, ports: seq<PolicyPort>)
    requires peer in peers && ExpansionFails(PeerEndpoints(depSet, peer), ports)
    ensures PeersFail(depSet, peers, ports)
  {
  }

  lemma ToSetConcat<T>(a: seq<T>, b: seq<T>)
    ensures ToSet(a + b) == ToSet(a) + ToSet(b)
  {
  }

  method ParsePolicyRules(depSet: DanmEpSet, peers: seq<Peer>, ports: seq<PolicyPort>, dir: Direction)
    returns (rules: Option<(seq<NetRule>, seq<NetRule>)>)
    ensures IndexIdentified(depSet) ==> (rules.None? <==> PeersFail(depSet, peers, ports))
    ensures IndexIdentified(depSet) && rules.Some?
            ==> && ToSet(rules.value.0) == PeersRules(depSet, peers, ports, dir, V4)
                && ToSet(rules.value.1) == PeersRules(depSet, peers, ports, dir, V6)
  {
    var v4Rules, v6Rules := [], [];
    for i := 0 to |peers|
      invariant IndexIdentified(depSet) ==> !PeersFail(depSet, peers[..i], ports)
      invariant IndexIdentified(depSet) ==> ToSet(v4Rules) == PeersRules(depSet, peers[..i], ports, dir, V4)
      invariant IndexIdentified(depSet) ==> ToSet(v6Rules) == PeersRules(depSet, peers[..i], ports, dir, V6)
    {
      var peer := peers[i];
      var finalDeps := SelectEndpoints(depSet, peer);
      var more := ExpandEndpoints(finalDeps, ports, dir);
      if more.None? {
        if IndexIdentified(depSet) {
          PeerFailing(depSet, peers, peer, ports);
        }
        return None;
      }
      assert peers[..i + 1] == peers[..i] + [peer];
      PeersFailOneMore(depSet, peers[..i], peer, ports);
      ToSetConcat(v4Rules, more.value.0);
      ToSetConcat(v6Rules, more.value.1);
      PeersRulesOneMore(depSet, peers[..i], peer, ports, dir, V4);
      PeersRulesOneMore(depSet, peers[..i], peer, ports, dir, V6);
      v4Rules, v6Rules := v4Rules + more.value.0, v6Rules + more.value.1;
    }
    assert peers[..|peers|] == peers;
    rules := Some((v4Rules, v6Rules));
  }

  // ---- The rule set of a Pod ----

  /** The rules the first section of one direction gives. */
  ghost function PolicyRules(depSet: DanmEpSet, pol: Policy, dir: Direction, fam: Family): set<NetRule> {
    if pol.Sections(dir) == [] then {}
    else PeersRules(depSet, pol.Sections(dir)[0].peers, pol.Sections(dir)[0].ports, dir, fam)
  }

  ghost function PoliciesRules(depSet: DanmEpSet, pols: seq<Policy>, dir: Direction, fam: Family): set<NetRule> {
    set pol, r | pol in pols && r in PolicyRules(depSet, pol, dir, fam) :: r
  }

  ghost predicate PolicyFails(depSet: DanmEpSet, pol: Policy, dir: Direction) {
    pol.Sections(dir) != [] && PeersFail(depSet, pol.Sections(dir)[0].peers, pol.Sections(dir)[0].ports)
  }

  ghost predicate PoliciesFail(depSet: DanmEpSet, pols: seq<Policy>) {
    exists pol :: pol in pols && (PolicyFails(depSet, pol, Ingress) || PolicyFails(depSet, pol, Egress))
  }

  /** The chains hold exactly the rules of the policies, under the chains' own names. */
  ghost predicate IsRuleSet(rs: NetRuleSet, pols: seq<Policy>, depSet: DanmEpSet) {
    forall dir: Direction, fam: Family ::
      && rs.Chain(dir, fam).name == ChainName(dir, fam)
      && ToSet(rs.Chain(dir, fam).rules) == PoliciesRules(depSet, pols, dir, fam)
  }

  lemma PoliciesRulesOneMore(depSet: DanmEpSet, pols: seq<Policy>, pol: Policy, dir: Direction, fam: Family)
    ensures PoliciesRules(depSet, pols + [pol], dir, fam)
            == PoliciesRules(depSet, pols, dir, fam) + PolicyRules(depSet, pol, dir, fam)
  {
    assert forall x :: x in pols + [pol] <==> x in pols || x == pol;
  }

  /** The rules of one direction of one policy; a policy without a section of that direction adds none. */
  method DirectionRules(depSet: DanmEpSet, pol: Policy, dir: Direction)
    returns (rules: Option<(seq<NetRule>, seq<NetRule>)>)
    ensures IndexIdentified(depSet) ==> (rules.None? <==> PolicyFails(depSet, pol, dir))
    ensures IndexIdentified(depSet) && rules.Some?
            ==> && ToSet(rules.value.0) == PolicyRules(depSet, pol, dir, V4)
                && ToSet(rules.value.1) == PolicyRules(depSet, pol, dir, V6)
  {
    var sections := pol.Sections(dir);
    if |sections| > 0 {
      rules := ParsePolicyRules(depSet, sections[0].peers, sections[0].ports, dir);
    } else {
      rules := Some(([], []));
    }
  }

  type RulePair = (seq<NetRule>, seq<NetRule>)

  /** The rule set with the rules of one more policy at the end of its chains. */
  function Extended(rs: NetRuleSet, ingress: RulePair, egress: RulePair): NetRuleSet {
    rs.(ingressV4 := rs.ingressV4.(rules := rs.ingressV4.rules + ingress.0),
        ingressV6 := rs.ingressV6.(rules := rs.ingressV6.rules + ingress.1),
        egressV4 := rs.egressV4.(rules := rs.egressV4.rules + egress.0),
        egressV6 := rs.egressV6.(rules := rs.egressV6.rules + egress.1))
  }

  lemma RuleSetOneMore(
    rs: NetRuleSet, pols: seq<Policy>, depSet: DanmEpSet, pol: Policy, ingress: RulePair, egress: RulePair)
    requires IsRuleSet(rs, pols, depSet)
    requires ToSet(ingress.0) == PolicyRules(depSet, pol, Ingress, V4)
    requires ToSet(ingress.1) == PolicyRules(depSet, pol, Ingress, V6)
    requires ToSet(egress.0) == PolicyRules(depSet, pol, Egress, V4)
    requires ToSet(egress.1) == PolicyRules(depSet, pol, Egress, V6)
    ensures IsRuleSet(Extended(rs, ingress, egress), pols + [pol], depSet)
  {
    var rs' := Extended(rs, ingress, egress);
    forall dir: Direction, fam: Family
      ensures rs'.Chain(dir, fam).name == ChainName(dir, fam)
      ensures ToSet(rs'.Chain(dir, fam).rules) == PoliciesRules(depSet, pols + [pol], dir, fam)
    {
      PoliciesRulesOneMore(depSet, pols, pol, dir, fam);
      assert ToSet(rs.Chain(dir, fam).rules) == PoliciesRules(depSet, pols, dir, fam);
      var more := match (dir, fam)
        case (Ingress, V4) => ingress.0
        case (Ingress, V6) => ingress.1
        case (Egress, V4) => egress.0
        case (Egress, V6) => egress.1;
      assert ToSet(rs.Chain(dir, fam).rules + more) == ToSet(rs.Chain(dir, fam).rules) + ToSet(more);
    }
  }

  method NewNetRuleSet(pols: seq<Policy>, depSet: DanmEpSet) returns (ruleSet: Option<NetRuleSet>)
    requires depSet.podEps != []
    ensures IndexIdentified(depSet) ==> (ruleSet.None? <==> PoliciesFail(depSet, pols))
    ensures IndexIdentified(depSet) && ruleSet.Some? ==> IsRuleSet(ruleSet.value, pols, depSet)
    ensures ruleSet.Some? ==> ruleSet.value.netns == depSet.podEps[0].netns
  {
    var rs := NetRuleSet(
      NetRuleChain(INGRESS_V4_CHAIN_NAME, []), NetRuleChain(INGRESS_V6_CHAIN_NAME, []),
      NetRuleChain(EGRESS_V4_CHAIN_NAME, []), NetRuleChain(EGRESS_V6_CHAIN_NAME, []),
      depSet.podEps[0].netns);
    for i := 0 to |pols|
      invariant IndexIdentified(depSet) ==> !PoliciesFail(depSet, pols[..i])
      invariant IndexIdentified(depSet) ==> IsRuleSet(rs, pols[..i], depSet)
      invariant rs.netns == depSet.podEps[0].netns
    {
      var policy := pols[i];
      var ingress := DirectionRules(depSet, policy, Ingress);
      if ingress.None? {
        assert policy in pols;
        return None;
      }
      var egress := DirectionRules(depSet, policy, Egress);
      if egress.None? {
        assert policy in pols;
        return None;
      }
      assert pols[..i + 1] == pols[..i] + [policy];
      if IndexIdentified(depSet) {
        RuleSetOneMore(rs, pols[..i], depSet, policy, ingress.value, egress.value);
      }
      rs := Extended(rs, ingress.value, egress.value);
    }
    assert pols[..|pols|] == pols;
    ruleSet := Some(rs);
  }
}
