/** What a set of policies means for a packet, stated on the records themselves: no buckets, no rules, no order. */
module PolicyMeaning {
  import opened PolTypes
  import opened PolicySet
  import opened EndpointSet
  import opened RuleSet
  import opened PacketFilter

  ghost predicate OnNetwork(rd: Reading, s: NetworkSelector, d: DanmEp) {
    if rd.ByKey? then NetworkKey(s.name, s.kind) == NetworkKey(d.networkName, d.apiType)
    else s.name == d.networkName && KindOrDefault(s.kind) == KindOrDefault(d.apiType)
  }

  ghost predicate PodChosen(rd: Reading, sel: LabelSelector, d: DanmEp) {
    sel.matchLabels != map[] && sel.asMap.Some? && LabelsMeet(rd, sel.asMap.value, d.labels)
  }

  ghost predicate NetworkChosen(rd: Reading, sels: seq<NetworkSelector>, d: DanmEp) {
    exists s :: s in sels && OnNetwork(rd, s, d)
  }

  ghost function ChosenByPod(rd: Reading, peer: Peer, eps: seq<DanmEp>): set<DanmEp> {
    set d | d in eps && PodChosen(rd, peer.podSelector, d)
  }

  ghost function ChosenByNetwork(rd: Reading, peer: Peer, eps: seq<DanmEp>): set<DanmEp> {
    set d | d in eps && NetworkChosen(rd, peer.networkSelector, d)
  }

  /** The peer picks the endpoint: both selections hold it, or one holds it and the other holds nobody. */
  ghost predicate PeerPicks(rd: Reading, peer: Peer, eps: seq<DanmEp>, d: DanmEp) {
    && d in eps
    && (PodChosen(rd, peer.podSelector, d) || ChosenByPod(rd, peer, eps) == {})
    && (NetworkChosen(rd, peer.networkSelector, d) || ChosenByNetwork(rd, peer, eps) == {})
    && (PodChosen(rd, peer.podSelector, d) || NetworkChosen(rd, peer.networkSelector, d))
  }

  /** The packet comes from (goes to) the address. */
  ghost predicate AtAddress(dir: Direction, address: string, p: Packet) {
    Host(address) == "" || Host(address) in (if dir.Ingress? then p.sources else p.destinations)
  }

  /** The port texts at the peer's end of the packet. */
  ghost function PeerPorts(dir: Direction, p: Packet): iset<string> {
    if dir.Ingress? then p.sourcePorts else p.destPorts
  }

  ghost predicate PortAllows(dir: Direction, port: PolicyPort, p: Packet) {
    && port.Defined()
    && (port.port.value.StrVal() == "" || port.port.value.StrVal() in PeerPorts(dir, p))
    && (port.protocol.value == "" || port.protocol.value in p.protocols)
  }

  ghost predicate PortsAllow(dir: Direction, ports: seq<PolicyPort>, p: Packet) {
    ports == [] || exists port :: port in ports && PortAllows(dir, port, p)
  }

  ghost predicate PeerAllows(
    rd: Reading, peer: Peer, ports: seq<PolicyPort>, eps: seq<DanmEp>, dir: Direction, fam: Family, p: Packet)
  {
    && PortsAllow(dir, ports, p)
    && exists d :: PeerPicks(rd, peer, eps, d) && d.HasAddress(fam) && AtAddress(dir, d.Address(fam), p)
  }

  /** A policy whitelists a packet by its first section of that direction, if it has one. */
  ghost predicate PolicyAllows(rd: Reading, pol: Policy, eps: seq<DanmEp>, dir: Direction, fam: Family, p: Packet) {
    && pol.Sections(dir) != []
    && exists peer :: peer in pol.Sections(dir)[0].peers
                      && PeerAllows(rd, peer, pol.Sections(dir)[0].ports, eps, dir, fam, p)
  }

  ghost predicate Allows(
    rd: Reading, pols: seq<Policy>, eps: seq<DanmEp>, pod: Pod, dir: Direction, fam: Family, p: Packet)
  {
    exists pol :: pol in pols && Applies(rd, pol, pod) && PolicyAllows(rd, pol, eps, dir, fam, p)
  }

  /** Some applicable policy dereferences a nil port or protocol for one of the endpoints it picks. */
  ghost predicate Fails(pols: seq<Policy>, eps: seq<DanmEp>, pod: Pod) {
    exists pol, dir ::
      && pol in pols && Applies(ByKey, pol, pod) && PolicyStops(pol, eps, dir)
  }

  ghost predicate PolicyStops(pol: Policy, eps: seq<DanmEp>, dir: Direction) {
    && pol.Sections(dir) != []
    && !AllDefined(pol.Sections(dir)[0].ports)
    && exists peer, d :: peer in pol.Sections(dir)[0].peers && PeerPicks(ByKey, peer, eps, d)
                         && (d.HasAddress(V4) || d.HasAddress(V6))
  }

  // ---- The compiled rules mean what the policies mean ----

  ghost predicate SomeMatches(rules: set<NetRule>, p: Packet) {
    exists r :: r in rules && RuleMatches(r, p)
  }

  lemma AddressRulesMeaning(dir: Direction, address: string, ports: seq<PolicyPort>, p: Packet)
    ensures SomeMatches(AddressRules(dir, address, ports), p)
            <==> AtAddress(dir, address, p) && PortsAllow(dir, ports, p)
  {
    var rules := AddressRules(dir, address, ports);
    if ports == [] {
      assert RuleFor(dir, address, "", "") in rules;
    } else {
      forall port | port in ports && port.Defined()
        ensures RuleMatches(PortRule(dir, address, port), p) <==> AtAddress(dir, address, p) && PortAllows(dir, port, p)
        ensures PortRule(dir, address, port) in rules
      {
      }
      if AtAddress(dir, address, p) && PortsAllow(dir, ports, p) {
        var port :| port in ports && PortAllows(dir, port, p);
        assert RuleMatches(PortRule(dir, address, port), p);
      }
    }
  }

  /** The label index yields what a scan of the list yields. */
  lemma PodHitsAreScan(depSet: DanmEpSet, eps: seq<DanmEp>, peer: Peer)
    requires IsLabelIndex(depSet.byLabel, eps) && EndpointsIdentified(eps)
    ensures PodHits(depSet.byLabel, peer.podSelector) == ChosenByPod(ByKey, peer, eps)
  {
    var sel := peer.podSelector;
    if sel.matchLabels != map[] && sel.asMap.Some? {
      var m := sel.asMap.value;
      forall k | k in m
        ensures forall d :: d in Bucket(depSet.byLabel, LabelKey(k, m[k])) <==> d in eps && Filed(d, LabelKey(k, m[k]))
      {
        LabelBucketIsScan(eps, LabelKey(k, m[k]));
        assert Bucket(depSet.byLabel, LabelKey(k, m[k])) == LabelBucket(eps, LabelKey(k, m[k]));
      }
      forall d | d in ChosenByPod(ByKey, peer, eps) ensures d in PodHits(depSet.byLabel, sel) {
        var k, l :| k in m && l in d.labels && LabelKey(k, m[k]) == LabelKey(l, d.labels[l]);
        assert Filed(d, LabelKey(k, m[k]));
      }
      forall d | d in PodHits(depSet.byLabel, sel) ensures d in ChosenByPod(ByKey, peer, eps) {
        var k :| k in m && d in Bucket(depSet.byLabel, LabelKey(k, m[k]));
        assert Filed(d, LabelKey(k, m[k]));
      }
    }
  }

  lemma NetworkHitsAreScan(depSet: DanmEpSet, eps: seq<DanmEp>, peer: Peer)
    requires IsNetworkIndex(depSet.byNetwork, eps)
    ensures NetworkHits(depSet.byNetwork, peer.networkSelector) == ChosenByNetwork(ByKey, peer, eps)
  {
    forall s, d | s in peer.networkSelector
      ensures d in Bucket(depSet.byNetwork, NetworkKey(s.name, s.kind)) <==> d in eps && OnNetwork(ByKey, s, d)
    {
      NetworkBucketMembers(eps, NetworkKey(s.name, s.kind), d);
      assert Bucket(depSet.byNetwork, NetworkKey(s.name, s.kind)) == NetworkBucket(eps, NetworkKey(s.name, s.kind));
    }
  }

  /** Selecting through the index refines the join over the whole list, whatever buckets an endpoint lies in. */
  lemma PeerSelectionRefinesJoin(depSet: DanmEpSet, eps: seq<DanmEp>, pod: Pod, peer: Peer)
    requires IsEndpointIndex(depSet, eps, pod) && EndpointsIdentified(eps)
    ensures PeerEndpoints(depSet, peer) == set d | d in eps && PeerPicks(ByKey, peer, eps, d)
  {
    PodHitsAreScan(depSet, eps, peer);
    NetworkHitsAreScan(depSet, eps, peer);
    var first, second := ChosenByPod(ByKey, peer, eps), ChosenByNetwork(ByKey, peer, eps);
    forall d | d in eps
      ensures PodChosen(ByKey, peer.podSelector, d) <==> d in first
      ensures NetworkChosen(ByKey, peer.networkSelector, d) <==> d in second
    {
    }
  }

  lemma IndexOfIdentifiedList(depSet: DanmEpSet, eps: seq<DanmEp>, pod: Pod)
    requires IsEndpointIndex(depSet, eps, pod) && EndpointsIdentified(eps)
    ensures IndexIdentified(depSet)
  {
    forall d | InIndex(depSet, d) ensures d in eps {
      if key :| key in depSet.byLabel && d in depSet.byLabel[key] {
        assert Bucket(depSet.byLabel, key) == LabelBucket(eps, key);
        LabelBucketIsScan(eps, key);
      } else {
        var key :| key in depSet.byNetwork && d in depSet.byNetwork[key];
        assert Bucket(depSet.byNetwork, key) == NetworkBucket(eps, key);
        NetworkBucketMembers(eps, key, d);
      }
    }
  }

  lemma PeerRulesMeaning(
    depSet: DanmEpSet, eps: seq<DanmEp>, pod: Pod, peer: Peer, ports: seq<PolicyPort>,
    dir: Direction, fam: Family, p: Packet)
    requires IsEndpointIndex(depSet, eps, pod) && EndpointsIdentified(eps)
    ensures SomeMatches(Expanded(PeerEndpoints(depSet, peer), dir, fam, ports), p)
            <==> PeerAllows(ByKey, peer, ports, eps, dir, fam, p)
  {
    PeerSelectionRefinesJoin(depSet, eps, pod, peer);
    var picked := PeerEndpoints(depSet, peer);
    var rules := Expanded(picked, dir, fam, ports);
    if SomeMatches(rules, p) {
      var r :| r in rules && RuleMatches(r, p);
      var d :| d in picked && d.HasAddress(fam) && r in AddressRules(dir, d.Address(fam), ports);
      AddressRulesMeaning(dir, d.Address(fam), ports, p);
    }
    if PeerAllows(ByKey, peer, ports, eps, dir, fam, p) {
      var d :| PeerPicks(ByKey, peer, eps, d) && d.HasAddress(fam) && AtAddress(dir, d.Address(fam), p);
      AddressRulesMeaning(dir, d.Address(fam), ports, p);
      var r :| r in AddressRules(dir, d.Address(fam), ports) && RuleMatches(r, p);
      assert r in rules;
    }
  }

  lemma PolicyRulesMeaning(
    depSet: DanmEpSet, eps: seq<DanmEp>, pod: Pod, pol: Policy, dir: Direction, fam: Family, p: Packet)
    requires IsEndpointIndex(depSet, eps, pod) && EndpointsIdentified(eps)
    ensures SomeMatches(PolicyRules(depSet, pol, dir, fam), p) <==> PolicyAllows(ByKey, pol, eps, dir, fam, p)
  {
    if pol.Sections(dir) != [] {
      var section := pol.Sections(dir)[0];
      forall peer
        ensures SomeMatches(Expanded(PeerEndpoints(depSet, peer), dir, fam, section.ports), p)
                <==> PeerAllows(ByKey, peer, section.ports, eps, dir, fam, p)
      {
        PeerRulesMeaning(depSet, eps, pod, peer, section.ports, dir, fam, p);
      }
      var rules := PeersRules(depSet, section.peers, section.ports, dir, fam);
      if SomeMatches(rules, p) {
        var r :| r in rules && RuleMatches(r, p);
        var peer :| peer in section.peers && r in Expanded(PeerEndpoints(depSet, peer), dir, fam, section.ports);
        assert SomeMatches(Expanded(PeerEndpoints(depSet, peer), dir, fam, section.ports), p);
      }
      if PolicyAllows(ByKey, pol, eps, dir, fam, p) {
        var peer :| peer in section.peers && PeerAllows(ByKey, peer, section.ports, eps, dir, fam, p);
        var r :| r in Expanded(PeerEndpoints(depSet, peer), dir, fam, section.ports) && RuleMatches(r, p);
        assert r in rules;
      }
    }
  }

  /** Some rule compiled for a chain matches a packet exactly when some applicable policy whitelists the packet. */
  lemma CompiledRulesMeaning(
    pols: seq<Policy>, applicable: seq<Policy>, depSet: DanmEpSet, eps: seq<DanmEp>, pod: Pod,
    dir: Direction, fam: Family, p: Packet)
    requires IsApplicable(applicable, pols, pod) && PoliciesIdentified(pols)
    requires IsEndpointIndex(depSet, eps, pod) && EndpointsIdentified(eps)
    ensures SomeMatches(PoliciesRules(depSet, applicable, dir, fam), p) <==> Allows(ByKey, pols, eps, pod, dir, fam, p)
  {
    ApplicableIsScan(applicable, pols, pod);
    assert forall pol :: pol in applicable <==> pol in ToSet(applicable);
    assert forall pol :: pol in pols && Applies(ByKey, pol, pod) <==> pol in applicable;
    forall pol
      ensures SomeMatches(PolicyRules(depSet, pol, dir, fam), p) <==> PolicyAllows(ByKey, pol, eps, dir, fam, p)
    {
      PolicyRulesMeaning(depSet, eps, pod, pol, dir, fam, p);
    }
    var rules := PoliciesRules(depSet, applicable, dir, fam);
    if SomeMatches(rules, p) {
      var r :| r in rules && RuleMatches(r, p);
      var pol :| pol in applicable && r in PolicyRules(depSet, pol, dir, fam);
      assert SomeMatches(PolicyRules(depSet, pol, dir, fam), p);
    }
    if Allows(ByKey, pols, eps, pod, dir, fam, p) {
      var pol :| pol in pols && Applies(ByKey, pol, pod) && PolicyAllows(ByKey, pol, eps, dir, fam, p);
      var r :| r in PolicyRules(depSet, pol, dir, fam) && RuleMatches(r, p);
      assert r in rules;
    }
  }

  /** Compilation stops at a nil pointer exactly when the policies and endpoints say so. */
  lemma CompilationFailure(pols: seq<Policy>, applicable: seq<Policy>, depSet: DanmEpSet, eps: seq<DanmEp>, pod: Pod)
    requires IsApplicable(applicable, pols, pod) && PoliciesIdentified(pols)
    requires IsEndpointIndex(depSet, eps, pod) && EndpointsIdentified(eps)
    ensures PoliciesFail(depSet, applicable) <==> Fails(pols, eps, pod)
  {
    ApplicableIsScan(applicable, pols, pod);
    assert forall pol :: pol in applicable <==> pol in ToSet(applicable);
    assert forall pol :: pol in pols && Applies(ByKey, pol, pod) <==> pol in applicable;
    forall pol, dir ensures PolicyFails(depSet, pol, dir) <==> PolicyStops(pol, eps, dir) {
      PolicyFailure(depSet, eps, pod, pol, dir);
    }
  }

  lemma PolicyFailure(depSet: DanmEpSet, eps: seq<DanmEp>, pod: Pod, pol: Policy, dir: Direction)
    requires IsEndpointIndex(depSet, eps, pod) && EndpointsIdentified(eps)
    ensures PolicyFails(depSet, pol, dir) <==> PolicyStops(pol, eps, dir)
  {
    forall peer ensures PeerEndpoints(depSet, peer) == set d | d in eps && PeerPicks(ByKey, peer, eps, d) {
      PeerSelectionRefinesJoin(depSet, eps, pod, peer);
    }
    if PolicyStops(pol, eps, dir) {
      var peer, d :| peer in pol.Sections(dir)[0].peers && PeerPicks(ByKey, peer, eps, d)
                     && (d.HasAddress(V4) || d.HasAddress(V6));
      assert d in PeerEndpoints(depSet, peer);
      assert ExpansionFails(PeerEndpoints(depSet, peer), pol.Sections(dir)[0].ports);
    }
  }
}
