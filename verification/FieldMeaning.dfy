/** What the policies mean for a packet once more, spelled out on the fields of the records and with the literal texts:
    an independent reading that shares no definition with the model of the code. */
module FieldMeaning {
  import opened Strings
  import opened PolTypes
  import opened PolicySet
  import opened RuleSet
  import opened PolicyMeaning
  import opened PacketFilter
  import opened Verdicts

  /** Some label of the one map and some of the other make the same text. */
  ghost predicate TextsMeet(m: map<string, string>, labels: map<string, string>) {
    exists k, l :: k in m && l in labels && k + m[k] == l + labels[l]
  }

  /** The policy is for this Pod. */
  ghost predicate IsFor(pol: Policy, pod: Pod) {
    match pol.podSelector.asMap
    case None => false
    case Some(m) => m == map[] || TextsMeet(m, pod.labels)
  }

  ghost predicate ByPod(peer: Peer, d: DanmEp) {
    match peer.podSelector.asMap
    case None => false
    case Some(m) => peer.podSelector.matchLabels != map[] && TextsMeet(m, d.labels)
  }

  ghost predicate ByNetwork(peer: Peer, d: DanmEp) {
    exists s :: s in peer.networkSelector
                && s.name + (if s.kind == "" then "DanmNet" else s.kind)
                   == d.networkName + (if d.apiType == "" then "DanmNet" else d.apiType)
  }

  /** The peer uses the endpoint: of two selections the common part, but the whole of one if the other is empty. */
  ghost predicate Uses(peer: Peer, eps: seq<DanmEp>, d: DanmEp) {
    && d in eps
    && if forall e :: e in eps ==> !ByPod(peer, e) then ByNetwork(peer, d)
       else if forall e :: e in eps ==> !ByNetwork(peer, e) then ByPod(peer, d)
       else ByPod(peer, d) && ByNetwork(peer, d)
  }

  /** The address text of a family. */
  function TextOf(d: DanmEp, fam: Family): string {
    match fam
    case V4 => d.address
    case V6 => d.addressIPv6
  }

  /** The text up to its first slash, if it has one. */
  predicate IsHostPart(host: string, text: string) {
    && '/' !in host
    && (text == host || (|text| > |host| && text[|host|] == '/' && text[..|host|] == host))
  }

  /** The endpoint has an address of the family at which the packet is. */
  ghost predicate IsAt(d: DanmEp, dir: Direction, fam: Family, p: Packet) {
    && TextOf(d, fam) != "" && TextOf(d, fam) != "none"
    && exists host :: IsHostPart(host, TextOf(d, fam))
                      && match dir
                         case Ingress => host == "" || host in p.sources
                         case Egress => host == "" || host in p.destinations
  }

  /** The port lets the packet pass: a number says nothing, and an empty text neither. */
  ghost predicate PortPasses(port: PolicyPort, dir: Direction, p: Packet) {
    && port.port.Some? && port.protocol.Some?
    && (port.protocol.value == "" || port.protocol.value in p.protocols)
    && match port.port.value
       case Int(_) => true
       case Str(text) =>
         match dir
         case Ingress => text == "" || text in p.sourcePorts
         case Egress => text == "" || text in p.destPorts
  }

  /** The section that counts: the first. */
  function FirstSection(pol: Policy, dir: Direction): Option<Section> {
    match dir
    case Ingress => if pol.ingress == [] then None else Some(pol.ingress[0])
    case Egress => if pol.egress == [] then None else Some(pol.egress[0])
  }

  ghost predicate PolicyPasses(pol: Policy, eps: seq<DanmEp>, dir: Direction, fam: Family, p: Packet) {
    match FirstSection(pol, dir)
    case None => false
    case Some(section) =>
      && (section.ports == [] || exists port :: port in section.ports && PortPasses(port, dir, p))
      && exists peer, d :: peer in section.peers && Uses(peer, eps, d) && IsAt(d, dir, fam, p)
  }

  /** A packet that isolation lets through without a policy. */
  ghost predicate NeedsNoPolicy(dir: Direction, p: Packet) {
    || p.state == Established || p.state == Related
    || match dir
       case Ingress => p.inIface == "lo"
       case Egress =>
         || p.outIface == "lo"
         || (("tcp" in p.protocols || "udp" in p.protocols) && "53" in p.destPorts && p.state == New)
  }

  /** The packet passes: without a policy, or by one that is for the Pod. */
  ghost predicate PassesByFields(pols: seq<Policy>, eps: seq<DanmEp>, pod: Pod, dir: Direction, fam: Family, p: Packet) {
    NeedsNoPolicy(dir, p) || exists pol :: pol in pols && IsFor(pol, pod) && PolicyPasses(pol, eps, dir, fam, p)
  }

  // ---- The two meanings agree ----

  lemma HostIsHostPart(text: string, host: string)
    ensures IsHostPart(host, text) <==> host == Host(text)
  {
    HostPartExists(text);
    if IsHostPart(host, text) {
      if text == host {
        SplitWithoutSeparator(host, '/');
      } else {
        assert text == host + ['/'] + text[|host| + 1..];
        SplitAtSeparator(host, '/', text[|host| + 1..]);
      }
    }
  }

  lemma {:induction false} HostPartExists(text: string)
    ensures IsHostPart(Host(text), text)
  {
    if text != "" && text[0] != '/' {
      HostPartExists(text[1..]);
      var rest := Host(text[1..]);
      assert Host(text) == [text[0]] + rest;
      assert text == [text[0]] + text[1..];
    }
  }

  lemma KeysAreTexts(m: map<string, string>, labels: map<string, string>)
    ensures KeysMeet(m, labels) <==> TextsMeet(m, labels)
  {
    forall k, l | k in m && l in labels
      ensures LabelKey(k, m[k]) == LabelKey(l, labels[l]) <==> k + m[k] == l + labels[l]
    {
      LabelKeysCollide(k, m[k], l, labels[l]);
    }
  }

  lemma ApplyingIsFor(pol: Policy, pod: Pod)
    ensures Applies(ByKey, pol, pod) <==> IsFor(pol, pod)
  {
    if pol.podSelector.asMap.Some? {
      KeysAreTexts(pol.podSelector.asMap.value, pod.labels);
    }
  }

  lemma ChoosingIsBy(peer: Peer, d: DanmEp)
    ensures PodChosen(ByKey, peer.podSelector, d) <==> ByPod(peer, d)
    ensures NetworkChosen(ByKey, peer.networkSelector, d) <==> ByNetwork(peer, d)
  {
    if peer.podSelector.asMap.Some? {
      KeysAreTexts(peer.podSelector.asMap.value, d.labels);
    }
    forall s ensures OnNetwork(ByKey, s, d) <==> s.name + (if s.kind == "" then "DanmNet" else s.kind)
                                                 == d.networkName + (if d.apiType == "" then "DanmNet" else d.apiType)
    {
    }
  }

  lemma PickingIsUsing(peer: Peer, eps: seq<DanmEp>, d: DanmEp)
    ensures PeerPicks(ByKey, peer, eps, d) <==> Uses(peer, eps, d)
  {
    forall e
      ensures PodChosen(ByKey, peer.podSelector, e) <==> ByPod(peer, e)
      ensures NetworkChosen(ByKey, peer.networkSelector, e) <==> ByNetwork(peer, e)
    {
      ChoosingIsBy(peer, e);
    }
    assert ChosenByPod(ByKey, peer, eps) == {} <==> forall e :: e in eps ==> !ByPod(peer, e) by {
      assert forall e :: e in ChosenByPod(ByKey, peer, eps) <==> e in eps && ByPod(peer, e);
    }
    assert ChosenByNetwork(ByKey, peer, eps) == {} <==> forall e :: e in eps ==> !ByNetwork(peer, e) by {
      assert forall e :: e in ChosenByNetwork(ByKey, peer, eps) <==> e in eps && ByNetwork(peer, e);
    }
  }

  lemma AddressingIsAt(d: DanmEp, dir: Direction, fam: Family, p: Packet)
    ensures d.HasAddress(fam) <==> TextOf(d, fam) != "" && TextOf(d, fam) != "none"
    ensures d.HasAddress(fam) && AtAddress(dir, d.Address(fam), p) <==> IsAt(d, dir, fam, p)
  {
    HostPartExists(TextOf(d, fam));
    forall host | IsHostPart(host, TextOf(d, fam)) ensures host == Host(TextOf(d, fam)) {
      HostIsHostPart(TextOf(d, fam), host);
    }
  }

  lemma PortAllowsIsPasses(port: PolicyPort, dir: Direction, p: Packet)
    ensures PortAllows(dir, port, p) <==> PortPasses(port, dir, p)
  {
  }

  lemma PolicyAllowsIsPasses(pol: Policy, eps: seq<DanmEp>, dir: Direction, fam: Family, p: Packet)
    ensures PolicyAllows(ByKey, pol, eps, dir, fam, p) <==> PolicyPasses(pol, eps, dir, fam, p)
  {
    forall port ensures PortAllows(dir, port, p) <==> PortPasses(port, dir, p) {
      PortAllowsIsPasses(port, dir, p);
    }
    forall peer, d ensures PeerPicks(ByKey, peer, eps, d) <==> Uses(peer, eps, d) {
      PickingIsUsing(peer, eps, d);
    }
    forall d: DanmEp ensures d.HasAddress(fam) && AtAddress(dir, d.Address(fam), p) <==> IsAt(d, dir, fam, p) {
      AddressingIsAt(d, dir, fam, p);
    }
    if pol.Sections(dir) != [] {
      var section := pol.Sections(dir)[0];
      assert FirstSection(pol, dir) == Some(section);
      if PolicyAllows(ByKey, pol, eps, dir, fam, p) {
        var peer :| peer in section.peers && PeerAllows(ByKey, peer, section.ports, eps, dir, fam, p);
        var d :| PeerPicks(ByKey, peer, eps, d) && d.HasAddress(fam) && AtAddress(dir, d.Address(fam), p);
        assert Uses(peer, eps, d) && IsAt(d, dir, fam, p);
      }
      if PolicyPasses(pol, eps, dir, fam, p) {
        var peer, d :| peer in section.peers && Uses(peer, eps, d) && IsAt(d, dir, fam, p);
        assert PeerAllows(ByKey, peer, section.ports, eps, dir, fam, p);
      }
    }
  }

  lemma AlwaysAllowedIsFields(dir: Direction, p: Packet)
    ensures AlwaysAllowed(dir, p) <==> NeedsNoPolicy(dir, p)
  {
  }

  /** The meaning that the model's theorems speak of is the one on the fields. */
  lemma MeaningOnFields(pols: seq<Policy>, eps: seq<DanmEp>, pod: Pod, dir: Direction, fam: Family, p: Packet)
    ensures AlwaysAllowed(dir, p) || Allows(ByKey, pols, eps, pod, dir, fam, p)
            <==> PassesByFields(pols, eps, pod, dir, fam, p)
  {
    AlwaysAllowedIsFields(dir, p);
    forall pol
      ensures Applies(ByKey, pol, pod) <==> IsFor(pol, pod)
      ensures PolicyAllows(ByKey, pol, eps, dir, fam, p) <==> PolicyPasses(pol, eps, dir, fam, p)
    {
      ApplyingIsFor(pol, pod);
      PolicyAllowsIsPasses(pol, eps, dir, fam, p);
    }
  }

  /** The program stops: a policy for the Pod has a first section in which a port or a protocol is missing, and a peer
      of it uses an endpoint that has some address. */
  ghost predicate StopsByFields(pols: seq<Policy>, eps: seq<DanmEp>, pod: Pod) {
    exists pol, dir: Direction, peer, d ::
      && pol in pols && IsFor(pol, pod)
      && FirstSection(pol, dir).Some? && peer in FirstSection(pol, dir).value.peers && Uses(peer, eps, d)
      && (exists port :: port in FirstSection(pol, dir).value.ports && (port.port.None? || port.protocol.None?))
      && ((d.address != "" && d.address != "none") || (d.addressIPv6 != "" && d.addressIPv6 != "none"))
  }

  lemma PolicyStopsOnFields(pol: Policy, eps: seq<DanmEp>, dir: Direction)
    ensures PolicyStops(pol, eps, dir)
            <==> exists peer, d ::
                   && FirstSection(pol, dir).Some? && peer in FirstSection(pol, dir).value.peers && Uses(peer, eps, d)
                   && (exists port :: port in FirstSection(pol, dir).value.ports && (port.port.None? || port.protocol.None?))
                   && ((d.address != "" && d.address != "none") || (d.addressIPv6 != "" && d.addressIPv6 != "none"))
  {
    forall peer, d ensures PeerPicks(ByKey, peer, eps, d) <==> Uses(peer, eps, d) {
      PickingIsUsing(peer, eps, d);
    }
    forall d: DanmEp
      ensures d.HasAddress(V4) <==> d.address != "" && d.address != "none"
      ensures d.HasAddress(V6) <==> d.addressIPv6 != "" && d.addressIPv6 != "none"
    {
    }
    if pol.Sections(dir) != [] {
      var section := pol.Sections(dir)[0];
      assert FirstSection(pol, dir) == Some(section);
      UndefinedPort(section.ports);
    }
  }

  lemma UndefinedPort(ports: seq<PolicyPort>)
    ensures !AllDefined(ports) <==> exists port :: port in ports && (port.port.None? || port.protocol.None?)
  {
    if !AllDefined(ports) {
      var i :| 0 <= i < |ports| && !ports[i].Defined();
      assert ports[i] in ports;
    }
  }

  /** The condition under which the model's run stops is the one on the fields. */
  lemma FailsOnFields(pols: seq<Policy>, eps: seq<DanmEp>, pod: Pod)
    ensures Fails(pols, eps, pod) <==> StopsByFields(pols, eps, pod)
  {
    forall pol, dir
      ensures Applies(ByKey, pol, pod) <==> IsFor(pol, pod)
      ensures PolicyStops(pol, eps, dir)
              <==> exists peer, d ::
                     && FirstSection(pol, dir).Some? && peer in FirstSection(pol, dir).value.peers && Uses(peer, eps, d)
                     && (exists port :: port in FirstSection(pol, dir).value.ports && (port.port.None? || port.protocol.None?))
                     && ((d.address != "" && d.address != "none") || (d.addressIPv6 != "" && d.addressIPv6 != "none"))
    {
      ApplyingIsFor(pol, pod);
      PolicyStopsOnFields(pol, eps, dir);
    }
  }
}
