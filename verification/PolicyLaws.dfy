/** Laws of the policy meaning: where it agrees with its documentation, and what adding to a policy set does. */
module PolicyLaws {
  import opened PolTypes
  import opened PolicySet
  import opened RuleSet
  import opened EndpointSet
  import opened PolicyMeaning
  import opened PacketFilter

  // ---- Bucket keys and the labels and networks they stand for ----

  ghost predicate SelectorUnambiguous(sel: LabelSelector, labels: Labels) {
    sel.asMap.Some? ==> Unambiguous(sel.asMap.value, labels)
  }

  ghost predicate NetworkNamed(d: DanmEp) {
    IsObjectName(d.networkName) && IsKind(d.apiType)
  }

  ghost predicate PeerNamed(peer: Peer) {
    forall s :: s in peer.networkSelector ==> IsObjectName(s.name) && IsKind(s.kind)
  }

  /** Names as the API server admits them, and label pairs that do not run into each other. */
  ghost predicate KeysUnambiguous(pols: seq<Policy>, eps: seq<DanmEp>, pod: Pod) {
    && (forall d :: d in eps ==> NetworkNamed(d))
    && (forall pol :: pol in pols ==> SelectorUnambiguous(pol.podSelector, pod.labels))
    && (forall pol, dir: Direction, peer ::
          pol in pols && pol.Sections(dir) != [] && peer in pol.Sections(dir)[0].peers ==>
            PeerNamed(peer) && forall d :: d in eps ==> SelectorUnambiguous(peer.podSelector, d.labels))
  }

  // ---- Readings that select the same ----

  ghost predicate SamePeerSelections(rd: Reading, rd': Reading, peer: Peer, eps: seq<DanmEp>) {
    forall d :: d in eps ==>
      && (PodChosen(rd, peer.podSelector, d) <==> PodChosen(rd', peer.podSelector, d))
      && (NetworkChosen(rd, peer.networkSelector, d) <==> NetworkChosen(rd', peer.networkSelector, d))
  }

  /** A peer of a section that is read. */
  ghost predicate FirstPeerOf(pols: seq<Policy>, peer: Peer) {
    exists pol, dir: Direction :: pol in pols && pol.Sections(dir) != [] && peer in pol.Sections(dir)[0].peers
  }

  ghost predicate SameSelections(rd: Reading, rd': Reading, pols: seq<Policy>, eps: seq<DanmEp>, pod: Pod) {
    && (forall pol :: pol in pols ==> (Applies(rd, pol, pod) <==> Applies(rd', pol, pod)))
    && (forall peer :: FirstPeerOf(pols, peer) ==> SamePeerSelections(rd, rd', peer, eps))
  }

  lemma SamePicks(rd: Reading, rd': Reading, peer: Peer, eps: seq<DanmEp>, d: DanmEp)
    requires SamePeerSelections(rd, rd', peer, eps)
    ensures PeerPicks(rd, peer, eps, d) <==> PeerPicks(rd', peer, eps, d)
  {
    assert ChosenByPod(rd, peer, eps) == ChosenByPod(rd', peer, eps);
    assert ChosenByNetwork(rd, peer, eps) == ChosenByNetwork(rd', peer, eps);
  }

  /** Readings that select the same give policies the same meaning. */
  lemma SameSelectionsSameMeaning(
    rd: Reading, rd': Reading, pols: seq<Policy>, eps: seq<DanmEp>, pod: Pod, dir: Direction, fam: Family, p: Packet)
    requires SameSelections(rd, rd', pols, eps, pod)
    ensures Allows(rd, pols, eps, pod, dir, fam, p) <==> Allows(rd', pols, eps, pod, dir, fam, p)
  {
    forall pol | pol in pols
      ensures PolicyAllows(rd, pol, eps, dir, fam, p) <==> PolicyAllows(rd', pol, eps, dir, fam, p)
    {
      if pol.Sections(dir) != [] {
        var section := pol.Sections(dir)[0];
        forall peer, d | peer in section.peers
          ensures PeerPicks(rd, peer, eps, d) <==> PeerPicks(rd', peer, eps, d)
        {
          assert FirstPeerOf(pols, peer);
          SamePicks(rd, rd', peer, eps, d);
        }
      }
    }
  }

  lemma UnambiguousPeer(peer: Peer, eps: seq<DanmEp>)
    requires PeerNamed(peer)
    requires forall d :: d in eps ==> NetworkNamed(d) && SelectorUnambiguous(peer.podSelector, d.labels)
    ensures SamePeerSelections(ByKey, ByLabel, peer, eps)
  {
    forall d | d in eps
      ensures PodChosen(ByKey, peer.podSelector, d) <==> PodChosen(ByLabel, peer.podSelector, d)
      ensures NetworkChosen(ByKey, peer.networkSelector, d) <==> NetworkChosen(ByLabel, peer.networkSelector, d)
    {
      if peer.podSelector.asMap.Some? {
        KeysMeetExactly(peer.podSelector.asMap.value, d.labels);
      }
      forall s | s in peer.networkSelector ensures OnNetwork(ByKey, s, d) <==> OnNetwork(ByLabel, s, d) {
        NetworkKeyInjective(s.name, s.kind, d.networkName, d.apiType);
      }
    }
  }

  /** With unambiguous keys, meeting in a bucket is sharing a label and being on a named network. */
  lemma ReadingsAgree(
    pols: seq<Policy>, eps: seq<DanmEp>, pod: Pod, dir: Direction, fam: Family, p: Packet)
    requires KeysUnambiguous(pols, eps, pod)
    ensures SameSelections(ByKey, ByLabel, pols, eps, pod)
    ensures Allows(ByKey, pols, eps, pod, dir, fam, p) <==> Allows(ByLabel, pols, eps, pod, dir, fam, p)
  {
    forall pol | pol in pols ensures Applies(ByKey, pol, pod) <==> Applies(ByLabel, pol, pod) {
      if pol.podSelector.asMap.Some? {
        KeysMeetExactly(pol.podSelector.asMap.value, pod.labels);
      }
    }
    forall peer | FirstPeerOf(pols, peer) ensures SamePeerSelections(ByKey, ByLabel, peer, eps) {
      UnambiguousPeer(peer, eps);
    }
    SameSelectionsSameMeaning(ByKey, ByLabel, pols, eps, pod, dir, fam, p);
  }

  // ---- Any one label, or all of them ----

  predicate OneLabel(sel: LabelSelector) {
    sel.asMap.Some? ==> |sel.asMap.value| <= 1
  }

  /** The library flattens the selector, into no more than one label, or nothing could match it anyway. */
  ghost predicate SelectorSound(sel: LabelSelector) {
    if sel.asMap.Some? then OneLabel(sel) else forall labels :: !MatchesUpstream(sel, labels)
  }

  /** A policy applies to the Pods its selector is documented to select exactly when the selector is flattened into no
      more than one label, or contradicts itself. A flattened one selects too many, if anything, one that is not
      flattened nobody. */
  lemma AppliesAsDocumentedExactly(pol: Policy)
    requires Flattens(pol.podSelector)
    ensures (forall pod: Pod :: Applies(ByLabel, pol, pod) <==> MatchesUpstream(pol.podSelector, pod.labels))
            <==> SelectorSound(pol.podSelector)
    ensures pol.podSelector.asMap.Some?
            ==> forall pod: Pod :: MatchesUpstream(pol.podSelector, pod.labels) ==> Applies(ByLabel, pol, pod)
    ensures pol.podSelector.asMap.None? ==> forall pod :: !Applies(ByLabel, pol, pod)
  {
    var sel := pol.podSelector;
    if sel.asMap.Some? {
      AnyLabelIsAllExactly(sel.asMap.value);
      if |sel.asMap.value| > 1 {
        var b :| SharesLabel(sel.asMap.value, b) && !CarriesAll(sel.asMap.value, b);
        var pod := Pod("", "", "", "", b);
        assert Applies(ByLabel, pol, pod) && !MatchesUpstream(sel, pod.labels);
      }
    } else if !SelectorSound(sel) {
      var b :| MatchesUpstream(sel, b);
      var pod := Pod("", "", "", "", b);
      assert !Applies(ByLabel, pol, pod) && MatchesUpstream(sel, pod.labels);
    }
  }

  /** The code looks at the selector: it passes over one without plain labels, or that is not flattened. */
  predicate LookedAt(sel: LabelSelector) {
    sel.matchLabels != map[] && sel.asMap.Some?
  }

  /** A selector chooses the endpoints it is documented to select exactly when the code looks at it and it is flattened
      into one label, or when it is not flattened and contradicts itself. */
  lemma PodChosenAsDocumentedExactly(sel: LabelSelector)
    requires Flattens(sel)
    ensures (forall d :: PodChosen(ByLabel, sel, d) <==> MatchesUpstream(sel, d.labels))
            <==> if sel.asMap.Some? then LookedAt(sel) && |sel.asMap.value| == 1 else SelectorSound(sel)
  {
    if sel.asMap.None? {
      if !SelectorSound(sel) {
        var b :| MatchesUpstream(sel, b);
        assert MatchesUpstream(sel, ENDPOINT_OF_NOBODY.(labels := b).labels);
      }
    } else {
      var m := sel.asMap.value;
      AnyLabelIsAllExactly(m);
      if !LookedAt(sel) || m == map[] {
        var d := ENDPOINT_OF_NOBODY.(labels := m);
        assert !PodChosen(ByLabel, sel, d) && MatchesUpstream(sel, d.labels);
      } else if |m| > 1 {
        var b :| SharesLabel(m, b) && !CarriesAll(m, b);
        var d := ENDPOINT_OF_NOBODY.(labels := b);
        assert PodChosen(ByLabel, sel, d) && !MatchesUpstream(sel, d.labels);
      }
    }
  }

  const ENDPOINT_OF_NOBODY := DanmEp("", "", "", map[], "", "", "", "", "", "", "", "")

  /** A selector of two labels, and a Pod and an endpoint with one of them, which it nevertheless selects. */
  lemma OneLabelSelects()
    ensures var both := map["app" := "web", "tier" := "db"];
            var sel := LabelSelector(both, [], Some(both));
            var pol := Policy("", sel, [], []);
            var pod := Pod("", "", "", "", map["app" := "web"]);
            var d := ENDPOINT_OF_NOBODY.(labels := map["app" := "web"]);
            && Applies(ByKey, pol, pod) && PodChosen(ByKey, sel, d) && !MatchesUpstream(sel, map["app" := "web"])
  {
    OneLabelIsNotAll();
    var both := map["app" := "web", "tier" := "db"];
    assert "app" in both && "tier" in both && "tier" !in map["app" := "web"];
  }

  /** A selector for every Pod with the label app, which the library does not flatten: it selects no Pod and chooses no
      endpoint. */
  lemma UnflattenedSelectsNobody(rd: Reading)
    ensures var sel := LabelSelector(map[], [Exists("app")], None);
            var pol := Policy("", sel, [], []);
            var pod := Pod("", "", "", "", map["app" := "web"]);
            && Flattens(sel) && MatchesUpstream(sel, pod.labels) && !Applies(rd, pol, pod)
            && forall d :: !PodChosen(rd, sel, d)
  {
  }

  lemma OneLabelPeer(peer: Peer, eps: seq<DanmEp>)
    requires OneLabel(peer.podSelector)
    ensures SamePeerSelections(ByLabel, ByAllLabels, peer, eps)
  {
    if peer.podSelector.asMap.Some? {
      AnyLabelIsAllExactly(peer.podSelector.asMap.value);
    }
    forall s, d ensures OnNetwork(ByLabel, s, d) <==> OnNetwork(ByAllLabels, s, d) {
    }
  }

  // ---- Pod selector together with network selector ----

  /** What the selector means, with a flattened one read one way or another. */
  ghost predicate Means(rd: Reading, sel: LabelSelector, labels: Labels) {
    if sel.asMap.Some? then Selects(rd, sel, labels) else MatchesUpstream(sel, labels)
  }

  /** The documented choice: every selector restricts. An empty Pod selector selects all Pods, as it is or beside
      a network selector. */
  ghost predicate DocumentedPicks(rd: Reading, peer: Peer, eps: seq<DanmEp>, d: DanmEp) {
    && d in eps
    && Means(rd, peer.podSelector, d.labels)
    && (peer.networkSelector != [] ==> NetworkChosen(rd, peer.networkSelector, d))
  }

  /** A selector that imposes no restriction. */
  predicate IsEmpty(sel: LabelSelector) {
    sel.asMap == Some(map[])
  }

  /** The peer is an empty Pod selector and nothing else: documented to be everybody, it picks nobody. */
  predicate EmptySelectorAlone(peer: Peer, eps: seq<DanmEp>) {
    IsEmpty(peer.podSelector) && peer.networkSelector == [] && eps != []
  }

  /** The Pod selector is passed over although it would add an endpoint, or, beside a network selector, exclude one. */
  ghost predicate SelectorPassedOver(rd: Reading, peer: Peer, eps: seq<DanmEp>) {
    && !IsEmpty(peer.podSelector) && !LookedAt(peer.podSelector)
    && exists d :: d in eps && if peer.networkSelector == [] then Means(rd, peer.podSelector, d.labels)
                               else NetworkChosen(rd, peer.networkSelector, d) && !Means(rd, peer.podSelector, d.labels)
  }

  /** Both selectors restrict, and one of them selects somebody but the other nobody. */
  ghost predicate OneSelectionVoid(rd: Reading, peer: Peer, eps: seq<DanmEp>) {
    && !IsEmpty(peer.podSelector) && LookedAt(peer.podSelector) && peer.networkSelector != []
    && (ChosenByPod(rd, peer, eps) == {} <==> ChosenByNetwork(rd, peer, eps) != {})
  }

  /** The selectors of the peer are among those that are joined as documented. */
  ghost predicate JoinSound(rd: Reading, peer: Peer, eps: seq<DanmEp>) {
    !EmptySelectorAlone(peer, eps) && !SelectorPassedOver(rd, peer, eps) && !OneSelectionVoid(rd, peer, eps)
  }

  lemma ChosenMembers(rd: Reading, peer: Peer, eps: seq<DanmEp>)
    ensures forall d :: d in eps ==> (PodChosen(rd, peer.podSelector, d) <==> d in ChosenByPod(rd, peer, eps))
    ensures forall d :: d in eps ==> (NetworkChosen(rd, peer.networkSelector, d) <==> d in ChosenByNetwork(rd, peer, eps))
    ensures !IsEmpty(peer.podSelector) && LookedAt(peer.podSelector)
            ==> forall d :: PodChosen(rd, peer.podSelector, d) <==> Means(rd, peer.podSelector, d.labels)
    ensures IsEmpty(peer.podSelector) || !LookedAt(peer.podSelector) ==> ChosenByPod(rd, peer, eps) == {}
    ensures IsEmpty(peer.podSelector) ==> forall d: DanmEp :: Means(rd, peer.podSelector, d.labels)
    ensures peer.networkSelector == [] ==> ChosenByNetwork(rd, peer, eps) == {}
  {
  }

  /** Some endpoint is then picked against the documentation. */
  lemma UnsoundJoin(rd: Reading, peer: Peer, eps: seq<DanmEp>) returns (d: DanmEp)
    requires !JoinSound(rd, peer, eps)
    ensures !(PeerPicks(rd, peer, eps, d) <==> DocumentedPicks(rd, peer, eps, d))
  {
    ChosenMembers(rd, peer, eps);
    if EmptySelectorAlone(peer, eps) {
      d := eps[0];
    } else if SelectorPassedOver(rd, peer, eps) {
      d :| d in eps && if peer.networkSelector == [] then Means(rd, peer.podSelector, d.labels)
                       else NetworkChosen(rd, peer.networkSelector, d) && !Means(rd, peer.podSelector, d.labels);
    } else {
      var first, second := ChosenByPod(rd, peer, eps), ChosenByNetwork(rd, peer, eps);
      d :| d in if first != {} then first else second;
    }
  }

  /** The selections are joined as documented exactly when the selector is not an empty one alone, not one passed
      over to some effect, and neither selection is void beside one that is not. */
  lemma JoinIsDocumentedExactly(rd: Reading, peer: Peer, eps: seq<DanmEp>)
    ensures (forall d :: PeerPicks(rd, peer, eps, d) <==> DocumentedPicks(rd, peer, eps, d))
            <==> JoinSound(rd, peer, eps)
  {
    if JoinSound(rd, peer, eps) {
      ChosenMembers(rd, peer, eps);
    } else {
      var d := UnsoundJoin(rd, peer, eps);
    }
  }

  const WEB_ON_NET := ENDPOINT_OF_NOBODY.(labels := map["app" := "web"], networkName := "net")
  const DB_ON_NET := ENDPOINT_OF_NOBODY.(labels := map["app" := "db"], networkName := "net")

  /** A Pod selector for app=web, or one that is not flattened and excludes app=db, beside a network selector: an app=db
      endpoint of the network gets through when nobody is selected, and always when no plain label is given. */
  lemma JoinPicksTooMany(sel: LabelSelector)
    requires || sel.asMap == Some(map["app" := "web"])
             || (sel.asMap.None? && !MatchesUpstream(sel, DB_ON_NET.labels))
    ensures var peer := Peer(sel, [NetworkSelector("net", "")]);
            && PeerPicks(ByKey, peer, [DB_ON_NET], DB_ON_NET) && !DocumentedPicks(ByKey, peer, [DB_ON_NET], DB_ON_NET)
            && (PeerPicks(ByKey, peer, [DB_ON_NET, WEB_ON_NET], DB_ON_NET) <==> !LookedAt(sel))
  {
    WitnessKeys();
    var nets := [NetworkSelector("net", "")];
    assert nets[0] in nets && OnNetwork(ByKey, nets[0], DB_ON_NET);
    assert NetworkChosen(ByKey, nets, DB_ON_NET) && !PodChosen(ByKey, sel, DB_ON_NET);
    var both := [DB_ON_NET, WEB_ON_NET];
    assert both[0] in both && both[1] in both;
    if LookedAt(sel) {
      assert WEB_ON_NET in ChosenByPod(ByKey, Peer(sel, nets), both);
    } else {
      assert ChosenByPod(ByKey, Peer(sel, nets), both) == {};
    }
  }

  lemma WitnessKeys()
    ensures KeysMeet(map["app" := "web"], map["app" := "web"]) && !KeysMeet(map["app" := "web"], map["app" := "db"])
    ensures map["app" := "web"] != map[]
  {
    var web := map["app" := "web"];
    assert "app" in web;
    LabelKeysCollide("app", "web", "app", "db");
    assert |"app" + "web"| == 6 && |"app" + "db"| == 5;
  }

  /** Nobody is picked by a selector alone that is empty, without plain labels or not flattened, and somebody should. */
  lemma JoinPicksTooFew(sel: LabelSelector)
    requires !LookedAt(sel)
    requires if sel.asMap.None? then MatchesUpstream(sel, WEB_ON_NET.labels)
             else IsEmpty(sel) || sel.asMap == Some(map["app" := "web"])
    ensures var peer := Peer(sel, []);
            !PeerPicks(ByKey, peer, [WEB_ON_NET], WEB_ON_NET) && DocumentedPicks(ByKey, peer, [WEB_ON_NET], WEB_ON_NET)
  {
    WitnessKeys();
    assert [WEB_ON_NET][0] in [WEB_ON_NET];
  }

  /** When both of a peer's selections through the index hold somebody, the endpoints used for it are exactly those of
      the list that carry a selected label and are on a selected network. */
  lemma JoinOfBothSelections(depSet: DanmEpSet, eps: seq<DanmEp>, pod: Pod, peer: Peer)
    requires IsEndpointIndex(depSet, eps, pod) && EndpointsIdentified(eps)
    requires PodHits(depSet.byLabel, peer.podSelector) != {}
    requires NetworkHits(depSet.byNetwork, peer.networkSelector) != {}
    ensures PeerEndpoints(depSet, peer)
            == set d | d in eps && PodChosen(ByKey, peer.podSelector, d) && NetworkChosen(ByKey, peer.networkSelector, d)
  {
    PodHitsAreScan(depSet, eps, peer);
    NetworkHitsAreScan(depSet, eps, peer);
    PeerSelectionRefinesJoin(depSet, eps, pod, peer);
  }

  // ---- Ports ----

  /** The port a policy declares, as text: a number in decimal, or a name. */
  function DeclaredText(port: IntOrString): string {
    match port
    case Int(n) => Decimal(n)
    case Str(text) => text
  }

  function Decimal(n: int): string
    decreases if n < 0 then 1 - n else n
  {
    if n < 0 then "-" + Decimal(-n)
    else if n < 10 then ["0123456789"[n]]
    else Decimal(n / 10) + ["0123456789"[n % 10]]
  }

  function DocumentedProtocol(port: PolicyPort): string {
    if port.protocol.None? then "TCP" else port.protocol.value
  }

  /** The documented meaning: an absent port is any port, an absent protocol is TCP. */
  ghost predicate DocumentedPort(dir: Direction, port: PolicyPort, p: Packet) {
    && (port.port.None? || DeclaredText(port.port.value) in PeerPorts(dir, p))
    && DocumentedProtocol(port) in p.protocols
  }

  /** The port and the protocol are given, and as text. */
  predicate PortSound(port: PolicyPort) {
    port.Defined() && port.protocol.value != "" && port.port.value.Str? && port.port.value.text != ""
  }

  ghost predicate RestrictsToPort(dir: Direction, address: string, port: PolicyPort)
    requires port.Defined()
  {
    forall p :: RuleMatches(PortRule(dir, address, port), p) ==> DeclaredText(port.port.value) in PeerPorts(dir, p)
  }

  /** A rule is restricted to the port its policy declares exactly when that is written as text: a numeric port
      restricts nothing. */
  lemma PortRestrictsExactly(dir: Direction, address: string, port: PolicyPort)
    requires port.Defined()
    ensures RestrictsToPort(dir, address, port) <==> port.port.value.Str? && port.port.value.text != ""
  {
    if port.port.value.StrVal() == "" {
      var p := PacketAt(address, iset{port.protocol.value}, iset{});
      assert RuleMatches(PortRule(dir, address, port), p);
      assert DeclaredText(port.port.value) !in PeerPorts(dir, p);
    }
  }

  /** A packet from and to the address. */
  function PacketAt(address: string, protocols: iset<string>, ports: iset<string>): Packet {
    Packet("", "", New, protocols, iset{Host(address)}, iset{Host(address)}, ports, ports)
  }

  /** A rule means what its port is documented to mean exactly when port and protocol are given as text. */
  lemma PortIsDocumentedExactly(dir: Direction, address: string, port: PolicyPort)
    requires port.Defined()
    ensures (forall p :: RuleMatches(PortRule(dir, address, port), p)
                         <==> AtAddress(dir, address, p) && DocumentedPort(dir, port, p))
            <==> PortSound(port)
  {
    if !PortSound(port) {
      var ports := if port.protocol.value == "" then iset{port.port.value.StrVal()} else iset{};
      var p := PacketAt(address, if port.protocol.value == "" then iset{} else iset{port.protocol.value}, ports);
      assert RuleMatches(PortRule(dir, address, port), p);
      assert !DocumentedPort(dir, port, p);
    }
  }

  /** Port 80, written as a number, lets port 443 through as well. */
  lemma NumericPortIsNoPort(dir: Direction, address: string)
    ensures var http, https := PolicyPort(Some("TCP"), Some(Int(80))), PolicyPort(Some("TCP"), Some(Int(443)));
            var p := PacketAt(address, iset{"TCP"}, iset{"443"});
            && DeclaredText(Int(80)) == "80" && DeclaredText(Int(443)) == "443"
            && PortRule(dir, address, http) == PortRule(dir, address, https)
            && RuleMatches(PortRule(dir, address, http), p) && !DocumentedPort(dir, http, p)
  {
    assert "0123456789"[8] == '8' && "0123456789"[0] == '0' && "0123456789"[4] == '4' && "0123456789"[3] == '3';
    assert Decimal(8) == "8" && Decimal(4) == "4" && Decimal(44) == "44";
    assert Decimal(80) == "80" && Decimal(443) == "443";
    assert "80"[0] != "443"[0];
  }

  // ---- Sections ----

  ghost predicate DocumentedPorts(dir: Direction, ports: seq<PolicyPort>, p: Packet) {
    ports == [] || exists port :: port in ports && DocumentedPort(dir, port, p)
  }

  /** An endpoint is documented to be picked: all labels and requirements match, and it is on a selected network. */
  ghost predicate UpstreamPicks(peer: Peer, eps: seq<DanmEp>, d: DanmEp) {
    && d in eps
    && MatchesUpstream(peer.podSelector, d.labels)
    && (peer.networkSelector != [] ==> NetworkChosen(ByAllLabels, peer.networkSelector, d))
  }

  /** The hosts a section is documented to whitelist; a section without peers is open to everybody. */
  ghost predicate HostOf(section: Section, eps: seq<DanmEp>, fam: Family, host: string) {
    if section.peers == [] then host == ""
    else exists peer, d ::
           peer in section.peers && UpstreamPicks(peer, eps, d) && d.HasAddress(fam) && host == Host(d.Address(fam))
  }

  ghost predicate AtHost(dir: Direction, host: string, p: Packet) {
    host == "" || host in (if dir.Ingress? then p.sources else p.destinations)
  }

  ghost predicate DocumentedSection(section: Section, eps: seq<DanmEp>, dir: Direction, fam: Family, p: Packet) {
    DocumentedPorts(dir, section.ports, p) && exists host :: HostOf(section, eps, fam, host) && AtHost(dir, host, p)
  }

  /** The selector is one the code reads as documented, among these endpoints. */
  ghost predicate PeerSound(peer: Peer, eps: seq<DanmEp>) {
    OneLabel(peer.podSelector) && JoinSound(ByAllLabels, peer, eps)
  }

  ghost predicate SectionReadable(section: Section, eps: seq<DanmEp>) {
    && (forall port :: port in section.ports ==> PortSound(port))
    && (forall peer :: peer in section.peers ==> PeerSound(peer, eps) && Flattens(peer.podSelector))
  }

  lemma SoundPorts(dir: Direction, ports: seq<PolicyPort>, p: Packet)
    requires forall port :: port in ports ==> PortSound(port)
    ensures PortsAllow(dir, ports, p) <==> DocumentedPorts(dir, ports, p)
  {
    forall port | port in ports ensures PortAllows(dir, port, p) <==> DocumentedPort(dir, port, p) {
    }
  }

  lemma SoundPeer(peer: Peer, eps: seq<DanmEp>, d: DanmEp)
    requires PeerSound(peer, eps) && Flattens(peer.podSelector)
    ensures PeerPicks(ByAllLabels, peer, eps, d) <==> UpstreamPicks(peer, eps, d)
  {
    JoinIsDocumentedExactly(ByAllLabels, peer, eps);
  }

  lemma ReadableSection(pol: Policy, eps: seq<DanmEp>, dir: Direction, fam: Family, p: Packet)
    requires pol.Sections(dir) != [] && SectionReadable(pol.Sections(dir)[0], eps)
    ensures pol.Sections(dir)[0].peers != []
            ==> (PolicyAllows(ByAllLabels, pol, eps, dir, fam, p) <==> DocumentedSection(pol.Sections(dir)[0], eps, dir, fam, p))
  {
    var section := pol.Sections(dir)[0];
    SoundPorts(dir, section.ports, p);
    forall peer, d | peer in section.peers
      ensures PeerPicks(ByAllLabels, peer, eps, d) <==> UpstreamPicks(peer, eps, d)
    {
      SoundPeer(peer, eps, d);
    }
    if PolicyAllows(ByAllLabels, pol, eps, dir, fam, p) {
      var peer :| peer in section.peers && PeerAllows(ByAllLabels, peer, section.ports, eps, dir, fam, p);
      var d :| PeerPicks(ByAllLabels, peer, eps, d) && d.HasAddress(fam) && AtAddress(dir, d.Address(fam), p);
      assert HostOf(section, eps, fam, Host(d.Address(fam)));
    }
    if section.peers != [] && DocumentedSection(section, eps, dir, fam, p) {
      var host :| HostOf(section, eps, fam, host) && AtHost(dir, host, p);
      var peer, d :| peer in section.peers && UpstreamPicks(peer, eps, d) && d.HasAddress(fam) && host == Host(d.Address(fam));
      assert PeerAllows(ByAllLabels, peer, section.ports, eps, dir, fam, p);
    }
  }

  /** A packet that one port allows, at a host, and as little else as possible. */
  ghost function PacketFor(port: Option<PolicyPort>, host: string): Packet {
    var texts := if port.Some? && port.value.port.Some? then iset{DeclaredText(port.value.port.value)} else iset{};
    var protocols := if port.Some? then iset{DocumentedProtocol(port.value)} else iset{};
    Packet("", "", New, protocols, iset{host}, iset{host}, texts, texts)
  }

  /** A first section in the readable part of the language is read as documented exactly when it names peers: one
      without peers is documented to be open to everybody and whitelists nobody. */
  lemma FirstSectionExactly(pol: Policy, eps: seq<DanmEp>, dir: Direction, fam: Family)
    requires pol.Sections(dir) != [] && SectionReadable(pol.Sections(dir)[0], eps)
    ensures (forall p :: PolicyAllows(ByAllLabels, pol, eps, dir, fam, p)
                         <==> DocumentedSection(pol.Sections(dir)[0], eps, dir, fam, p))
            <==> pol.Sections(dir)[0].peers != []
  {
    var section := pol.Sections(dir)[0];
    if section.peers == [] {
      var port := AnyPort(section.ports, dir, "");
      var p := PacketFor(port, "");
      assert HostOf(section, eps, fam, "") && AtHost(dir, "", p);
      assert DocumentedSection(section, eps, dir, fam, p) && !PolicyAllows(ByAllLabels, pol, eps, dir, fam, p);
    } else {
      forall p
        ensures PolicyAllows(ByAllLabels, pol, eps, dir, fam, p) <==> DocumentedSection(section, eps, dir, fam, p)
      {
        ReadableSection(pol, eps, dir, fam, p);
      }
    }
  }

  /** Every packet of the one port is one of the other. */
  predicate PortCovers(wide: PolicyPort, port: PolicyPort) {
    && (wide.port.None? || (port.port.Some? && DeclaredText(wide.port.value) == DeclaredText(port.port.value)))
    && DocumentedProtocol(wide) == DocumentedProtocol(port)
  }

  predicate PortsCover(wide: seq<PolicyPort>, ports: seq<PolicyPort>) {
    wide == [] || (ports != [] && forall port :: port in ports ==> exists w :: w in wide && PortCovers(w, port))
  }

  ghost predicate HostsCover(wide: Section, section: Section, eps: seq<DanmEp>, fam: Family) {
    HostOf(wide, eps, fam, "") || forall host :: HostOf(section, eps, fam, host) ==> HostOf(wide, eps, fam, host)
  }

  /** The section picks nobody, or its hosts and ports are among those of the other. */
  ghost predicate Covers(wide: Section, section: Section, eps: seq<DanmEp>, fam: Family) {
    || (forall host :: !HostOf(section, eps, fam, host))
    || (HostsCover(wide, section, eps, fam) && PortsCover(wide.ports, section.ports))
  }

  lemma PortsCoverPacket(wide: seq<PolicyPort>, ports: seq<PolicyPort>, dir: Direction, p: Packet)
    requires PortsCover(wide, ports) && DocumentedPorts(dir, ports, p)
    ensures DocumentedPorts(dir, wide, p)
  {
    if wide != [] {
      var port :| port in ports && DocumentedPort(dir, port, p);
      var w :| w in wide && PortCovers(w, port);
      assert DocumentedPort(dir, w, p);
    }
  }

  /** Ports that are not covered let some packet through that the others do not. */
  lemma UncoveredPorts(wide: seq<PolicyPort>, ports: seq<PolicyPort>, dir: Direction, host: string)
    returns (port: Option<PolicyPort>)
    requires !PortsCover(wide, ports)
    ensures DocumentedPorts(dir, ports, PacketFor(port, host)) && !DocumentedPorts(dir, wide, PacketFor(port, host))
  {
    if ports == [] {
      port := None;
    } else {
      var uncovered :| uncovered in ports && forall w :: w in wide ==> !PortCovers(w, uncovered);
      port := Some(uncovered);
      assert DocumentedPort(dir, uncovered, PacketFor(port, host));
      forall w | w in wide ensures !DocumentedPort(dir, w, PacketFor(port, host)) {
        assert !PortCovers(w, uncovered);
      }
    }
  }

  lemma AnyPort(ports: seq<PolicyPort>, dir: Direction, host: string) returns (port: Option<PolicyPort>)
    ensures DocumentedPorts(dir, ports, PacketFor(port, host))
  {
    port := if ports == [] then None else Some(ports[0]);
    if ports != [] {
      assert DocumentedPort(dir, ports[0], PacketFor(port, host));
    }
  }

  lemma Uncovered(wide: Section, section: Section, eps: seq<DanmEp>, dir: Direction, fam: Family) returns (p: Packet)
    requires !Covers(wide, section, eps, fam)
    ensures DocumentedSection(section, eps, dir, fam, p) && !DocumentedSection(wide, eps, dir, fam, p)
  {
    if !PortsCover(wide.ports, section.ports) {
      var host :| HostOf(section, eps, fam, host);
      var port := UncoveredPorts(wide.ports, section.ports, dir, host);
      p := PacketFor(port, host);
      assert AtHost(dir, host, p);
    } else {
      var host :| HostOf(section, eps, fam, host) && !HostOf(wide, eps, fam, host);
      var port := AnyPort(section.ports, dir, host);
      p := PacketFor(port, host);
      assert AtHost(dir, host, p);
    }
  }

  /** One section is documented to whitelist no more than another exactly when its hosts and ports are covered. */
  lemma CoversExactly(wide: Section, section: Section, eps: seq<DanmEp>, dir: Direction, fam: Family)
    ensures (forall p :: DocumentedSection(section, eps, dir, fam, p) ==> DocumentedSection(wide, eps, dir, fam, p))
            <==> Covers(wide, section, eps, fam)
  {
    if Covers(wide, section, eps, fam) {
      forall p | DocumentedSection(section, eps, dir, fam, p) ensures DocumentedSection(wide, eps, dir, fam, p) {
        var host :| HostOf(section, eps, fam, host) && AtHost(dir, host, p);
        PortsCoverPacket(wide.ports, section.ports, dir, p);
        assert HostOf(wide, eps, fam, "") ==> AtHost(dir, "", p);
      }
    } else {
      var p := Uncovered(wide, section, eps, dir, fam);
    }
  }

  /** What a policy is documented to whitelist: its sections add up. */
  ghost predicate DocumentedPolicy(pol: Policy, eps: seq<DanmEp>, dir: Direction, fam: Family, p: Packet) {
    exists section :: section in pol.Sections(dir) && DocumentedSection(section, eps, dir, fam, p)
  }

  ghost predicate FirstCovers(pol: Policy, eps: seq<DanmEp>, dir: Direction, fam: Family) {
    forall section :: section in pol.Sections(dir) ==> Covers(pol.Sections(dir)[0], section, eps, fam)
  }

  /** With a readable first section, leaving the others unread loses nothing exactly when it covers each of them. */
  lemma LaterSectionsExactly(pol: Policy, eps: seq<DanmEp>, dir: Direction, fam: Family)
    requires pol.Sections(dir) != [] && pol.Sections(dir)[0].peers != [] && SectionReadable(pol.Sections(dir)[0], eps)
    ensures (forall p :: PolicyAllows(ByAllLabels, pol, eps, dir, fam, p) <==> DocumentedPolicy(pol, eps, dir, fam, p))
            <==> FirstCovers(pol, eps, dir, fam)
  {
    var sections := pol.Sections(dir);
    var first := sections[0];
    assert first in sections;
    forall p
      ensures PolicyAllows(ByAllLabels, pol, eps, dir, fam, p) <==> DocumentedSection(first, eps, dir, fam, p)
    {
      ReadableSection(pol, eps, dir, fam, p);
    }
    if FirstCovers(pol, eps, dir, fam) {
      forall p | DocumentedPolicy(pol, eps, dir, fam, p) ensures DocumentedSection(first, eps, dir, fam, p) {
        var section :| section in sections && DocumentedSection(section, eps, dir, fam, p);
        CoversExactly(first, section, eps, dir, fam);
      }
    } else {
      var section :| section in sections && !Covers(first, section, eps, fam);
      var p := Uncovered(first, section, eps, dir, fam);
      assert DocumentedPolicy(pol, eps, dir, fam, p);
    }
  }

  // ---- Policies as a whole ----

  /** What policies are documented to whitelist: policies and sections add up, selectors in a peer restrict each
      other, and labels match when all of them do. */
  ghost predicate DocumentedAllows(
    pols: seq<Policy>, eps: seq<DanmEp>, pod: Pod, dir: Direction, fam: Family, p: Packet)
  {
    exists pol :: pol in pols && MatchesUpstream(pol.podSelector, pod.labels) && DocumentedPolicy(pol, eps, dir, fam, p)
  }

  const EVERY_POD := LabelSelector(map[], [], Some(map[]))

  function NetworkSection(network: string): Section {
    Section([], [Peer(EVERY_POD, [NetworkSelector(network, "")])])
  }

  /** A policy for every Pod, with a section for each of two networks. */
  function TwoSections(first: string, second: string): Policy {
    Policy("", EVERY_POD, [NetworkSection(first), NetworkSection(second)], [])
  }

  function OnNet(network: string, address: string): DanmEp {
    ENDPOINT_OF_NOBODY.(networkName := network, address := address)
  }

  lemma NetworkSectionPicks(network: string, eps: seq<DanmEp>, d: DanmEp, fam: Family)
    requires d in eps && d.networkName == network && d.apiType == "" && d.HasAddress(fam)
    ensures HostOf(NetworkSection(network), eps, fam, Host(d.Address(fam)))
  {
    var peer := NetworkSection(network).peers[0];
    assert peer in NetworkSection(network).peers;
    assert peer.networkSelector[0] in peer.networkSelector && OnNetwork(ByAllLabels, peer.networkSelector[0], d);
    assert UpstreamPicks(peer, eps, d);
  }

  lemma NetworkSectionIsRead(pol: Policy, network: string, eps: seq<DanmEp>, d: DanmEp, p: Packet)
    requires pol.ingress != [] && pol.ingress[0] == NetworkSection(network)
    requires d in eps && NetworkKey(d.networkName, d.apiType) == NetworkKey(network, "")
    requires forall e :: e in eps && NetworkKey(e.networkName, e.apiType) == NetworkKey(network, "")
                         ==> !AtAddress(Ingress, e.Address(V4), p)
    ensures !PolicyAllows(ByKey, pol, eps, Ingress, V4, p)
  {
    var peers := NetworkSection(network).peers;
    var peer := peers[0];
    var nets := peer.networkSelector;
    assert nets[0] in nets && OnNetwork(ByKey, nets[0], d);
    assert d in ChosenByNetwork(ByKey, peer, eps);
    forall q, e | q in peers && PeerPicks(ByKey, q, eps, e)
      ensures NetworkKey(e.networkName, e.apiType) == NetworkKey(network, "")
    {
      assert q == peer;
    }
  }

  /** Of two endpoints on two networks, each with a section of its own, the second is lost. */
  lemma SecondSectionLost(one: string, two: string, first: string, second: string)
    requires NetworkKey(first, "") != NetworkKey(second, "")
    requires OnNet(first, one).HasAddress(V4) && OnNet(second, two).HasAddress(V4)
    requires Host(one) != "" && Host(two) != Host(one)
    ensures var pol, eps := TwoSections(first, second), [OnNet(first, one), OnNet(second, two)];
            var pod, p := Pod("", "", "", "", map[]), PacketFor(None, Host(two));
            DocumentedAllows([pol], eps, pod, Ingress, V4, p) && !Allows(ByKey, [pol], eps, pod, Ingress, V4, p)
  {
    var pol, eps := TwoSections(first, second), [OnNet(first, one), OnNet(second, two)];
    var pod, p := Pod("", "", "", "", map[]), PacketFor(None, Host(two));
    assert eps[0] in eps && eps[1] in eps && [pol][0] in [pol];
    NetworkSectionPicks(second, eps, eps[1], V4);
    assert AtHost(Ingress, Host(two), p);
    var section := pol.Sections(Ingress)[1];
    assert section in pol.Sections(Ingress) && DocumentedSection(section, eps, Ingress, V4, p);
    assert DocumentedPolicy(pol, eps, Ingress, V4, p);
    NetworkSectionIsRead(pol, first, eps, eps[0], p);
  }

  /** A policy with a section for each of two networks: a packet from the second is documented to pass and does not. */
  lemma SecondSectionIsLost()
    ensures var pol, eps := TwoSections("net", "other"), [OnNet("net", "10.0.0.1"), OnNet("other", "10.0.0.2")];
            var pod, p := Pod("", "", "", "", map[]), PacketFor(None, "10.0.0.2");
            DocumentedAllows([pol], eps, pod, Ingress, V4, p) && !Allows(ByKey, [pol], eps, pod, Ingress, V4, p)
  {
    WitnessHosts();
    SecondSectionLost("10.0.0.1", "10.0.0.2", "net", "other");
  }

  lemma WitnessHosts()
    ensures Host("10.0.0.1") == "10.0.0.1" && Host("10.0.0.2") == "10.0.0.2" && "10.0.0.1" != "10.0.0.2"
    ensures OnNet("net", "10.0.0.1").HasAddress(V4) && OnNet("other", "10.0.0.2").HasAddress(V4)
    ensures NetworkKey("net", "") != NetworkKey("other", "")
  {
    HostOfAddress("10.0.0.1", "");
    HostOfAddress("10.0.0.2", "");
    assert "10.0.0.1"[7] != "10.0.0.2"[7];
    assert |"10.0.0.1"| == |"10.0.0.2"| == 8 && |NONE_ALLOC_TYPE| == 4;
    assert NetworkKey("net", "")[0] == 'n' && NetworkKey("other", "")[0] == 'o';
  }

  /** Policies written in the part of the language that is read as documented: selectors of one label at most that the
      library flattens, a first section that names its peers and covers the others, peers that are joined soundly, and
      ports and protocols as text. */
  ghost predicate PlainlyWritten(pols: seq<Policy>, eps: seq<DanmEp>) {
    forall pol :: pol in pols ==>
      && SelectorSound(pol.podSelector) && Flattens(pol.podSelector)
      && forall dir: Direction :: pol.Sections(dir) != [] ==>
           && pol.Sections(dir)[0].peers != [] && SectionReadable(pol.Sections(dir)[0], eps)
           && forall fam: Family :: FirstCovers(pol, eps, dir, fam)
  }

  /** With one label to a selector, one shared label is all of them. */
  lemma OneLabelReadingsAgree(
    pols: seq<Policy>, eps: seq<DanmEp>, pod: Pod, dir: Direction, fam: Family, p: Packet)
    requires forall pol :: pol in pols ==> OneLabel(pol.podSelector)
    requires forall peer :: FirstPeerOf(pols, peer) ==> OneLabel(peer.podSelector)
    ensures Allows(ByLabel, pols, eps, pod, dir, fam, p) <==> Allows(ByAllLabels, pols, eps, pod, dir, fam, p)
  {
    forall pol | pol in pols ensures Applies(ByLabel, pol, pod) <==> Applies(ByAllLabels, pol, pod) {
      if pol.podSelector.asMap.Some? {
        AnyLabelIsAllExactly(pol.podSelector.asMap.value);
      }
    }
    forall peer | FirstPeerOf(pols, peer) ensures SamePeerSelections(ByLabel, ByAllLabels, peer, eps) {
      OneLabelPeer(peer, eps);
    }
    SameSelectionsSameMeaning(ByLabel, ByAllLabels, pols, eps, pod, dir, fam, p);
  }

  /** Plainly written policies mean what they are documented to mean. */
  lemma PlainlyWrittenMeaning(
    pols: seq<Policy>, eps: seq<DanmEp>, pod: Pod, dir: Direction, fam: Family, p: Packet)
    requires KeysUnambiguous(pols, eps, pod) && PlainlyWritten(pols, eps)
    ensures Allows(ByKey, pols, eps, pod, dir, fam, p) <==> DocumentedAllows(pols, eps, pod, dir, fam, p)
  {
    ReadingsAgree(pols, eps, pod, dir, fam, p);
    OneLabelReadingsAgree(pols, eps, pod, dir, fam, p);
    forall pol | pol in pols
      ensures PolicyAllows(ByAllLabels, pol, eps, dir, fam, p) <==> DocumentedPolicy(pol, eps, dir, fam, p)
      ensures Applies(ByAllLabels, pol, pod) <==> MatchesUpstream(pol.podSelector, pod.labels)
    {
      if pol.Sections(dir) != [] {
        LaterSectionsExactly(pol, eps, dir, fam);
      }
    }
  }

  // ---- Adding to a set of policies ----

  /** More policies never take a packet away. */
  lemma PoliciesAreAdditive(
    rd: Reading, pols: seq<Policy>, more: seq<Policy>, eps: seq<DanmEp>, pod: Pod,
    dir: Direction, fam: Family, p: Packet)
    requires ToSet(pols) <= ToSet(more)
    requires Allows(rd, pols, eps, pod, dir, fam, p)
    ensures Allows(rd, more, eps, pod, dir, fam, p)
  {
    var pol :| pol in pols && Applies(rd, pol, pod) && PolicyAllows(rd, pol, eps, dir, fam, p);
    assert pol in ToSet(more);
  }

  /** `wider` is `pol` with peers added to the first sections. */
  ghost predicate AddsPeers(wider: Policy, pol: Policy) {
    && wider.podSelector == pol.podSelector
    && forall dir: Direction ::
         pol.Sections(dir) != [] ==>
           && wider.Sections(dir) != []
           && wider.Sections(dir)[0].ports == pol.Sections(dir)[0].ports
           && ToSet(pol.Sections(dir)[0].peers) <= ToSet(wider.Sections(dir)[0].peers)
  }

  /** More peers in the first section of a policy never take a packet away. */
  lemma PeersAreAdditive(
    rd: Reading, pols: seq<Policy>, i: nat, wider: Policy, eps: seq<DanmEp>, pod: Pod,
    dir: Direction, fam: Family, p: Packet)
    requires i < |pols| && AddsPeers(wider, pols[i])
    requires Allows(rd, pols, eps, pod, dir, fam, p)
    ensures Allows(rd, pols[i := wider], eps, pod, dir, fam, p)
  {
    var pol :| pol in pols && Applies(rd, pol, pod) && PolicyAllows(rd, pol, eps, dir, fam, p);
    var k :| 0 <= k < |pols| && pols[k] == pol;
    var pols' := pols[i := wider];
    if k == i {
      var peer :| peer in pol.Sections(dir)[0].peers && PeerAllows(rd, peer, pol.Sections(dir)[0].ports, eps, dir, fam, p);
      assert peer in ToSet(wider.Sections(dir)[0].peers);
      assert pols'[i] == wider && PolicyAllows(rd, wider, eps, dir, fam, p);
    } else {
      assert pols'[k] == pol;
    }
  }
}
