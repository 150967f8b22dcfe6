/** The records the Policer works on, and the text constants that name buckets, chains and targets. */
module PolTypes {
  import opened Strings

  datatype Option<+T> = None | Some(value: T)

  const DEFAULT_BUCKET_NAME := "default"
  const CUSTOM_BUCKET_POSTFIX := "bucket42"
  const IPTABLES_REJECT := "REJECT"
  const IPTABLES_ACCEPT := "ACCEPT"
  const IPTABLES_RETURN := "RETURN"
  const INGRESS_V4_CHAIN_NAME := "DANM_INGRESS_V4"
  const INGRESS_V6_CHAIN_NAME := "DANM_INGRESS_V6"
  const EGRESS_V4_CHAIN_NAME := "DANM_EGRESS_V4"
  const EGRESS_V6_CHAIN_NAME := "DANM_EGRESS_V6"
  const STATE_ESTABLISHED_RELATED := "ESTABLISHED,RELATED"
  const STATE_NEW_ESTABLISHED := "NEW,ESTABLISHED"
  const DANM_NET_KIND := "DanmNet"
  // Names owned by the libraries DANM is built on.
  const CHAIN_INPUT := "INPUT"
  const CHAIN_OUTPUT := "OUTPUT"
  const CHAIN_FORWARD := "FORWARD"
  const NONE_ALLOC_TYPE := "none"

  type Labels = map<string, string>

  /** One requirement of a selector beyond its plain labels. */
  datatype Requirement =
    | In(key: string, values: seq<string>)
    | NotIn(key: string, values: seq<string>)
    | Exists(key: string)
    | DoesNotExist(key: string)
  {
    predicate MetBy(labels: Labels) {
      match this
      case In(key, values) => key in labels && labels[key] in values
      case NotIn(key, values) => key in labels ==> labels[key] !in values
      case Exists(key) => key in labels
      case DoesNotExist(key) => key !in labels
    }
  }

  /** A label selector, together with what the Kubernetes library makes of it:
      `asMap` is the flattened selector, or None when the library reports an error. */
  datatype LabelSelector = LabelSelector(matchLabels: Labels, matchExpressions: seq<Requirement>, asMap: Option<Labels>)

  datatype IntOrString = Int(intVal: int) | Str(text: string) {
    /** The string half of the union; a numeric port leaves it empty. */
    function StrVal(): string {
      match this
      case Int(_) => ""
      case Str(text) => text
    }
  }

  datatype PolicyPort = PolicyPort(protocol: Option<string>, port: Option<IntOrString>) {
    /** Neither pointer is nil. */
    predicate Defined() {
      protocol.Some? && port.Some?
    }
  }

  datatype NetworkSelector = NetworkSelector(name: string, kind: string)

  datatype Peer = Peer(podSelector: LabelSelector, networkSelector: seq<NetworkSelector>)

  /** One "from" or "to" section of a policy. */
  datatype Section = Section(ports: seq<PolicyPort>, peers: seq<Peer>)

  datatype Policy = Policy(uid: string, podSelector: LabelSelector, ingress: seq<Section>, egress: seq<Section>) {
    function Sections(dir: Direction): seq<Section> {
      if dir.Ingress? then ingress else egress
    }
  }

  datatype DanmEp = DanmEp(
    uid: string, namespace: string, name: string, labels: Labels,
    networkName: string, apiType: string, networkType: string,
    pod: string, podUid: string, netns: string,
    address: string, addressIPv6: string)
  {
    function Address(fam: Family): string {
      if fam.V4? then address else addressIPv6
    }

    /** The endpoint carries an address of this family. */
    predicate HasAddress(fam: Family) {
      Address(fam) != "" && Address(fam) != NONE_ALLOC_TYPE
    }
  }

  datatype Pod = Pod(uid: string, namespace: string, name: string, nodeName: string, labels: Labels)

  datatype NetRule = NetRule(
    sourceIp: string, sourcePort: string, sourceIface: string,
    destIp: string, destPort: string, destIface: string,
    protocol: string, operation: string, state: string)

  /** The zero value of a rule, the base of every rule literal. */
  const EMPTY_RULE := NetRule("", "", "", "", "", "", "", "", "")

  datatype NetRuleChain = NetRuleChain(name: string, rules: seq<NetRule>)

  datatype NetRuleSet = NetRuleSet(
    ingressV4: NetRuleChain, ingressV6: NetRuleChain,
    egressV4: NetRuleChain, egressV6: NetRuleChain,
    netns: string)
  {
    function Chain(dir: Direction, fam: Family): NetRuleChain {
      match (dir, fam)
      case (Ingress, V4) => ingressV4
      case (Ingress, V6) => ingressV6
      case (Egress, V4) => egressV4
      case (Egress, V6) => egressV6
    }
  }

  datatype Family = V4 | V6
  datatype Direction = Ingress | Egress

  function ChainName(dir: Direction, fam: Family): string {
    match (dir, fam)
    case (Ingress, V4) => INGRESS_V4_CHAIN_NAME
    case (Ingress, V6) => INGRESS_V6_CHAIN_NAME
    case (Egress, V4) => EGRESS_V4_CHAIN_NAME
    case (Egress, V6) => EGRESS_V6_CHAIN_NAME
  }

  function HookName(dir: Direction): string {
    if dir.Ingress? then CHAIN_INPUT else CHAIN_OUTPUT
  }

  /** Bucket under which a label pair is filed, for policies and endpoints alike. */
  function LabelKey(key: string, value: string): string {
    key + value + CUSTOM_BUCKET_POSTFIX
  }

  /** Bucket under which a network is filed; an absent type means DanmNet. */
  function NetworkKey(name: string, kind: string): string {
    name + KindOrDefault(kind)
  }

  function KindOrDefault(kind: string): string {
    if kind == "" then DANM_NET_KIND else kind
  }

  function Bucket<T>(buckets: map<string, seq<T>>, key: string): seq<T> {
    if key in buckets then buckets[key] else []
  }

  function ToSet<T>(s: seq<T>): set<T> {
    set x | x in s
  }

  /** Records of one list are told apart by their UID, as the API server guarantees. */
  ghost predicate PoliciesIdentified(pols: seq<Policy>) {
    forall p, q :: p in pols && q in pols && p.uid == q.uid ==> p == q
  }

  ghost predicate EndpointsIdentified(eps: seq<DanmEp>) {
    forall d, e :: d in eps && e in eps && d.uid == e.uid ==> d == e
  }

  /** Two label maps meet in a bucket: some pair of each concatenates to the same text. */
  predicate KeysMeet(a: Labels, b: Labels) {
    exists k, l | k in a && l in b :: LabelKey(k, a[k]) == LabelKey(l, b[l])
  }

  /** Two label maps carry a common pair. */
  predicate SharesLabel(a: Labels, b: Labels) {
    exists k | k in a :: k in b && a[k] == b[k]
  }

  /** The second map carries all pairs of the first, of which there are some: how Kubernetes matches labels. */
  predicate CarriesAll(a: Labels, b: Labels) {
    a != map[] && forall k | k in a :: k in b && a[k] == b[k]
  }

  /** No pair of one map concatenates to a different pair of the other. */
  ghost predicate Unambiguous(a: Labels, b: Labels) {
    forall k, l :: k in a && l in b && k + a[k] == l + b[l] ==> k == l
  }

  /** Three readings of "the labels match the selector": as the buckets compare them, by any one shared pair,
      or by all pairs, as the Kubernetes API documents it. */
  datatype Reading = ByKey | ByLabel | ByAllLabels

  ghost predicate LabelsMeet(rd: Reading, a: Labels, b: Labels) {
    match rd
    case ByKey => KeysMeet(a, b)
    case ByLabel => SharesLabel(a, b)
    case ByAllLabels => CarriesAll(a, b)
  }

  /** The selector selects these labels: it is readable, and is empty or meets them. */
  ghost predicate Selects(rd: Reading, sel: LabelSelector, labels: Labels) {
    && sel.asMap.Some?
    && (sel.asMap.value == map[] || LabelsMeet(rd, sel.asMap.value, labels))
  }

  /** The selector selects these labels as the Kubernetes API documents it: all labels and requirements must match. */
  ghost predicate MatchesUpstream(sel: LabelSelector, labels: Labels) {
    && (forall k :: k in sel.matchLabels ==> k in labels && labels[k] == sel.matchLabels[k])
    && (forall r :: r in sel.matchExpressions ==> r.MetBy(labels))
  }

  /** When the library flattens the selector into a map, the labels of the map are what it selects. */
  ghost predicate Flattens(sel: LabelSelector) {
    sel.asMap.Some? ==> forall labels :: MatchesUpstream(sel, labels) <==> Selects(ByAllLabels, sel, labels)
  }

  /** One shared label is as good as all of them, for every labelling, exactly when the selector has only one. */
  lemma AnyLabelIsAllExactly(a: Labels)
    ensures (forall b :: SharesLabel(a, b) <==> CarriesAll(a, b)) <==> |a| <= 1
    ensures forall b :: CarriesAll(a, b) ==> SharesLabel(a, b)
  {
    forall b | CarriesAll(a, b) ensures SharesLabel(a, b) {
      var k :| k in a;
      assert k in b && a[k] == b[k];
    }
    if |a| <= 1 {
      forall k, l | k in a && l in a ensures k == l {
        SubsetSize({k, l}, a.Keys);
      }
    } else {
      var k :| k in a;
      assert a.Keys != {k};
      var l :| l in a.Keys && l != k;
      var b := map[k := a[k]];
      assert SharesLabel(a, b) && l !in b;
    }
  }

  lemma {:induction false} SubsetSize<T>(a: set<T>, b: set<T>)
    requires a <= b
    ensures |a| <= |b|
  {
    if x :| x in a {
      SubsetSize(a - {x}, b - {x});
    }
  }

  /** A selector of two pairs and a labelling with one of them: unambiguous, found by the buckets, and no match. */
  lemma OneLabelIsNotAll()
    ensures var a, b := map["app" := "web", "tier" := "db"], map["app" := "web"];
            Unambiguous(a, b) && KeysMeet(a, b) && SharesLabel(a, b) && !CarriesAll(a, b)
  {
    var a, b := map["app" := "web", "tier" := "db"], map["app" := "web"];
    assert "app" in a && "tier" in a && "app" in b && a["app"] == b["app"] && a["tier"] == "db";
    assert "app"[0] == 'a' && "tier"[0] == 't';
    assert "tier" !in b;
    assert ("app" + b["app"])[0] == 'a' && ("tier" + a["tier"])[0] == 't';
    assert LabelKey("app", a["app"]) == LabelKey("app", b["app"]);
  }

  lemma LabelKeysCollide(k: string, v: string, l: string, w: string)
    ensures LabelKey(k, v) == LabelKey(l, w) <==> k + v == l + w
  {
    if LabelKey(k, v) == LabelKey(l, w) {
      CancelSuffix(k + v, l + w, CUSTOM_BUCKET_POSTFIX);
    }
  }

  /** The bucket test agrees with the label test exactly when the labels are unambiguous or match anyway. */
  lemma KeysMeetExactly(a: Labels, b: Labels)
    ensures (KeysMeet(a, b) <==> SharesLabel(a, b)) <==> (Unambiguous(a, b) || SharesLabel(a, b))
    ensures SharesLabel(a, b) ==> KeysMeet(a, b)
  {
    forall k, l | k in a && l in b
      ensures LabelKey(k, a[k]) == LabelKey(l, b[l]) <==> k + a[k] == l + b[l]
    {
      LabelKeysCollide(k, a[k], l, b[l]);
    }
    if SharesLabel(a, b) {
      var k :| k in a && k in b && a[k] == b[k];
      assert LabelKey(k, a[k]) == LabelKey(k, b[k]);
    } else if Unambiguous(a, b) {
      forall k, l | k in a && l in b
        ensures LabelKey(k, a[k]) != LabelKey(l, b[l])
      {
        CancelPrefix(k, a[k], b[l]);
      }
    } else {
      var k, l :| k in a && l in b && k + a[k] == l + b[l] && k != l;
      assert LabelKey(k, a[k]) == LabelKey(l, b[l]);
    }
  }

  /** A concrete pair of label maps on which the bucket test answers yes although no label is shared. */
  lemma AmbiguousLabelsMeet()
    ensures var a, b := map["app" := "web"], map["ap" := "pweb"];
            KeysMeet(a, b) && !SharesLabel(a, b)
  {
    var a, b := map["app" := "web"], map["ap" := "pweb"];
    assert "app" in a && "ap" in b;
    assert "app" + a["app"] == "appweb" == "ap" + b["ap"];
    LabelKeysCollide("app", a["app"], "ap", b["ap"]);
    assert |"app"| != |"ap"|;
  }

  /** A label bucket is never the bucket of policies that select every Pod. */
  lemma LabelKeyIsNotDefault(k: string, v: string)
    ensures LabelKey(k, v) != DEFAULT_BUCKET_NAME
  {
    assert |LabelKey(k, v)| >= |CUSTOM_BUCKET_POSTFIX| > |DEFAULT_BUCKET_NAME|;
  }

  predicate IsUpper(c: char) {
    'A' <= c <= 'Z'
  }

  /** Object names hold no upper-case letter. */
  predicate IsObjectName(name: string) {
    forall c | c in name :: !IsUpper(c)
  }

  /** An API type is absent or starts with an upper-case letter. */
  predicate IsKind(kind: string) {
    kind == "" || IsUpper(kind[0])
  }

  /** In a network key the type begins at the first upper-case letter. */
  lemma FirstUpperCaseLetter(name: string, kind: string)
    requires IsObjectName(name) && kind != "" && IsUpper(kind[0])
    ensures IsUpper((name + kind)[|name|])
    ensures forall i :: 0 <= i < |name| ==> !IsUpper((name + kind)[i])
  {
    assert (name + kind)[|name|] == kind[0];
    forall i | 0 <= i < |name| ensures !IsUpper((name + kind)[i]) {
      assert (name + kind)[i] == name[i];
    }
  }

  /** Network bucket keys decode uniquely, with an absent type read as DanmNet. */
  lemma NetworkKeyInjective(name: string, kind: string, name': string, kind': string)
    requires IsObjectName(name) && IsObjectName(name') && IsKind(kind) && IsKind(kind')
    ensures NetworkKey(name, kind) == NetworkKey(name', kind')
            <==> name == name' && KindOrDefault(kind) == KindOrDefault(kind')
  {
    var k, k' := KindOrDefault(kind), KindOrDefault(kind');
    FirstUpperCaseLetter(name, k);
    FirstUpperCaseLetter(name', k');
    if name + k == name' + k' {
      assert |name| == |name'|;
      assert name == (name + k)[..|name|] == name';
      CancelPrefix(name, k, k');
    }
  }
}
