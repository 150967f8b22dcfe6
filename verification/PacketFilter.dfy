/** The filter table of one address family and the verdict it gives a packet:
    first match wins, a target may be another chain, and a chain may return to the one that jumped to it. */
module PacketFilter {
  import opened Strings
  import opened PolTypes
  import opened RuleArguments

  /** The rules of every chain, each as its argument list. */
  type Chains = map<string, seq<Args>>

  datatype ConnState = New | Established | Related | Invalid | Untracked {
    function Name(): string {
      match this
      case New => "NEW"
      case Established => "ESTABLISHED"
      case Related => "RELATED"
      case Invalid => "INVALID"
      case Untracked => "UNTRACKED"
    }
  }

  /** A packet, as rules see it. Protocol, addresses and ports are given by the texts a rule may name them with,
      so that nothing is assumed on how iptables reads such a text. */
  datatype Packet = Packet(
    inIface: string, outIface: string, state: ConnState,
    protocols: iset<string>,
    sources: iset<string>, destinations: iset<string>,
    sourcePorts: iset<string>, destPorts: iset<string>)

  ghost predicate RuleMatches(r: NetRule, p: Packet) {
    && (r.protocol == "" || r.protocol in p.protocols)
    && (r.sourcePort == "" || r.sourcePort in p.sourcePorts)
    && (r.destPort == "" || r.destPort in p.destPorts)
    && (r.sourceIface == "" || r.sourceIface == p.inIface)
    && (r.destIface == "" || r.destIface == p.outIface)
    && (r.sourceIp == "" || r.sourceIp in p.sources)
    && (r.destIp == "" || r.destIp in p.destinations)
    && (r.state == "" || p.state.Name() in Split(r.state, ','))
  }

  ghost predicate Matches(a: Args, p: Packet) {
    Parse(a).Some? && RuleMatches(Parse(a).value, p)
  }

  function Target(a: Args): string {
    match Parse(a)
    case None => ""
    case Some(r) => r.operation
  }

  datatype Decision = Accept | Reject | Return

  /** Bound on nested jumps. The tables met here nest once, so any bound but 0 gives the same decisions. */
  const JUMP_LIMIT: nat := 16

  /** What one rule does to a packet: a decision, or None to go on with the next rule. */
  ghost function Step(t: Chains, a: Args, p: Packet, depth: nat): Option<Decision>
    decreases depth, 0
  {
    if !Matches(a, p) then None
    else if Target(a) == IPTABLES_ACCEPT then Some(Accept)
    else if Target(a) == IPTABLES_REJECT then Some(Reject)
    else if Target(a) == IPTABLES_RETURN then Some(Return)
    else if Target(a) in t && depth > 0 then
      var inner := Run(t, t[Target(a)], p, depth - 1);
      if inner == Some(Return) then None else inner
    else None
  }

  /** The decision of the first rule that makes one, or None when the packet passes them all. */
  ghost function Run(t: Chains, rules: seq<Args>, p: Packet, depth: nat): Option<Decision>
    decreases depth, |rules| + 1
  {
    if rules == [] then None
    else
      var first := Step(t, rules[0], p, depth);
      if first.Some? then first else Run(t, rules[1..], p, depth)
  }

  /** The verdict of a built-in chain, whose own policy is to accept. */
  ghost predicate Accepted(t: Chains, hook: string, p: Packet) {
    Run(t, Bucket(t, hook), p, JUMP_LIMIT) != Some(Reject)
  }

  lemma {:induction false} RunConcat(t: Chains, xs: seq<Args>, ys: seq<Args>, p: Packet, depth: nat)
    ensures Run(t, xs + ys, p, depth)
            == if Run(t, xs, p, depth).Some? then Run(t, xs, p, depth) else Run(t, ys, p, depth)
    decreases |xs|
  {
    if xs == [] {
      assert xs + ys == ys;
    } else {
      assert (xs + ys)[1..] == xs[1..] + ys;
      RunConcat(t, xs[1..], ys, p, depth);
    }
  }

  lemma {:induction false} RunPassesAll(t: Chains, xs: seq<Args>, p: Packet, depth: nat)
    ensures Run(t, xs, p, depth) == None <==> forall a :: a in xs ==> Step(t, a, p, depth) == None
    ensures Run(t, xs, p, depth).Some? ==> exists a :: a in xs && Step(t, a, p, depth) == Run(t, xs, p, depth)
    decreases |xs|
  {
    if xs != [] {
      RunPassesAll(t, xs[1..], p, depth);
      assert xs == [xs[0]] + xs[1..];
      assert xs[0] in xs;
    }
  }

  // ---- Appending only what is absent ----

  function Ensure(rules: seq<Args>, a: Args): seq<Args> {
    if a in rules then rules else rules + [a]
  }

  /** Ensure every rule of `xs` in turn. From an empty chain this keeps first occurrences only. */
  function EnsureAll(rules: seq<Args>, xs: seq<Args>): seq<Args>
    decreases |xs|
  {
    if xs == [] then rules else EnsureAll(Ensure(rules, xs[0]), xs[1..])
  }

  lemma {:induction false} EnsureAllMembers(rules: seq<Args>, xs: seq<Args>)
    ensures forall a :: a in EnsureAll(rules, xs) <==> a in rules || a in xs
    ensures (forall i, j :: 0 <= i < j < |rules| ==> rules[i] != rules[j])
            ==> forall i, j :: 0 <= i < j < |EnsureAll(rules, xs)|
                               ==> EnsureAll(rules, xs)[i] != EnsureAll(rules, xs)[j]
    ensures rules <= EnsureAll(rules, xs)
    decreases |xs|
  {
    if xs != [] {
      EnsureAllMembers(Ensure(rules, xs[0]), xs[1..]);
      assert xs == [xs[0]] + xs[1..];
    }
  }

  lemma {:induction false} EnsureAllConcat(rules: seq<Args>, xs: seq<Args>, ys: seq<Args>)
    ensures EnsureAll(rules, xs + ys) == EnsureAll(EnsureAll(rules, xs), ys)
    decreases |xs|
  {
    if xs == [] {
      assert xs + ys == ys;
    } else {
      assert (xs + ys)[1..] == xs[1..] + ys;
      EnsureAllConcat(Ensure(rules, xs[0]), xs[1..], ys);
    }
  }

  /** Rules that are all present already leave the chain as it is. */
  lemma {:induction false} EnsureAllPresent(rules: seq<Args>, xs: seq<Args>)
    requires forall a :: a in xs ==> a in rules
    ensures EnsureAll(rules, xs) == rules
    decreases |xs|
  {
    if xs != [] {
      EnsureAllPresent(rules, xs[1..]);
    }
  }

  /** Rules that are all new, and different from each other, are appended as they come. */
  lemma {:induction false} EnsureAllAbsent(rules: seq<Args>, xs: seq<Args>)
    requires forall a :: a in xs ==> a !in rules
    requires forall i, j :: 0 <= i < j < |xs| ==> xs[i] != xs[j]
    ensures EnsureAll(rules, xs) == rules + xs
    decreases |xs|
  {
    if xs != [] {
      EnsureAllAbsent(rules + [xs[0]], xs[1..]);
      assert rules + [xs[0]] + xs[1..] == rules + xs;
    }
  }

  lemma RunEnsure(t: Chains, rules: seq<Args>, a: Args, p: Packet, depth: nat)
    ensures Run(t, Ensure(rules, a), p, depth) == Run(t, rules + [a], p, depth)
  {
    if a in rules {
      RunConcat(t, rules, [a], p, depth);
      RunPassesAll(t, rules, p, depth);
      RunPassesAll(t, [a], p, depth);
    }
  }

  /** Leaving out repeated rules changes no decision, whatever the rules jump or return to. */
  lemma {:induction false} RunEnsureAll(t: Chains, rules: seq<Args>, xs: seq<Args>, p: Packet, depth: nat)
    ensures Run(t, EnsureAll(rules, xs), p, depth) == Run(t, rules + xs, p, depth)
    decreases |xs|
  {
    if xs == [] {
      assert rules + xs == rules;
    } else {
      RunEnsureAll(t, Ensure(rules, xs[0]), xs[1..], p, depth);
      RunEnsure(t, rules, xs[0], p, depth);
      RunConcat(t, Ensure(rules, xs[0]), xs[1..], p, depth);
      RunConcat(t, rules + [xs[0]], xs[1..], p, depth);
      assert rules + [xs[0]] + xs[1..] == rules + xs;
    }
  }

  /** `t` is `u` with every chain built by appending only absent rules. */
  ghost predicate Deduplicates(t: Chains, u: Chains) {
    t.Keys == u.Keys && forall c :: c in t ==> t[c] == EnsureAll([], u[c])
  }

  lemma {:induction false} StepDeduplicated(t: Chains, u: Chains, a: Args, p: Packet, depth: nat)
    requires Deduplicates(t, u)
    ensures Step(t, a, p, depth) == Step(u, a, p, depth)
    decreases depth, 0
  {
    var target := Target(a);
    if target in t && depth > 0 {
      RunDeduplicated(t, u, t[target], p, depth - 1);
      RunEnsureAll(u, [], u[target], p, depth - 1);
      assert [] + u[target] == u[target];
    }
  }

  lemma {:induction false} RunDeduplicated(t: Chains, u: Chains, rules: seq<Args>, p: Packet, depth: nat)
    requires Deduplicates(t, u)
    ensures Run(t, rules, p, depth) == Run(u, rules, p, depth)
    decreases depth, |rules| + 1
  {
    if rules != [] {
      StepDeduplicated(t, u, rules[0], p, depth);
      RunDeduplicated(t, u, rules[1..], p, depth);
    }
  }

  /** A whole table built by EnsureRule gives every packet the verdict of the table with its repetitions. */
  lemma EnsureAppendPreservesVerdict(t: Chains, u: Chains, hook: string, p: Packet)
    requires Deduplicates(t, u)
    ensures Accepted(t, hook, p) <==> Accepted(u, hook, p)
  {
    if hook in t {
      RunDeduplicated(t, u, t[hook], p, JUMP_LIMIT);
      RunEnsureAll(u, [], u[hook], p, JUMP_LIMIT);
      assert [] + u[hook] == u[hook];
    }
  }

  /** A list of accepting rules accepts what one of them matches and passes on the rest: order plays no part. */
  lemma {:induction false} RunAccepting(t: Chains, xs: seq<Args>, p: Packet, depth: nat)
    requires forall a :: a in xs ==> Target(a) == IPTABLES_ACCEPT
    ensures Run(t, xs, p, depth) == if exists a :: a in xs && Matches(a, p) then Some(Accept) else None
  {
    RunPassesAll(t, xs, p, depth);
  }

  // ---- What the conntrack state texts mean ----

  lemma EstablishedRelatedStates(s: ConnState)
    ensures s.Name() in Split(STATE_ESTABLISHED_RELATED, ',') <==> s.Established? || s.Related?
  {
    ListOfTwo("ESTABLISHED", "RELATED", STATE_ESTABLISHED_RELATED, s);
    StateNames(s);
  }

  lemma NewEstablishedStates(s: ConnState)
    ensures s.Name() in Split(STATE_NEW_ESTABLISHED, ',') <==> s.New? || s.Established?
  {
    ListOfTwo("NEW", "ESTABLISHED", STATE_NEW_ESTABLISHED, s);
    StateNames(s);
  }

  lemma ListOfTwo(a: string, b: string, text: string, s: ConnState)
    requires ',' !in a && ',' !in b && text == a + [','] + b
    ensures s.Name() in Split(text, ',') <==> s.Name() == a || s.Name() == b
  {
    SplitAtSeparator(a, ',', b);
    SplitWithoutSeparator(b, ',');
  }

  lemma StateNames(s: ConnState)
    ensures s.Name() == "ESTABLISHED" <==> s.Established?
    ensures s.Name() == "RELATED" <==> s.Related?
    ensures s.Name() == "NEW" <==> s.New?
  {
    assert "NEW"[0] == 'N' && "ESTABLISHED"[0] == 'E' && "RELATED"[0] == 'R' && "INVALID"[0] == 'I' && "UNTRACKED"[0] == 'U';
  }
}
