/** Rules as iptables argument lists, and the reading of such a list back into a rule. */
module RuleArguments {
  import opened PolTypes

  type Args = seq<string>

  function Flag(flag: string, value: string): Args {
    if value == "" then [] else [flag, value]
  }

  function StateFlag(state: string): Args {
    if state == "" then [] else ["-m", "conntrack", "--ctstate", state]
  }

  /** A rule without an operation accepts. */
  function Normalised(r: NetRule): NetRule {
    if r.operation == "" then r.(operation := IPTABLES_ACCEPT) else r
  }

  /** Protocol, ports and interfaces. */
  function LinkArgs(r: NetRule): Args {
    Flag("-p", r.protocol) + Flag("--sport", r.sourcePort) + Flag("--dport", r.destPort)
    + Flag("-i", r.sourceIface) + Flag("-o", r.destIface)
  }

  function ArgsOf(r: NetRule): Args {
    LinkArgs(r) + Flag("-s", r.sourceIp) + Flag("-d", r.destIp)
    + StateFlag(r.state) + ["-j", Normalised(r).operation]
  }

  /** Append a flag and its value, if the field is present. */
  method AppendFlag(before: Args, flag: string, value: string) returns (args: Args)
    ensures args == before + Flag(flag, value)
  {
    args := before;
    if value != "" {
      args := args + [flag, value];
    }
  }

  method CreateArgsFromRule(rule: NetRule) returns (args: Args)
    ensures args == ArgsOf(rule)
  {
    args := AppendFlag([], "-p", rule.protocol);
    assert [] + Flag("-p", rule.protocol) == Flag("-p", rule.protocol);
    args := AppendFlag(args, "--sport", rule.sourcePort);
    args := AppendFlag(args, "--dport", rule.destPort);
    args := AppendFlag(args, "-i", rule.sourceIface);
    args := AppendFlag(args, "-o", rule.destIface);
    args := AppendFlag(args, "-s", rule.sourceIp);
    args := AppendFlag(args, "-d", rule.destIp);
    ghost var upToState := args;
    if rule.state != "" {
      args := args + ["-m", "conntrack", "--ctstate", rule.state];
    }
    assert args == upToState + StateFlag(rule.state);
    if rule.operation != "" {
      args := args + ["-j", rule.operation];
    } else {
      args := args + ["-j", IPTABLES_ACCEPT];
    }
  }

  /** The effect of one flag and its value on the rule read so far; naming the match module has none. */
  function SetField(r: NetRule, flag: string, value: string): Option<NetRule> {
    if flag == "-p" then Some(r.(protocol := value))
    else if flag == "--sport" then Some(r.(sourcePort := value))
    else if flag == "--dport" then Some(r.(destPort := value))
    else if flag == "-i" then Some(r.(sourceIface := value))
    else if flag == "-o" then Some(r.(destIface := value))
    else if flag == "-s" then Some(r.(sourceIp := value))
    else if flag == "-d" then Some(r.(destIp := value))
    else if flag == "--ctstate" then Some(r.(state := value))
    else if flag == "-j" then Some(r.(operation := value))
    else if flag == "-m" then Some(r)
    else None
  }

  /** Read flag-value pairs, starting from what is already known of the rule. */
  function ParseFrom(args: Args, known: NetRule): Option<NetRule> {
    if args == [] then Some(known)
    else if |args| == 1 then None
    else
      match SetField(known, args[0], args[1])
      case None => None
      case Some(next) => ParseFrom(args[2..], next)
  }

  function Parse(args: Args): Option<NetRule> {
    ParseFrom(args, EMPTY_RULE)
  }

  /** Reading one more pair at the end of a readable list. */
  lemma {:induction false} ParsePair(args: Args, start: NetRule, known: NetRule, flag: string, value: string)
    requires ParseFrom(args, start) == Some(known)
    ensures ParseFrom(args + [flag, value], start) == SetField(known, flag, value)
    decreases |args|
  {
    if args == [] {
      assert args + [flag, value] == [flag, value];
      assert [flag, value][2..] == [];
    } else {
      assert (args + [flag, value])[2..] == args[2..] + [flag, value];
      ParsePair(args[2..], SetField(start, args[0], args[1]).value, known, flag, value);
    }
  }

  /** The same for a pair that is left out when its value is empty. */
  lemma ParseFlag(args: Args, known: NetRule, flag: string, value: string)
    requires Parse(args) == Some(known)
    requires value == "" ==> SetField(known, flag, value) == Some(known)
    ensures Parse(args + Flag(flag, value)) == SetField(known, flag, value)
  {
    if value == "" {
      assert args + Flag(flag, value) == args;
    } else {
      ParsePair(args, EMPTY_RULE, known, flag, value);
    }
  }

  lemma ParseState(args: Args, known: NetRule, state: string)
    requires Parse(args) == Some(known) && known.state == ""
    ensures Parse(args + StateFlag(state)) == Some(known.(state := state))
  {
    if state == "" {
      assert args + StateFlag(state) == args;
    } else {
      ParsePair(args, EMPTY_RULE, known, "-m", "conntrack");
      ParsePair(args + ["-m", "conntrack"], EMPTY_RULE, known, "--ctstate", state);
      assert args + StateFlag(state) == args + ["-m", "conntrack"] + ["--ctstate", state];
    }
  }

  lemma LinkRoundTrip(r: NetRule)
    ensures Parse(LinkArgs(r))
            == Some(EMPTY_RULE.(protocol := r.protocol, sourcePort := r.sourcePort, destPort := r.destPort,
                                sourceIface := r.sourceIface, destIface := r.destIface))
  {
    var k1 := EMPTY_RULE.(protocol := r.protocol);
    var k2 := k1.(sourcePort := r.sourcePort);
    var k3 := k2.(destPort := r.destPort);
    var k4 := k3.(sourceIface := r.sourceIface);
    var a1 := Flag("-p", r.protocol);
    var a2 := a1 + Flag("--sport", r.sourcePort);
    var a3 := a2 + Flag("--dport", r.destPort);
    var a4 := a3 + Flag("-i", r.sourceIface);
    assert [] + a1 == a1;
    ParseFlag([], EMPTY_RULE, "-p", r.protocol);
    ParseFlag(a1, k1, "--sport", r.sourcePort);
    ParseFlag(a2, k2, "--dport", r.destPort);
    ParseFlag(a3, k3, "-i", r.sourceIface);
    ParseFlag(a4, k4, "-o", r.destIface);
  }

  /** Reading back the arguments of any rule gives the rule, up to an absent operation meaning ACCEPT. */
  lemma ArgumentsRoundTrip(r: NetRule)
    ensures Parse(ArgsOf(r)) == Some(Normalised(r))
  {
    LinkRoundTrip(r);
    var a5 := LinkArgs(r);
    var k5 := Parse(a5).value;
    var k6 := k5.(sourceIp := r.sourceIp);
    var k7 := k6.(destIp := r.destIp);
    var k8 := k7.(state := r.state);
    var a6 := a5 + Flag("-s", r.sourceIp);
    var a7 := a6 + Flag("-d", r.destIp);
    var a8 := a7 + StateFlag(r.state);
    ParseFlag(a5, k5, "-s", r.sourceIp);
    ParseFlag(a6, k6, "-d", r.destIp);
    ParseState(a7, k7, r.state);
    ParsePair(a8, EMPTY_RULE, k8, "-j", Normalised(r).operation);
  }

  /** Equality of arguments, the test EnsureRule makes, is equality of normalised rules. */
  lemma ArgumentsIdentifyRules(r: NetRule, s: NetRule)
    ensures ArgsOf(r) == ArgsOf(s) <==> Normalised(r) == Normalised(s)
  {
    ArgumentsRoundTrip(r);
    ArgumentsRoundTrip(s);
  }
}
