/** Installing a rule set: the filter tables of a network namespace, changed call by call. */
module Provisioner {
  import opened PolTypes
  import opened RuleArguments
  import opened PacketFilter

  const DEFAULT_INPUT_RULES := NetRuleChain(CHAIN_INPUT, [
    EMPTY_RULE.(sourceIface := "lo", operation := IPTABLES_ACCEPT),
    EMPTY_RULE.(state := STATE_ESTABLISHED_RELATED, operation := IPTABLES_ACCEPT),
    EMPTY_RULE.(operation := IPTABLES_REJECT)])

  const DEFAULT_OUTPUT_RULES := NetRuleChain(CHAIN_OUTPUT, [
    EMPTY_RULE.(destIface := "lo", operation := IPTABLES_ACCEPT),
    EMPTY_RULE.(state := STATE_ESTABLISHED_RELATED, operation := IPTABLES_ACCEPT),
    EMPTY_RULE.(protocol := "tcp", destPort := "53", state := STATE_NEW_ESTABLISHED, operation := IPTABLES_ACCEPT),
    EMPTY_RULE.(protocol := "udp", destPort := "53", state := STATE_NEW_ESTABLISHED, operation := IPTABLES_ACCEPT),
    EMPTY_RULE.(operation := IPTABLES_REJECT)])

  const DEFAULT_FORWARD_RULES := NetRuleChain(CHAIN_FORWARD, [EMPTY_RULE.(operation := IPTABLES_REJECT)])

  const DEFAULT_RETURN_RULE := EMPTY_RULE.(operation := IPTABLES_RETURN)

  /** The rule that sends a built-in chain's packets to the chain of this family. */
  function JumpRules(dir: Direction, fam: Family): NetRuleChain {
    NetRuleChain(HookName(dir), [EMPTY_RULE.(operation := ChainName(dir, fam))])
  }

  predicate IsBuiltIn(chain: string) {
    chain == CHAIN_INPUT || chain == CHAIN_OUTPUT || chain == CHAIN_FORWARD
  }

  /** A namespace nobody has provisioned yet: the built-in chains, empty. */
  const FRESH: Chains := map[CHAIN_INPUT := [], CHAIN_OUTPUT := [], CHAIN_FORWARD := []]

  // ---- Calls on a table ----

  datatype Op =
    | EnsureChain(chain: string)
    | FlushChain(chain: string)
    | EnsureRule(chain: string, args: Args)

  /** The table after one call; a call that fails changes nothing. */
  function Apply(t: Chains, op: Op, fails: bool): Chains {
    if fails then t
    else
      match op
      case EnsureChain(c) => if c in t then t else t[c := []]
      case FlushChain(c) => if c in t then t[c := []] else t
      case EnsureRule(c, a) => if c in t then t[c := Ensure(t[c], a)] else t
  }

  /** The table after a series of calls, of which those numbered in `faults` fail. */
  function Exec(t: Chains, ops: seq<Op>, faults: set<nat>): Chains {
    if ops == [] then t
    else
      var n := |ops| - 1;
      Apply(Exec(t, ops[..n], faults), ops[n], n in faults)
  }

  function ArgsAll(rules: seq<NetRule>): seq<Args> {
    seq(|rules|, i requires 0 <= i < |rules| => ArgsOf(rules[i]))
  }

  /** Everything put into a chain: its rules, closed by RETURN when the chain is one of our own. */
  function ChainArgs(chain: NetRuleChain): seq<Args> {
    ArgsAll(chain.rules)
    + (if IsBuiltIn(chain.name) || chain.rules == [] then [] else [ArgsOf(DEFAULT_RETURN_RULE)])
  }

  function EnsureOps(chain: string, xs: seq<Args>): seq<Op> {
    seq(|xs|, i requires 0 <= i < |xs| => EnsureRule(chain, xs[i]))
  }

  function RuleOps(chain: NetRuleChain): seq<Op> {
    EnsureOps(chain.name, ChainArgs(chain))
  }

  function ChainOps(chain: NetRuleChain, jumpRules: NetRuleChain): seq<Op> {
    if chain.rules == [] then []
    else [EnsureChain(chain.name)] + [FlushChain(chain.name)] + RuleOps(jumpRules)
  }

  /** The calls that create the chains of one family. */
  function ChainsPlan(fam: Family, ingress: NetRuleChain, egress: NetRuleChain): seq<Op> {
    ChainOps(ingress, JumpRules(Ingress, fam)) + ChainOps(egress, JumpRules(Egress, fam))
  }

  const DEFAULT_OPS := RuleOps(DEFAULT_INPUT_RULES) + RuleOps(DEFAULT_OUTPUT_RULES) + RuleOps(DEFAULT_FORWARD_RULES)

  /** All calls of one run on the table of one family. */
  function Plan(fam: Family, ingress: NetRuleChain, egress: NetRuleChain): seq<Op> {
    ChainsPlan(fam, ingress, egress) + (RuleOps(ingress) + RuleOps(egress)) + DEFAULT_OPS
  }

  /** `trace` is the history of a table: its states before and after every call of `ops`. */
  ghost predicate IsTrace(trace: seq<Chains>, start: Chains, ops: seq<Op>, faults: set<nat>) {
    && |trace| == |ops| + 1
    && trace[0] == start
    && forall i :: 0 <= i < |ops| ==> trace[i + 1] == Apply(trace[i], ops[i], i in faults)
  }

  /** The state after the first k calls is what those calls make of the first state. */
  lemma {:induction false} TraceIsExec(trace: seq<Chains>, start: Chains, ops: seq<Op>, faults: set<nat>, k: nat)
    requires IsTrace(trace, start, ops, faults) && k <= |ops|
    ensures trace[k] == Exec(start, ops[..k], faults)
  {
    if k > 0 {
      TraceIsExec(trace, start, ops, faults, k - 1);
      assert ops[..k][..k - 1] == ops[..k - 1];
    }
  }

  /** The table of one family. The calls numbered in `faults` fail; `log` remembers every call made,
      and `trace` every state the table has been in. */
  class FilterTable {
    ghost const start: Chains
    const faults: set<nat>
    var chains: Chains
    var calls: nat
    ghost var log: seq<Op>
    ghost var trace: seq<Chains>

    ghost predicate Valid()
      reads this
    {
      && calls == |log|
      && IsTrace(trace, start, log, faults)
      && chains == trace[calls]
    }

    constructor (start: Chains, faults: set<nat>)
      ensures Valid() && log == [] && this.start == start == chains && this.faults == faults
    {
      this.start, this.faults := start, faults;
      chains, calls, log, trace := start, 0, [], [start];
    }

    method EnsureChain(chain: string) returns (err: bool)
      requires Valid()
      modifies this
      ensures Valid() && log == old(log) + [Op.EnsureChain(chain)]
      ensures chains == Apply(old(chains), Op.EnsureChain(chain), err)
      ensures err <==> old(calls) in faults
    {
      err := calls in faults;
      if !err && chain !in chains {
        chains := chains[chain := []];
      }
      Record(Op.EnsureChain(chain));
    }

    method FlushChain(chain: string) returns (err: bool)
      requires Valid()
      modifies this
      ensures Valid() && log == old(log) + [Op.FlushChain(chain)]
      ensures chains == Apply(old(chains), Op.FlushChain(chain), err)
      ensures err <==> old(calls) in faults || chain !in old(chains)
    {
      err := calls in faults || chain !in chains;
      if !err {
        chains := chains[chain := []];
      }
      Record(Op.FlushChain(chain));
    }

    /** Append the rule unless the chain has it already. */
    method EnsureRule(chain: string, args: Args) returns (existed: bool, err: bool)
      requires Valid()
      modifies this
      ensures Valid() && log == old(log) + [Op.EnsureRule(chain, args)]
      ensures chains == Apply(old(chains), Op.EnsureRule(chain, args), err)
      ensures err <==> old(calls) in faults || chain !in old(chains)
      ensures existed <==> !err && args in old(chains)[chain]
    {
      existed := false;
      err := calls in faults || chain !in chains;
      if !err {
        existed := args in chains[chain];
        if !existed {
          chains := chains[chain := chains[chain] + [args]];
        }
      }
      Record(Op.EnsureRule(chain, args));
    }

    /** Number the call just made. */
    method Record(op: Op)
      requires calls == |log| && IsTrace(trace, start, log, faults)
      requires chains == Apply(trace[calls], op, calls in faults)
      modifies this`calls, this`log, this`trace
      ensures Valid() && log == old(log) + [op]
    {
      calls, log, trace := calls + 1, log + [op], trace + [chains];
    }
  }

  // ---- The provisioning sequence ----

  lemma AppendNothing(log: seq<Op>)
    ensures log + [] == log
  {
  }

  lemma AppendTwo(log: seq<Op>, a: seq<Op>, b: seq<Op>)
    ensures log + a + b == log + (a + b)
    ensures log <= log + a <= log + (a + b)
  {
  }

  lemma AppendThree(log: seq<Op>, a: seq<Op>, b: seq<Op>, c: seq<Op>)
    ensures log + a + b + c == log + (a + b + c)
  {
  }

  method ProvisionRulesIntoChain(table: FilterTable, chain: NetRuleChain)
    requires table.Valid()
    modifies table
    ensures table.Valid() && table.log == old(table.log) + RuleOps(chain)
  {
    ghost var xs := ChainArgs(chain);
    for i := 0 to |chain.rules|
      invariant table.Valid() && table.log == old(table.log) + EnsureOps(chain.name, xs[..i])
    {
      var args := CreateArgsFromRule(chain.rules[i]);
      var _, err := table.EnsureRule(chain.name, args);
      EnsureOneMore(old(table.log), chain.name, xs, i);
    }
    if !IsBuiltIn(chain.name) && |chain.rules| > 0 {
      var args := CreateArgsFromRule(DEFAULT_RETURN_RULE);
      var _, err := table.EnsureRule(chain.name, args);
      EnsureOneMore(old(table.log), chain.name, xs, |chain.rules|);
    }
    assert xs[..|xs|] == xs;
  }

  lemma EnsureOneMore(log: seq<Op>, chain: string, xs: seq<Args>, i: nat)
    requires i < |xs|
    ensures log + EnsureOps(chain, xs[..i]) + [EnsureRule(chain, xs[i])] == log + EnsureOps(chain, xs[..i + 1])
  {
    assert EnsureOps(chain, xs[..i + 1]) == EnsureOps(chain, xs[..i]) + [EnsureRule(chain, xs[i])];
  }

  method EnsureChainWithJump(table: FilterTable, chain: NetRuleChain, jumpRules: NetRuleChain) returns (err: bool)
    requires table.Valid()
    modifies table
    ensures table.Valid() && table.log == old(table.log) + ChainOps(chain, jumpRules)
    ensures err <==> chain.rules != [] && old(table.calls) in table.faults
  {
    err := false;
    if |chain.rules| > 0 {
      err := table.EnsureChain(chain.name);
      var _ := table.FlushChain(chain.name);
      ProvisionRulesIntoChain(table, jumpRules);
      AppendThree(old(table.log), [Op.EnsureChain(chain.name)], [Op.FlushChain(chain.name)], RuleOps(jumpRules));
    } else {
      AppendNothing(table.log);
    }
  }

  /** Creating the chains of a run fails: one of its four EnsureChain calls does. */
  ghost predicate ChainsFail(rs: NetRuleSet, calls4: nat, faults4: set<nat>, calls6: nat, faults6: set<nat>) {
    || (rs.ingressV4.rules != [] && calls4 in faults4)
    || (rs.ingressV6.rules != [] && calls6 in faults6)
    || (rs.egressV4.rules != [] && calls4 + |ChainOps(rs.ingressV4, JumpRules(Ingress, V4))| in faults4)
    || (rs.egressV6.rules != [] && calls6 + |ChainOps(rs.ingressV6, JumpRules(Ingress, V6))| in faults6)
  }

  /** How many of the four chains, taken in the order ingress v4, ingress v6, egress v4, egress v6, are gone through:
      all up to the first that cannot be created, which itself still is flushed and jumped to. */
  ghost function ChainsGoneThrough(
    rs: NetRuleSet, calls4: nat, faults4: set<nat>, calls6: nat, faults6: set<nat>): (n: nat)
    ensures n < 4 ==> ChainsFail(rs, calls4, faults4, calls6, faults6)
  {
    if rs.ingressV4.rules != [] && calls4 in faults4 then 1
    else if rs.ingressV6.rules != [] && calls6 in faults6 then 2
    else if rs.egressV4.rules != [] && calls4 + |ChainOps(rs.ingressV4, JumpRules(Ingress, V4))| in faults4 then 3
    else 4
  }

  /** The calls made on the table of one family for the first n of the four chains. */
  function CallsForChains(rs: NetRuleSet, fam: Family, n: nat): (ops: seq<Op>)
    ensures ops <= ChainsPlan(fam, rs.Chain(Ingress, fam), rs.Chain(Egress, fam))
    ensures n == 4 ==> ops == ChainsPlan(fam, rs.Chain(Ingress, fam), rs.Chain(Egress, fam))
  {
    var ingress := ChainOps(rs.Chain(Ingress, fam), JumpRules(Ingress, fam));
    var egress := ChainOps(rs.Chain(Egress, fam), JumpRules(Egress, fam));
    if n < (if fam.V4? then 1 else 2) then []
    else if n < (if fam.V4? then 3 else 4) then ingress
    else ingress + egress
  }

  /** A chain that cannot be created stops the run: no later chain, in the order ingress v4, ingress v6, egress v4,
      egress v6, is created, flushed or jumped to. */
  lemma FailureStopsTheRest(rs: NetRuleSet, calls4: nat, faults4: set<nat>, calls6: nat, faults6: set<nat>)
    ensures var n := ChainsGoneThrough(rs, calls4, faults4, calls6, faults6);
            var ingress4, ingress6 := ChainOps(rs.ingressV4, JumpRules(Ingress, V4)), ChainOps(rs.ingressV6, JumpRules(Ingress, V6));
            var egress4, egress6 := ChainOps(rs.egressV4, JumpRules(Egress, V4)), ChainOps(rs.egressV6, JumpRules(Egress, V6));
            var calls := (CallsForChains(rs, V4, n), CallsForChains(rs, V6, n));
            if rs.ingressV4.rules != [] && calls4 in faults4 then calls == (ingress4, [])
            else if rs.ingressV6.rules != [] && calls6 in faults6 then calls == (ingress4, ingress6)
            else if rs.egressV4.rules != [] && calls4 + |ingress4| in faults4 then calls == (ingress4 + egress4, ingress6)
            else calls == (ingress4 + egress4, ingress6 + egress6)
  {
  }

  method EnsureChains(v4: FilterTable, v6: FilterTable, ruleSet: NetRuleSet) returns (err: bool)
    requires v4 != v6 && v4.Valid() && v6.Valid()
    modifies v4, v6
    ensures v4.Valid() && v6.Valid()
    ensures err <==> ChainsFail(ruleSet, old(v4.calls), v4.faults, old(v6.calls), v6.faults)
    ensures var n := ChainsGoneThrough(ruleSet, old(v4.calls), v4.faults, old(v6.calls), v6.faults);
            && v4.log == old(v4.log) + CallsForChains(ruleSet, V4, n)
            && v6.log == old(v6.log) + CallsForChains(ruleSet, V6, n)
  {
    ghost var log4, log6 := v4.log, v6.log;
    AppendTwo(log4, ChainOps(ruleSet.ingressV4, JumpRules(Ingress, V4)), ChainOps(ruleSet.egressV4, JumpRules(Egress, V4)));
    AppendTwo(log6, ChainOps(ruleSet.ingressV6, JumpRules(Ingress, V6)), ChainOps(ruleSet.egressV6, JumpRules(Egress, V6)));
    AppendNothing(log6);
    err := EnsureChainWithJump(v4, ruleSet.ingressV4, JumpRules(Ingress, V4));
    if err {
      return;
    }
    err := EnsureChainWithJump(v6, ruleSet.ingressV6, JumpRules(Ingress, V6));
    if err {
      return;
    }
    err := EnsureChainWithJump(v4, ruleSet.egressV4, JumpRules(Egress, V4));
    if err {
      return;
    }
    err := EnsureChainWithJump(v6, ruleSet.egressV6, JumpRules(Egress, V6));
  }

  method ProvisionDynamicRules(v4: FilterTable, v6: FilterTable, ruleSet: NetRuleSet)
    requires v4 != v6 && v4.Valid() && v6.Valid()
    modifies v4, v6
    ensures v4.Valid() && v4.log == old(v4.log) + (RuleOps(ruleSet.ingressV4) + RuleOps(ruleSet.egressV4))
    ensures v6.Valid() && v6.log == old(v6.log) + (RuleOps(ruleSet.ingressV6) + RuleOps(ruleSet.egressV6))
  {
    ProvisionRulesIntoChain(v4, ruleSet.ingressV4);
    ProvisionRulesIntoChain(v6, ruleSet.ingressV6);
    ProvisionRulesIntoChain(v4, ruleSet.egressV4);
    ProvisionRulesIntoChain(v6, ruleSet.egressV6);
    AppendTwo(old(v4.log), RuleOps(ruleSet.ingressV4), RuleOps(ruleSet.egressV4));
    AppendTwo(old(v6.log), RuleOps(ruleSet.ingressV6), RuleOps(ruleSet.egressV6));
  }

  method ProvisionDefaultRules(v4: FilterTable, v6: FilterTable)
    requires v4 != v6 && v4.Valid() && v6.Valid()
    modifies v4, v6
    ensures v4.Valid() && v4.log == old(v4.log) + DEFAULT_OPS
    ensures v6.Valid() && v6.log == old(v6.log) + DEFAULT_OPS
  {
    ProvisionRulesIntoChain(v4, DEFAULT_INPUT_RULES);
    ProvisionRulesIntoChain(v4, DEFAULT_OUTPUT_RULES);
    ProvisionRulesIntoChain(v4, DEFAULT_FORWARD_RULES);
    ProvisionRulesIntoChain(v6, DEFAULT_INPUT_RULES);
    ProvisionRulesIntoChain(v6, DEFAULT_OUTPUT_RULES);
    ProvisionRulesIntoChain(v6, DEFAULT_FORWARD_RULES);
    AppendThree(old(v4.log), RuleOps(DEFAULT_INPUT_RULES), RuleOps(DEFAULT_OUTPUT_RULES), RuleOps(DEFAULT_FORWARD_RULES));
    AppendThree(old(v6.log), RuleOps(DEFAULT_INPUT_RULES), RuleOps(DEFAULT_OUTPUT_RULES), RuleOps(DEFAULT_FORWARD_RULES));
  }

  /** One run on the two tables of the Pod's namespace. Either the chains could be created and each table went
      through its whole plan, or the run stopped after the first chain that could not. */
  method AddRulesToNewPod(v4: FilterTable, v6: FilterTable, ruleSet: NetRuleSet) returns (ok: bool)
    requires v4 != v6 && v4.Valid() && v6.Valid()
    modifies v4, v6
    ensures v4.Valid() && v6.Valid()
    ensures ok <==> !ChainsFail(ruleSet, old(v4.calls), v4.faults, old(v6.calls), v6.faults)
    ensures ok ==> v4.log == old(v4.log) + Plan(V4, ruleSet.ingressV4, ruleSet.egressV4)
    ensures ok ==> v6.log == old(v6.log) + Plan(V6, ruleSet.ingressV6, ruleSet.egressV6)
    ensures !ok ==> var n := ChainsGoneThrough(ruleSet, old(v4.calls), v4.faults, old(v6.calls), v6.faults);
                    && v4.log == old(v4.log) + CallsForChains(ruleSet, V4, n)
                    && v6.log == old(v6.log) + CallsForChains(ruleSet, V6, n)
  {
    var err := EnsureChains(v4, v6, ruleSet);
    if err {
      return false;
    }
    ProvisionDynamicRules(v4, v6, ruleSet);
    ProvisionDefaultRules(v4, v6);
    AppendThree(old(v4.log), ChainsPlan(V4, ruleSet.ingressV4, ruleSet.egressV4),
                RuleOps(ruleSet.ingressV4) + RuleOps(ruleSet.egressV4), DEFAULT_OPS);
    AppendThree(old(v6.log), ChainsPlan(V6, ruleSet.ingressV6, ruleSet.egressV6),
                RuleOps(ruleSet.ingressV6) + RuleOps(ruleSet.egressV6), DEFAULT_OPS);
    ok := true;
  }
}
