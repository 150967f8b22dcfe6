/** The effect of a series of calls, seen one chain at a time. */
module ChainEffects {
  import opened PolTypes
  import opened RuleArguments
  import opened PacketFilter
  import opened Provisioner

  function Lookup(t: Chains, c: string): Option<seq<Args>> {
    if c in t then Some(t[c]) else None
  }

  /** What a call naming this chain does to it. */
  function ChainApply(x: Option<seq<Args>>, op: Op): Option<seq<Args>> {
    match op
    case EnsureChain(_) => if x.None? then Some([]) else x
    case FlushChain(_) => if x.None? then x else Some([])
    case EnsureRule(_, a) => if x.None? then x else Some(Ensure(x.value, a))
  }

  /** What a series of fault-free calls does to chain `c`. */
  function ChainExec(x: Option<seq<Args>>, ops: seq<Op>, c: string): Option<seq<Args>>
    decreases |ops|
  {
    if ops == [] then x
    else ChainExec(if ops[0].chain == c then ChainApply(x, ops[0]) else x, ops[1..], c)
  }

  lemma {:induction false} ChainExecConcat(x: Option<seq<Args>>, a: seq<Op>, b: seq<Op>, c: string)
    ensures ChainExec(x, a + b, c) == ChainExec(ChainExec(x, a, c), b, c)
    decreases |a|
  {
    if a == [] {
      assert a + b == b;
    } else {
      assert (a + b)[1..] == a[1..] + b;
      ChainExecConcat(if a[0].chain == c then ChainApply(x, a[0]) else x, a[1..], b, c);
    }
  }

  /** Calls on a table act on each chain separately. */
  lemma {:induction false} ExecByChain(t: Chains, ops: seq<Op>, c: string)
    ensures Lookup(Exec(t, ops, {}), c) == ChainExec(Lookup(t, c), ops, c)
  {
    if ops != [] {
      var n := |ops| - 1;
      ExecByChain(t, ops[..n], c);
      ChainExecConcat(Lookup(t, c), ops[..n], [ops[n]], c);
      assert ops == ops[..n] + [ops[n]];
      assert [ops[n]][1..] == [];
    }
  }

  lemma {:induction false} ChainExecElsewhere(x: Option<seq<Args>>, ops: seq<Op>, c: string)
    requires forall op :: op in ops ==> op.chain != c
    ensures ChainExec(x, ops, c) == x
    decreases |ops|
  {
    if ops != [] {
      ChainExecElsewhere(x, ops[1..], c);
    }
  }

  lemma {:induction false} ChainExecEnsures(x: Option<seq<Args>>, xs: seq<Args>, c: string)
    ensures ChainExec(x, EnsureOps(c, xs), c) == if x.None? then None else Some(EnsureAll(x.value, xs))
    decreases |xs|
  {
    if xs != [] {
      assert EnsureOps(c, xs)[1..] == EnsureOps(c, xs[1..]);
      ChainExecEnsures(ChainApply(x, EnsureRule(c, xs[0])), xs[1..], c);
    }
  }

  /** What the calls for the rules of `chain` do to chain `c`. */
  function AfterRules(x: Option<seq<Args>>, chain: NetRuleChain, c: string): Option<seq<Args>> {
    if chain.name == c && x.Some? then Some(EnsureAll(x.value, ChainArgs(chain))) else x
  }

  lemma RuleOpsEffect(x: Option<seq<Args>>, chain: NetRuleChain, c: string)
    ensures ChainExec(x, RuleOps(chain), c) == AfterRules(x, chain, c)
  {
    if chain.name == c {
      ChainExecEnsures(x, ChainArgs(chain), c);
    } else {
      ChainExecElsewhere(x, RuleOps(chain), c);
    }
  }

  /** What creating `chain`, and the jump to it, does to chain `c`. */
  function AfterChain(x: Option<seq<Args>>, chain: NetRuleChain, jumpRules: NetRuleChain, c: string)
    : Option<seq<Args>>
  {
    if chain.rules == [] then x
    else AfterRules(if chain.name == c then Some([]) else x, jumpRules, c)
  }

  lemma ChainOpsEffect(x: Option<seq<Args>>, chain: NetRuleChain, jumpRules: NetRuleChain, c: string)
    ensures ChainExec(x, ChainOps(chain, jumpRules), c) == AfterChain(x, chain, jumpRules, c)
  {
    if chain.rules != [] {
      var first := [EnsureChain(chain.name), FlushChain(chain.name)];
      ChainExecConcat(x, first, RuleOps(jumpRules), c);
      assert first[1..] == [FlushChain(chain.name)];
      assert first[1..][1..] == [];
      RuleOpsEffect(if chain.name == c then Some([]) else x, jumpRules, c);
    }
  }

  /** What a whole run does to chain `c`. */
  function AfterPlan(x: Option<seq<Args>>, fam: Family, ingress: NetRuleChain, egress: NetRuleChain, c: string)
    : Option<seq<Args>>
  {
    var x1 := AfterChain(x, ingress, JumpRules(Ingress, fam), c);
    var x2 := AfterChain(x1, egress, JumpRules(Egress, fam), c);
    var x3 := AfterRules(AfterRules(x2, ingress, c), egress, c);
    AfterRules(AfterRules(AfterRules(x3, DEFAULT_INPUT_RULES, c), DEFAULT_OUTPUT_RULES, c), DEFAULT_FORWARD_RULES, c)
  }

  lemma PlanEffect(x: Option<seq<Args>>, fam: Family, ingress: NetRuleChain, egress: NetRuleChain, c: string)
    ensures ChainExec(x, Plan(fam, ingress, egress), c) == AfterPlan(x, fam, ingress, egress, c)
  {
    ChainExecConcat(x, ChainsPlan(fam, ingress, egress) + (RuleOps(ingress) + RuleOps(egress)), DEFAULT_OPS, c);
    ChainExecConcat(x, ChainsPlan(fam, ingress, egress), RuleOps(ingress) + RuleOps(egress), c);
    ChainExecConcat(x, ChainOps(ingress, JumpRules(Ingress, fam)), ChainOps(egress, JumpRules(Egress, fam)), c);
    ChainOpsEffect(x, ingress, JumpRules(Ingress, fam), c);
    var x1 := AfterChain(x, ingress, JumpRules(Ingress, fam), c);
    ChainOpsEffect(x1, egress, JumpRules(Egress, fam), c);
    var x2 := AfterChain(x1, egress, JumpRules(Egress, fam), c);
    PairEffect(x2, ingress, egress, c);
    var x3 := AfterRules(AfterRules(x2, ingress, c), egress, c);
    DefaultsEffect(x3, c);
  }

  lemma PairEffect(x: Option<seq<Args>>, first: NetRuleChain, second: NetRuleChain, c: string)
    ensures ChainExec(x, RuleOps(first) + RuleOps(second), c) == AfterRules(AfterRules(x, first, c), second, c)
  {
    ChainExecConcat(x, RuleOps(first), RuleOps(second), c);
    RuleOpsEffect(x, first, c);
    RuleOpsEffect(AfterRules(x, first, c), second, c);
  }

  lemma DefaultsEffect(x: Option<seq<Args>>, c: string)
    ensures ChainExec(x, DEFAULT_OPS, c)
            == AfterRules(AfterRules(AfterRules(x, DEFAULT_INPUT_RULES, c), DEFAULT_OUTPUT_RULES, c),
                          DEFAULT_FORWARD_RULES, c)
  {
    var both := RuleOps(DEFAULT_INPUT_RULES) + RuleOps(DEFAULT_OUTPUT_RULES);
    ChainExecConcat(x, both, RuleOps(DEFAULT_FORWARD_RULES), c);
    PairEffect(x, DEFAULT_INPUT_RULES, DEFAULT_OUTPUT_RULES, c);
    RuleOpsEffect(AfterRules(AfterRules(x, DEFAULT_INPUT_RULES, c), DEFAULT_OUTPUT_RULES, c), DEFAULT_FORWARD_RULES, c);
  }

  lemma {:induction false} ExecConcat(t: Chains, a: seq<Op>, b: seq<Op>)
    ensures Exec(t, a + b, {}) == Exec(Exec(t, a, {}), b, {})
    decreases |b|
  {
    if b == [] {
      assert a + b == a;
    } else {
      var n := |b| - 1;
      assert (a + b)[..|a| + n] == a + b[..n];
      ExecConcat(t, a, b[..n]);
    }
  }

  // ---- With failing calls ----

  /** Of the calls numbered in `faults`, those after the first k, numbered from there. */
  function Later(faults: set<nat>, k: nat): set<nat> {
    set n | n in faults && n >= k :: n - k
  }

  /** Calls on other chains leave a chain alone, whether they fail or not. */
  lemma {:induction false} ExecElsewhere(t: Chains, ops: seq<Op>, faults: set<nat>, c: string)
    requires forall op :: op in ops ==> op.chain != c
    ensures Lookup(Exec(t, ops, faults), c) == Lookup(t, c)
  {
    if ops != [] {
      var n := |ops| - 1;
      assert ops[n] in ops;
      ExecElsewhere(t, ops[..n], faults, c);
    }
  }

  /** Going on where a series of calls ended. */
  lemma {:induction false} ExecSplit(t: Chains, a: seq<Op>, b: seq<Op>, faults: set<nat>)
    ensures Exec(t, a + b, faults) == Exec(Exec(t, a, faults), b, Later(faults, |a|))
    decreases |b|
  {
    if b == [] {
      assert a + b == a;
    } else {
      var n := |b| - 1;
      assert (a + b)[..|a| + n] == a + b[..n];
      ExecSplit(t, a, b[..n], faults);
      assert |a| + n in faults ==> (|a| + n) - |a| in Later(faults, |a|);
    }
  }

  /** A rule is in a chain only if some call that did not fail put it there. */
  lemma {:induction false} RulesComeFromCalls(ops: seq<Op>, faults: set<nat>, c: string, a: Args)
    requires a in Bucket(Exec(FRESH, ops, faults), c)
    ensures exists i :: 0 <= i < |ops| && i !in faults && ops[i] == EnsureRule(c, a)
  {
    if ops != [] {
      var n := |ops| - 1;
      var before := Exec(FRESH, ops[..n], faults);
      if a in Bucket(before, c) {
        RulesComeFromCalls(ops[..n], faults, c, a);
        var i :| 0 <= i < n && i !in faults && ops[..n][i] == EnsureRule(c, a);
        assert ops[i] == EnsureRule(c, a);
      } else {
        assert ops[n] == EnsureRule(c, a) && n !in faults;
      }
    }
  }

  /** A rule that one call put into a chain nobody flushes stays there. */
  lemma {:induction false} EnsuredRuleStays(ops: seq<Op>, faults: set<nat>, c: string, a: Args, i: nat)
    requires c in FRESH && i < |ops| && i !in faults && ops[i] == EnsureRule(c, a)
    requires forall op :: op in ops ==> op != FlushChain(c)
    ensures a in Bucket(Exec(FRESH, ops, faults), c)
  {
    var n := |ops| - 1;
    assert ops[n] in ops;
    ChainsStay(ops[..n], faults, c);
    if i < n {
      assert ops[..n][i] == ops[i];
      assert forall op :: op in ops[..n] ==> op in ops;
      EnsuredRuleStays(ops[..n], faults, c, a, i);
    }
  }

  lemma {:induction false} ChainsStay(ops: seq<Op>, faults: set<nat>, c: string)
    requires c in FRESH
    ensures c in Exec(FRESH, ops, faults)
  {
    if ops != [] {
      ChainsStay(ops[..|ops| - 1], faults, c);
    }
  }
}
