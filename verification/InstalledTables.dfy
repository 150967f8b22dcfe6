/** The tables a run leaves behind, their verdicts, and what running again makes of them. */
module InstalledTables {
  import opened PolTypes
  import opened RuleArguments
  import opened PacketFilter
  import opened Provisioner
  import opened ChainEffects

  const REJECT_RULE := EMPTY_RULE.(operation := IPTABLES_REJECT)

  function DefaultRules(dir: Direction): seq<NetRule> {
    if dir.Ingress? then DEFAULT_INPUT_RULES.rules else DEFAULT_OUTPUT_RULES.rules
  }

  function JumpArgs(dir: Direction, fam: Family): Args {
    ArgsOf(EMPTY_RULE.(operation := ChainName(dir, fam)))
  }

  function OwnChain(dir: Direction, fam: Family, rules: seq<NetRule>): NetRuleChain {
    NetRuleChain(ChainName(dir, fam), rules)
  }

  /** A built-in chain after a run: the jump, if there is anything to jump to, then the default rules. */
  function HookArgs(dir: Direction, fam: Family, rules: seq<NetRule>): seq<Args> {
    (if rules == [] then [] else [JumpArgs(dir, fam)]) + ArgsAll(DefaultRules(dir))
  }

  /** A chain of our own after a run: each rule once, in order of first occurrence, then RETURN. */
  function OwnArgs(rules: seq<NetRule>): seq<Args> {
    EnsureAll([], ArgsAll(rules) + [ArgsOf(DEFAULT_RETURN_RULE)])
  }

  function WithChain(t: Chains, c: string, x: Option<seq<Args>>): Chains {
    if x.None? then t else t[c := x.value]
  }

  function OwnIfAny(rules: seq<NetRule>): Option<seq<Args>> {
    if rules == [] then None else Some(OwnArgs(rules))
  }

  function BuiltIns(input: seq<Args>, output: seq<Args>, forward: seq<Args>): Chains {
    map[CHAIN_INPUT := input, CHAIN_OUTPUT := output, CHAIN_FORWARD := forward]
  }

  function Installed(fam: Family, ingress: seq<NetRule>, egress: seq<NetRule>): Chains {
    var hooks := BuiltIns(HookArgs(Ingress, fam, ingress), HookArgs(Egress, fam, egress), [ArgsOf(REJECT_RULE)]);
    WithChain(WithChain(hooks, ChainName(Ingress, fam), OwnIfAny(ingress)), ChainName(Egress, fam), OwnIfAny(egress))
  }

  function RunPlan(fam: Family, ingress: seq<NetRule>, egress: seq<NetRule>): seq<Op> {
    Plan(fam, OwnChain(Ingress, fam, ingress), OwnChain(Egress, fam, egress))
  }

  // ---- Names and default rules ----

  lemma OwnNames(dir: Direction, fam: Family)
    ensures ChainName(dir, fam) != CHAIN_INPUT && ChainName(dir, fam) != CHAIN_OUTPUT
    ensures ChainName(dir, fam) != CHAIN_FORWARD && ChainName(dir, fam) != IPTABLES_ACCEPT
    ensures ChainName(dir, fam) != IPTABLES_REJECT && ChainName(dir, fam) != IPTABLES_RETURN
    ensures ChainName(dir, fam) != ""
    ensures ChainName(Ingress, fam) != ChainName(Egress, fam)
  {
    assert |INGRESS_V4_CHAIN_NAME| == |INGRESS_V6_CHAIN_NAME| == 15;
    assert |EGRESS_V4_CHAIN_NAME| == |EGRESS_V6_CHAIN_NAME| == 14;
  }

  lemma HookNames()
    ensures CHAIN_INPUT != CHAIN_OUTPUT && CHAIN_INPUT != CHAIN_FORWARD && CHAIN_OUTPUT != CHAIN_FORWARD
  {
    assert |CHAIN_INPUT| == 5 && |CHAIN_OUTPUT| == 6 && |CHAIN_FORWARD| == 7;
  }

  ghost predicate Distinct<T>(xs: seq<T>) {
    forall i, j :: 0 <= i < j < |xs| ==> xs[i] != xs[j]
  }

  lemma DefaultRulesDistinct(dir: Direction)
    ensures Distinct(DefaultRules(dir))
    ensures forall r :: r in DefaultRules(dir) ==> r.operation == IPTABLES_ACCEPT || r == REJECT_RULE
    ensures |DefaultRules(dir)| > 0 && DefaultRules(dir)[|DefaultRules(dir)| - 1] == REJECT_RULE
    ensures forall i :: 0 <= i < |DefaultRules(dir)| - 1 ==> DefaultRules(dir)[i].operation == IPTABLES_ACCEPT
  {
    assert "tcp"[0] != "udp"[0];
  }

  lemma ArgsAllDistinct(rules: seq<NetRule>)
    requires Distinct(rules) && forall r :: r in rules ==> r.operation != ""
    ensures Distinct(ArgsAll(rules))
  {
    forall i, j | 0 <= i < j < |rules| ensures ArgsAll(rules)[i] != ArgsAll(rules)[j] {
      ArgumentsIdentifyRules(rules[i], rules[j]);
    }
  }

  /** The jump is none of the default rules. */
  lemma HookArgsDistinct(dir: Direction, fam: Family)
    ensures Distinct(ArgsAll(DefaultRules(dir)))
    ensures JumpArgs(dir, fam) !in ArgsAll(DefaultRules(dir))
  {
    DefaultRulesDistinct(dir);
    ArgsAllDistinct(DefaultRules(dir));
    OwnNames(dir, fam);
    forall i | 0 <= i < |DefaultRules(dir)| ensures ArgsAll(DefaultRules(dir))[i] != JumpArgs(dir, fam) {
      assert DefaultRules(dir)[i] in DefaultRules(dir);
      ArgumentsIdentifyRules(DefaultRules(dir)[i], EMPTY_RULE.(operation := ChainName(dir, fam)));
    }
  }

  // ---- A run, chain by chain ----

  /** What the parts of a run do to a built-in chain. */
  lemma HookParts(x: seq<Args>, dir: Direction, fam: Family, d: Direction, rules: seq<NetRule>)
    ensures AfterChain(Some(x), OwnChain(d, fam, rules), JumpRules(d, fam), HookName(dir))
            == Some(if d == dir && rules != [] then Ensure(x, JumpArgs(dir, fam)) else x)
    ensures AfterRules(Some(x), OwnChain(d, fam, rules), HookName(dir)) == Some(x)
  {
    HookNames();
    OwnNames(d, fam);
    var jumpArgs := JumpArgs(d, fam);
    assert ChainArgs(JumpRules(d, fam)) == [jumpArgs];
    assert EnsureAll(x, [jumpArgs]) == Ensure(x, jumpArgs) by {
      assert [jumpArgs][1..] == [];
    }
  }

  /** What the default rules do to the built-in chains. */
  lemma DefaultParts(x: seq<Args>, c: string)
    requires IsBuiltIn(c)
    ensures AfterRules(AfterRules(AfterRules(Some(x), DEFAULT_INPUT_RULES, c), DEFAULT_OUTPUT_RULES, c),
                       DEFAULT_FORWARD_RULES, c)
            == Some(if c == CHAIN_INPUT then EnsureAll(x, ArgsAll(DefaultRules(Ingress)))
                    else if c == CHAIN_OUTPUT then EnsureAll(x, ArgsAll(DefaultRules(Egress)))
                    else Ensure(x, ArgsOf(REJECT_RULE)))
  {
    HookNames();
    assert ChainArgs(DEFAULT_INPUT_RULES) == ArgsAll(DefaultRules(Ingress));
    assert ChainArgs(DEFAULT_OUTPUT_RULES) == ArgsAll(DefaultRules(Egress));
    assert ChainArgs(DEFAULT_FORWARD_RULES) == [ArgsOf(REJECT_RULE)];
    EnsureOne(x, ArgsOf(REJECT_RULE));
  }

  lemma EnsureOne(x: seq<Args>, a: Args)
    ensures EnsureAll(x, [a]) == Ensure(x, a)
  {
    assert [a][1..] == [];
  }

  function OwnPlan(x: Option<seq<Args>>, fam: Family, ingress: seq<NetRule>, egress: seq<NetRule>, c: string)
    : Option<seq<Args>>
  {
    AfterPlan(x, fam, OwnChain(Ingress, fam, ingress), OwnChain(Egress, fam, egress), c)
  }

  function RulesOf(dir: Direction, ingress: seq<NetRule>, egress: seq<NetRule>): seq<NetRule> {
    if dir.Ingress? then ingress else egress
  }

  /** A built-in chain under a run. */
  lemma HookEffect(x: seq<Args>, dir: Direction, fam: Family, ingress: seq<NetRule>, egress: seq<NetRule>)
    ensures OwnPlan(Some(x), fam, ingress, egress, HookName(dir))
            == Some(HookAfterRun(x, dir, fam, RulesOf(dir, ingress, egress)))
  {
    HookParts(x, dir, fam, Ingress, ingress);
    var x1 := if dir == Ingress && ingress != [] then Ensure(x, JumpArgs(dir, fam)) else x;
    HookParts(x1, dir, fam, Egress, egress);
    var x2 := if dir == Egress && egress != [] then Ensure(x1, JumpArgs(dir, fam)) else x1;
    HookParts(x2, dir, fam, Ingress, ingress);
    HookParts(x2, dir, fam, Egress, egress);
    DefaultParts(x2, HookName(dir));
    HookNames();
  }

  lemma ForwardEffect(x: seq<Args>, fam: Family, ingress: seq<NetRule>, egress: seq<NetRule>)
    ensures OwnPlan(Some(x), fam, ingress, egress, CHAIN_FORWARD) == Some(Ensure(x, ArgsOf(REJECT_RULE)))
  {
    HookNames();
    OwnNames(Ingress, fam);
    OwnNames(Egress, fam);
    DefaultParts(x, CHAIN_FORWARD);
  }

  /** What the parts of a run do to a chain of our own. */
  lemma OwnParts(x: Option<seq<Args>>, dir: Direction, fam: Family, d: Direction, rules: seq<NetRule>)
    ensures AfterChain(x, OwnChain(d, fam, rules), JumpRules(d, fam), ChainName(dir, fam))
            == if d == dir && rules != [] then Some([]) else x
    ensures d != dir || rules == [] ==> AfterRules(x, OwnChain(d, fam, rules), ChainName(dir, fam)) == x
    ensures d == dir && rules != [] ==> AfterRules(Some([]), OwnChain(d, fam, rules), ChainName(dir, fam)) == Some(OwnArgs(rules))
  {
    OwnNames(Ingress, fam);
    OwnNames(Egress, fam);
    assert ChainArgs(OwnChain(d, fam, rules))
           == if rules == [] then [] else ArgsAll(rules) + [ArgsOf(DEFAULT_RETURN_RULE)];
  }

  lemma DefaultsElsewhere(x: Option<seq<Args>>, c: string)
    requires !IsBuiltIn(c)
    ensures AfterRules(AfterRules(AfterRules(x, DEFAULT_INPUT_RULES, c), DEFAULT_OUTPUT_RULES, c),
                       DEFAULT_FORWARD_RULES, c) == x
  {
  }

  /** A chain of our own under a run: emptied and filled again, or left alone. */
  lemma OwnEffect(x: Option<seq<Args>>, dir: Direction, fam: Family, ingress: seq<NetRule>, egress: seq<NetRule>)
    ensures var rules := RulesOf(dir, ingress, egress);
            OwnPlan(x, fam, ingress, egress, ChainName(dir, fam)) == if rules == [] then x else Some(OwnArgs(rules))
  {
    var rules := RulesOf(dir, ingress, egress);
    var x1 := if rules == [] then x else Some([]);
    var x2 := if rules == [] then x else Some(OwnArgs(rules));
    OwnParts(x, dir, fam, Ingress, ingress);
    OwnParts(x1, dir, fam, Ingress, ingress);
    OwnParts(x, dir, fam, Egress, egress);
    OwnParts(x1, dir, fam, Egress, egress);
    OwnParts(x2, dir, fam, Egress, egress);
    OwnNames(dir, fam);
    DefaultsElsewhere(x2, ChainName(dir, fam));
  }

  /** A run touches no other chain. */
  lemma OtherEffect(x: Option<seq<Args>>, fam: Family, ingress: seq<NetRule>, egress: seq<NetRule>, c: string)
    requires !IsBuiltIn(c) && c != ChainName(Ingress, fam) && c != ChainName(Egress, fam)
    ensures OwnPlan(x, fam, ingress, egress, c) == x
  {
  }

  lemma RunLookup(t: Chains, fam: Family, ingress: seq<NetRule>, egress: seq<NetRule>, c: string)
    ensures Lookup(Exec(t, RunPlan(fam, ingress, egress), {}), c) == OwnPlan(Lookup(t, c), fam, ingress, egress, c)
  {
    ExecByChain(t, RunPlan(fam, ingress, egress), c);
    PlanEffect(Lookup(t, c), fam, OwnChain(Ingress, fam, ingress), OwnChain(Egress, fam, egress), c);
  }

  lemma WithChainLookup(t: Chains, c: string, x: Option<seq<Args>>, d: string)
    ensures Lookup(WithChain(t, c, x), d) == if d == c && x.Some? then x else Lookup(t, d)
  {
  }

  lemma BuiltInsLookup(input: seq<Args>, output: seq<Args>, forward: seq<Args>, c: string)
    ensures Lookup(BuiltIns(input, output, forward), c)
            == if c == CHAIN_INPUT then Some(input) else if c == CHAIN_OUTPUT then Some(output)
               else if c == CHAIN_FORWARD then Some(forward) else None
  {
    HookNames();
  }

  /** The chains of an installed table. */
  lemma InstalledLookup(fam: Family, ingress: seq<NetRule>, egress: seq<NetRule>, c: string)
    ensures Lookup(Installed(fam, ingress, egress), c)
            == if c == CHAIN_INPUT then Some(HookArgs(Ingress, fam, ingress))
               else if c == CHAIN_OUTPUT then Some(HookArgs(Egress, fam, egress))
               else if c == CHAIN_FORWARD then Some([ArgsOf(REJECT_RULE)])
               else if c == ChainName(Ingress, fam) then OwnIfAny(ingress)
               else if c == ChainName(Egress, fam) then OwnIfAny(egress)
               else None
  {
    OwnNames(Ingress, fam);
    OwnNames(Egress, fam);
    var input, output, forward := HookArgs(Ingress, fam, ingress), HookArgs(Egress, fam, egress), [ArgsOf(REJECT_RULE)];
    BuiltInsLookup(input, output, forward, c);
    var hooks := BuiltIns(input, output, forward);
    WithChainLookup(hooks, ChainName(Ingress, fam), OwnIfAny(ingress), c);
    WithChainLookup(WithChain(hooks, ChainName(Ingress, fam), OwnIfAny(ingress)), ChainName(Egress, fam), OwnIfAny(egress), c);
  }

  lemma SameLookups(t: Chains, u: Chains)
    requires forall c :: Lookup(t, c) == Lookup(u, c)
    ensures t == u
  {
    forall c ensures c in t <==> c in u {
      assert Lookup(t, c) == Lookup(u, c);
    }
    forall c | c in t ensures t[c] == u[c] {
      assert Lookup(t, c) == Lookup(u, c);
    }
  }

  /** A run makes an installed table of `t` exactly when it makes each chain so. */
  lemma RunInstallsByChain(t: Chains, fam: Family, ingress: seq<NetRule>, egress: seq<NetRule>)
    requires forall c :: OwnPlan(Lookup(t, c), fam, ingress, egress, c) == Lookup(Installed(fam, ingress, egress), c)
    ensures Exec(t, RunPlan(fam, ingress, egress), {}) == Installed(fam, ingress, egress)
  {
    var u := Exec(t, RunPlan(fam, ingress, egress), {});
    forall c ensures Lookup(u, c) == Lookup(Installed(fam, ingress, egress), c) {
      RunLookup(t, fam, ingress, egress, c);
    }
    SameLookups(u, Installed(fam, ingress, egress));
  }

  lemma HookFromEmpty(dir: Direction, fam: Family, rules: seq<NetRule>)
    ensures HookAfterRun([], dir, fam, rules) == HookArgs(dir, fam, rules)
  {
    HookArgsDistinct(dir, fam);
    EnsureAllAbsent(if rules == [] then [] else [JumpArgs(dir, fam)], ArgsAll(DefaultRules(dir)));
    assert Ensure([], JumpArgs(dir, fam)) == [JumpArgs(dir, fam)];
  }

  function HookAfterRun(x: seq<Args>, dir: Direction, fam: Family, rules: seq<NetRule>): seq<Args> {
    EnsureAll(if rules == [] then x else Ensure(x, JumpArgs(dir, fam)), ArgsAll(DefaultRules(dir)))
  }

  /** Chain `c` after a run, from what it was before; the built-in chains always exist. */
  function ChainAfterRun(x: Option<seq<Args>>, fam: Family, ingress: seq<NetRule>, egress: seq<NetRule>, c: string)
    : Option<seq<Args>>
    requires IsBuiltIn(c) ==> x.Some?
  {
    if c == CHAIN_INPUT || c == CHAIN_OUTPUT then
      var dir := if c == CHAIN_INPUT then Ingress else Egress;
      Some(HookAfterRun(x.value, dir, fam, RulesOf(dir, ingress, egress)))
    else if c == CHAIN_FORWARD then Some(Ensure(x.value, ArgsOf(REJECT_RULE)))
    else if c == ChainName(Ingress, fam) then (if ingress == [] then x else Some(OwnArgs(ingress)))
    else if c == ChainName(Egress, fam) then (if egress == [] then x else Some(OwnArgs(egress)))
    else x
  }

  lemma PlanOnChain(x: Option<seq<Args>>, fam: Family, ingress: seq<NetRule>, egress: seq<NetRule>, c: string)
    requires IsBuiltIn(c) ==> x.Some?
    ensures OwnPlan(x, fam, ingress, egress, c) == ChainAfterRun(x, fam, ingress, egress, c)
  {
    if c == CHAIN_INPUT {
      HookEffect(x.value, Ingress, fam, ingress, egress);
    } else if c == CHAIN_OUTPUT {
      HookEffect(x.value, Egress, fam, ingress, egress);
    } else if c == CHAIN_FORWARD {
      ForwardEffect(x.value, fam, ingress, egress);
    } else if c == ChainName(Ingress, fam) {
      OwnEffect(x, Ingress, fam, ingress, egress);
    } else if c == ChainName(Egress, fam) {
      OwnEffect(x, Egress, fam, ingress, egress);
    } else {
      OtherEffect(x, fam, ingress, egress, c);
    }
  }

  lemma FreshChain(fam: Family, ingress: seq<NetRule>, egress: seq<NetRule>, c: string)
    ensures IsBuiltIn(c) ==> Lookup(FRESH, c) == Some([])
    ensures !IsBuiltIn(c) ==> Lookup(FRESH, c) == None
    ensures ChainAfterRun(Lookup(FRESH, c), fam, ingress, egress, c) == Lookup(Installed(fam, ingress, egress), c)
  {
    assert FRESH == BuiltIns([], [], []);
    assert Ensure([], ArgsOf(REJECT_RULE)) == [ArgsOf(REJECT_RULE)];
    BuiltInsLookup([], [], [], c);
    InstalledLookup(fam, ingress, egress, c);
    if c == CHAIN_INPUT || c == CHAIN_OUTPUT {
      var dir := if c == CHAIN_INPUT then Ingress else Egress;
      HookFromEmpty(dir, fam, RulesOf(dir, ingress, egress));
    }
  }

  /** A run on a fresh namespace leaves the installed table. */
  lemma RunOnFresh(fam: Family, ingress: seq<NetRule>, egress: seq<NetRule>)
    ensures Exec(FRESH, RunPlan(fam, ingress, egress), {}) == Installed(fam, ingress, egress)
  {
    forall c ensures OwnPlan(Lookup(FRESH, c), fam, ingress, egress, c) == Lookup(Installed(fam, ingress, egress), c) {
      FreshChain(fam, ingress, egress, c);
      PlanOnChain(Lookup(FRESH, c), fam, ingress, egress, c);
    }
    RunInstallsByChain(FRESH, fam, ingress, egress);
  }

  // ---- Running again ----

  /** A built-in chain survives another run exactly when there is as much to jump to as before: a jump added late
      comes after the REJECT, and a jump no longer needed stays. */
  lemma HookAgain(dir: Direction, fam: Family, before: seq<NetRule>, rules: seq<NetRule>)
    ensures HookAfterRun(HookArgs(dir, fam, before), dir, fam, rules) == HookArgs(dir, fam, rules)
            <==> (before == [] <==> rules == [])
  {
    HookArgsDistinct(dir, fam);
    var defaults, jump := ArgsAll(DefaultRules(dir)), JumpArgs(dir, fam);
    DefaultRulesDistinct(dir);
    var x := HookArgs(dir, fam, before);
    var ensured := if rules == [] then x else Ensure(x, jump);
    assert forall a :: a in defaults ==> a in x;
    EnsureAllPresent(ensured, defaults);
    if before == [] && rules != [] {
      assert x == defaults;
      assert ensured == defaults + [jump];
      assert ensured[0] == defaults[0] != jump;
    }
    if before != [] {
      assert x == [jump] + defaults;
    }
  }

  /** Running again on an installed table installs the new rules exactly when each direction
      has rules now if and only if it had rules before. */
  lemma RerunInstallsExactly(
    fam: Family, ingress: seq<NetRule>, egress: seq<NetRule>, ingress': seq<NetRule>, egress': seq<NetRule>)
    ensures Exec(Installed(fam, ingress, egress), RunPlan(fam, ingress', egress'), {}) == Installed(fam, ingress', egress')
            <==> (ingress == [] <==> ingress' == []) && (egress == [] <==> egress' == [])
  {
    if (ingress == [] <==> ingress' == []) && (egress == [] <==> egress' == []) {
      RerunInstalls(fam, ingress, egress, ingress', egress');
    } else {
      var dir := if ingress == [] <==> ingress' == [] then Egress else Ingress;
      RunLookup(Installed(fam, ingress, egress), fam, ingress', egress', HookName(dir));
      RerunHook(dir, fam, ingress, egress, ingress', egress');
    }
  }

  lemma RerunInstalls(
    fam: Family, ingress: seq<NetRule>, egress: seq<NetRule>, ingress': seq<NetRule>, egress': seq<NetRule>)
    requires (ingress == [] <==> ingress' == []) && (egress == [] <==> egress' == [])
    ensures Exec(Installed(fam, ingress, egress), RunPlan(fam, ingress', egress'), {}) == Installed(fam, ingress', egress')
  {
    var t := Installed(fam, ingress, egress);
    forall c ensures OwnPlan(Lookup(t, c), fam, ingress', egress', c) == Lookup(Installed(fam, ingress', egress'), c) {
      assert IsBuiltIn(c) ==> Lookup(t, c).Some? by {
        InstalledLookup(fam, ingress, egress, c);
      }
      PlanOnChain(Lookup(t, c), fam, ingress', egress', c);
      RerunChain(fam, ingress, egress, ingress', egress', c);
    }
    RunInstallsByChain(t, fam, ingress', egress');
  }

  lemma RerunChain(
    fam: Family, ingress: seq<NetRule>, egress: seq<NetRule>, ingress': seq<NetRule>, egress': seq<NetRule>, c: string)
    requires (ingress == [] <==> ingress' == []) && (egress == [] <==> egress' == [])
    requires IsBuiltIn(c) ==> Lookup(Installed(fam, ingress, egress), c).Some?
    ensures ChainAfterRun(Lookup(Installed(fam, ingress, egress), c), fam, ingress', egress', c)
            == Lookup(Installed(fam, ingress', egress'), c)
  {
    InstalledLookup(fam, ingress, egress, c);
    InstalledLookup(fam, ingress', egress', c);
    if c == CHAIN_INPUT || c == CHAIN_OUTPUT {
      var dir := if c == CHAIN_INPUT then Ingress else Egress;
      HookAgain(dir, fam, RulesOf(dir, ingress, egress), RulesOf(dir, ingress', egress'));
    }
  }

  lemma RerunHook(
    dir: Direction, fam: Family,
    ingress: seq<NetRule>, egress: seq<NetRule>, ingress': seq<NetRule>, egress': seq<NetRule>)
    requires !(RulesOf(dir, ingress, egress) == [] <==> RulesOf(dir, ingress', egress') == [])
    ensures OwnPlan(Lookup(Installed(fam, ingress, egress), HookName(dir)), fam, ingress', egress', HookName(dir))
            != Lookup(Installed(fam, ingress', egress'), HookName(dir))
  {
    HookNames();
    InstalledLookup(fam, ingress, egress, HookName(dir));
    InstalledLookup(fam, ingress', egress', HookName(dir));
    HookEffect(HookArgs(dir, fam, RulesOf(dir, ingress, egress)), dir, fam, ingress', egress');
    HookAgain(dir, fam, RulesOf(dir, ingress, egress), RulesOf(dir, ingress', egress'));
  }
}
