/** Safety of a run: its intermediate states, and what remains of its verdicts when calls fail. */
module RunSafety {
  import opened PolTypes
  import opened RuleArguments
  import opened PacketFilter
  import opened Provisioner
  import opened ChainEffects
  import opened InstalledTables
  import opened Verdicts

  /** The call that closes a built-in chain. */
  function RejectOp(hook: string): Op {
    EnsureRule(hook, ArgsOf(REJECT_RULE))
  }

  /** The rules a run may put into one of our own chains, and into INPUT or OUTPUT. */
  ghost predicate OwnRule(rules: seq<NetRule>, a: Args) {
    a == ArgsOf(DEFAULT_RETURN_RULE) || a in ArgsAll(rules)
  }

  ghost predicate HookRule(dir: Direction, fam: Family, a: Args) {
    a == JumpArgs(dir, fam) || a in ArgsAll(DefaultRules(dir))
  }

  ghost predicate Belongs(fam: Family, ingress: seq<NetRule>, egress: seq<NetRule>, c: string, a: Args) {
    && (forall dir :: c == ChainName(dir, fam) ==> OwnRule(RulesOf(dir, ingress, egress), a))
    && (forall dir :: c == HookName(dir) ==> HookRule(dir, fam, a))
    && (c == CHAIN_FORWARD ==> a == ArgsOf(REJECT_RULE))
  }

  ghost predicate WellPlaced(t: Chains, fam: Family, ingress: seq<NetRule>, egress: seq<NetRule>) {
    forall c, a :: a in Bucket(t, c) ==> Belongs(fam, ingress, egress, c, a)
  }

  lemma PlacedInOwn(t: Chains, fam: Family, ingress: seq<NetRule>, egress: seq<NetRule>, dir: Direction, a: Args)
    requires WellPlaced(t, fam, ingress, egress) && a in Bucket(t, ChainName(dir, fam))
    ensures OwnRule(RulesOf(dir, ingress, egress), a)
  {
    assert Belongs(fam, ingress, egress, ChainName(dir, fam), a);
  }

  lemma PlacedInHook(t: Chains, fam: Family, ingress: seq<NetRule>, egress: seq<NetRule>, dir: Direction, a: Args)
    requires WellPlaced(t, fam, ingress, egress) && a in Bucket(t, HookName(dir))
    ensures HookRule(dir, fam, a)
  {
    assert Belongs(fam, ingress, egress, HookName(dir), a);
  }

  /** A rule in one kind of chain is in no other. */
  lemma BelongsToOwn(fam: Family, ingress: seq<NetRule>, egress: seq<NetRule>, dir: Direction, a: Args)
    requires OwnRule(RulesOf(dir, ingress, egress), a)
    ensures Belongs(fam, ingress, egress, ChainName(dir, fam), a)
  {
    OwnNames(dir, fam);
  }

  lemma BelongsToHook(fam: Family, ingress: seq<NetRule>, egress: seq<NetRule>, dir: Direction, a: Args)
    requires HookRule(dir, fam, a)
    ensures Belongs(fam, ingress, egress, HookName(dir), a)
  {
    OwnNames(Ingress, fam);
    OwnNames(Egress, fam);
    HookNames();
  }

  lemma BelongsToForward(fam: Family, ingress: seq<NetRule>, egress: seq<NetRule>)
    ensures Belongs(fam, ingress, egress, CHAIN_FORWARD, ArgsOf(REJECT_RULE))
  {
    OwnNames(Ingress, fam);
    OwnNames(Egress, fam);
    HookNames();
  }

  lemma RuleOpsMembers(chain: NetRuleChain, op: Op)
    ensures op in RuleOps(chain) <==> op.EnsureRule? && op.chain == chain.name && op.args in ChainArgs(chain)
  {
    var xs := ChainArgs(chain);
    if op.EnsureRule? && op.chain == chain.name && op.args in xs {
      var i :| 0 <= i < |xs| && xs[i] == op.args;
      assert RuleOps(chain)[i] == op;
    }
  }

  /** The calls that create the chains only ever append jumps. */
  lemma ChainsPlanMembers(fam: Family, ingress: seq<NetRule>, egress: seq<NetRule>, op: Op)
    requires op in ChainsPlan(fam, OwnChain(Ingress, fam, ingress), OwnChain(Egress, fam, egress))
    ensures exists dir ::
              || (op.chain == ChainName(dir, fam) && !op.EnsureRule?)
              || op == EnsureRule(HookName(dir), JumpArgs(dir, fam))
  {
    var dir := if op in ChainOps(OwnChain(Ingress, fam, ingress), JumpRules(Ingress, fam)) then Ingress else Egress;
    HookNames();
    assert ChainArgs(JumpRules(dir, fam)) == [JumpArgs(dir, fam)];
    RuleOpsMembers(JumpRules(dir, fam), op);
  }

  lemma OwnOpsMembers(fam: Family, ingress: seq<NetRule>, egress: seq<NetRule>, dir: Direction, op: Op)
    requires op in RuleOps(OwnChain(dir, fam, RulesOf(dir, ingress, egress)))
    ensures op.EnsureRule? && Belongs(fam, ingress, egress, op.chain, op.args)
  {
    var rules := RulesOf(dir, ingress, egress);
    RuleOpsMembers(OwnChain(dir, fam, rules), op);
    BelongsToOwn(fam, ingress, egress, dir, op.args);
  }

  lemma PlanMembers(fam: Family, ingress: seq<NetRule>, egress: seq<NetRule>, op: Op)
    requires op in RunPlan(fam, ingress, egress)
    ensures op.EnsureRule? ==> Belongs(fam, ingress, egress, op.chain, op.args)
    ensures op.FlushChain? ==> exists dir :: op.chain == ChainName(dir, fam)
  {
    var own4, own6 := OwnChain(Ingress, fam, ingress), OwnChain(Egress, fam, egress);
    assert op in ChainsPlan(fam, own4, own6) || op in RuleOps(own4) || op in RuleOps(own6) || op in DEFAULT_OPS;
    if op in ChainsPlan(fam, own4, own6) {
      ChainsPlanMembers(fam, ingress, egress, op);
      if op.EnsureRule? {
        var dir :| op == EnsureRule(HookName(dir), JumpArgs(dir, fam));
        BelongsToHook(fam, ingress, egress, dir, op.args);
      }
    } else if op in RuleOps(own4) {
      OwnOpsMembers(fam, ingress, egress, Ingress, op);
    } else if op in RuleOps(own6) {
      OwnOpsMembers(fam, ingress, egress, Egress, op);
    } else {
      DefaultOpsMembers(op);
      if op == RejectOp(CHAIN_FORWARD) {
        BelongsToForward(fam, ingress, egress);
      } else {
        var dir :| op.chain == HookName(dir) && op.args in ArgsAll(DefaultRules(dir));
        BelongsToHook(fam, ingress, egress, dir, op.args);
      }
    }
  }

  lemma DefaultOpsMembers(op: Op)
    requires op in DEFAULT_OPS
    ensures op.EnsureRule?
    ensures || (exists dir :: op.chain == HookName(dir) && op.args in ArgsAll(DefaultRules(dir)))
            || op == RejectOp(CHAIN_FORWARD)
  {
    RuleOpsMembers(DEFAULT_INPUT_RULES, op);
    RuleOpsMembers(DEFAULT_OUTPUT_RULES, op);
    RuleOpsMembers(DEFAULT_FORWARD_RULES, op);
    assert ChainArgs(DEFAULT_INPUT_RULES) == ArgsAll(DefaultRules(Ingress));
    assert ChainArgs(DEFAULT_OUTPUT_RULES) == ArgsAll(DefaultRules(Egress));
    assert ChainArgs(DEFAULT_FORWARD_RULES) == [ArgsOf(REJECT_RULE)];
    if op in RuleOps(DEFAULT_INPUT_RULES) {
      assert op.chain == HookName(Ingress);
    } else if op in RuleOps(DEFAULT_OUTPUT_RULES) {
      assert op.chain == HookName(Egress);
    }
  }

  /** Whatever calls of a run have been made, and whichever failed, every rule is where it belongs. */
  lemma RunKeepsRulesInPlace(fam: Family, ingress: seq<NetRule>, egress: seq<NetRule>, ops: seq<Op>, faults: set<nat>)
    requires ops <= RunPlan(fam, ingress, egress)
    ensures WellPlaced(Exec(FRESH, ops, faults), fam, ingress, egress)
  {
    var t := Exec(FRESH, ops, faults);
    forall c, a | a in Bucket(t, c) ensures Belongs(fam, ingress, egress, c, a) {
      RulesComeFromCalls(ops, faults, c, a);
      var i :| 0 <= i < |ops| && ops[i] == EnsureRule(c, a);
      assert RunPlan(fam, ingress, egress)[i] == EnsureRule(c, a);
      PlanMembers(fam, ingress, egress, EnsureRule(c, a));
    }
  }

  // ---- Verdicts of tables with every rule in place ----

  lemma OwnStep(t: Chains, rules: seq<NetRule>, a: Args, p: Packet, depth: nat)
    requires OwnRule(rules, a) && Whitelist(rules)
    ensures Step(t, a, p, depth) != Some(Reject)
    ensures Step(t, a, p, depth) == Some(Accept) ==> SomeRuleMatches(rules, p)
  {
    if a == ArgsOf(DEFAULT_RETURN_RULE) {
      ArgsMeaning(DEFAULT_RETURN_RULE, p);
    } else {
      var i :| 0 <= i < |rules| && a == ArgsOf(rules[i]);
      assert rules[i] in rules;
      ArgsMeaning(rules[i], p);
    }
  }

  lemma OwnRun(t: Chains, rules: seq<NetRule>, xs: seq<Args>, p: Packet, depth: nat)
    requires Whitelist(rules) && forall a :: a in xs ==> OwnRule(rules, a)
    ensures Run(t, xs, p, depth) != Some(Reject)
    ensures Run(t, xs, p, depth) == Some(Accept) ==> SomeRuleMatches(rules, p)
  {
    RunPassesAll(t, xs, p, depth);
    forall a | a in xs
      ensures Step(t, a, p, depth) != Some(Reject)
      ensures Step(t, a, p, depth) == Some(Accept) ==> SomeRuleMatches(rules, p)
    {
      OwnStep(t, rules, a, p, depth);
    }
  }

  /** What one rule of INPUT or OUTPUT may do. */
  ghost predicate HookEffectOk(s: Option<Decision>, dir: Direction, rules: seq<NetRule>, a: Args, p: Packet) {
    && s != Some(Return)
    && (s == Some(Reject) <==> a == ArgsOf(REJECT_RULE))
    && (s == Some(Accept) ==> AlwaysAllowed(dir, p) || SomeRuleMatches(rules, p))
  }

  lemma HookStep(
    t: Chains, fam: Family, ingress: seq<NetRule>, egress: seq<NetRule>, dir: Direction, a: Args, p: Packet)
    requires WellPlaced(t, fam, ingress, egress) && Whitelist(RulesOf(dir, ingress, egress))
    requires HookRule(dir, fam, a)
    ensures HookEffectOk(Step(t, a, p, JUMP_LIMIT), dir, RulesOf(dir, ingress, egress), a, p)
  {
    var rules := RulesOf(dir, ingress, egress);
    if a == JumpArgs(dir, fam) {
      StepJump(t, dir, fam, p, JUMP_LIMIT);
      JumpIsNotReject(dir, fam);
      if ChainName(dir, fam) in t {
        forall b | b in t[ChainName(dir, fam)] ensures OwnRule(rules, b) {
          PlacedInOwn(t, fam, ingress, egress, dir, b);
        }
        OwnRun(t, rules, t[ChainName(dir, fam)], p, JUMP_LIMIT - 1);
      }
    } else {
      DefaultStep(t, dir, a, p);
    }
  }

  lemma JumpIsNotReject(dir: Direction, fam: Family)
    ensures JumpArgs(dir, fam) != ArgsOf(REJECT_RULE)
  {
    OwnNames(dir, fam);
    ArgumentsIdentifyRules(REJECT_RULE, EMPTY_RULE.(operation := ChainName(dir, fam)));
  }

  lemma DefaultStep(t: Chains, dir: Direction, a: Args, p: Packet)
    requires a in ArgsAll(DefaultRules(dir))
    ensures var s := Step(t, a, p, JUMP_LIMIT);
            && s != Some(Return)
            && (s == Some(Reject) <==> a == ArgsOf(REJECT_RULE))
            && (s == Some(Accept) ==> AlwaysAllowed(dir, p))
  {
    DefaultRulesDistinct(dir);
    DefaultAcceptsMeaning(dir, p);
    var rules := DefaultRules(dir);
    var i :| 0 <= i < |rules| && a == ArgsOf(rules[i]);
    ArgsMeaning(rules[i], p);
    ArgsMeaning(REJECT_RULE, p);
    if i < |rules| - 1 {
      assert DefaultAccepts(dir)[i] == rules[i];
    }
  }

  /** The decision of a list none of whose rules returns and one of whose rules rejects. */
  lemma FirstDecision(t: Chains, xs: seq<Args>, reject: Args, good: bool, p: Packet, depth: nat)
    requires forall a :: a in xs ==> Step(t, a, p, depth) != Some(Return)
    requires forall a :: a in xs ==> (Step(t, a, p, depth) == Some(Reject) <==> a == reject)
    requires forall a :: a in xs && Step(t, a, p, depth) == Some(Accept) ==> good
    ensures Run(t, xs, p, depth) == Some(Reject) ==> reject in xs
    ensures Run(t, xs, p, depth) != Some(Reject) && reject in xs ==> good
  {
    RunPassesAll(t, xs, p, depth);
    match Run(t, xs, p, depth)
    case None =>
      assert reject in xs ==> Step(t, reject, p, depth) == Some(Reject);
    case Some(d) =>
      var a :| a in xs && Step(t, a, p, depth) == Some(d);
      assert d != Return;
      assert d == Accept ==> good;
  }

  /** INPUT (OUTPUT) holds its REJECT already. */
  predicate Closed(t: Chains, hook: string) {
    ArgsOf(REJECT_RULE) in Bucket(t, hook)
  }

  /** While its REJECT is missing a built-in chain accepts everything; once it is there, the chain accepts
      nothing but what is always allowed or whitelisted. */
  lemma WellPlacedVerdict(
    t: Chains, fam: Family, ingress: seq<NetRule>, egress: seq<NetRule>, dir: Direction, p: Packet)
    requires WellPlaced(t, fam, ingress, egress) && Whitelist(RulesOf(dir, ingress, egress))
    ensures !Closed(t, HookName(dir)) ==> Accepted(t, HookName(dir), p)
    ensures Closed(t, HookName(dir)) && Accepted(t, HookName(dir), p)
            ==> AlwaysAllowed(dir, p) || SomeRuleMatches(RulesOf(dir, ingress, egress), p)
  {
    var xs := Bucket(t, HookName(dir));
    forall a | a in xs
      ensures HookEffectOk(Step(t, a, p, JUMP_LIMIT), dir, RulesOf(dir, ingress, egress), a, p)
    {
      PlacedInHook(t, fam, ingress, egress, dir, a);
      HookStep(t, fam, ingress, egress, dir, a, p);
    }
    FirstDecision(t, xs, ArgsOf(REJECT_RULE), AlwaysAllowed(dir, p) || SomeRuleMatches(RulesOf(dir, ingress, egress), p),
                  p, JUMP_LIMIT);
  }

  /** FORWARD accepts everything until its REJECT is there, and nothing from then on. */
  lemma WellPlacedForward(t: Chains, fam: Family, ingress: seq<NetRule>, egress: seq<NetRule>, p: Packet)
    requires WellPlaced(t, fam, ingress, egress)
    ensures Accepted(t, CHAIN_FORWARD, p) <==> !Closed(t, CHAIN_FORWARD)
  {
    var xs := Bucket(t, CHAIN_FORWARD);
    RunPassesAll(t, xs, p, JUMP_LIMIT);
    ArgsMeaning(REJECT_RULE, p);
    forall a | a in xs ensures a == ArgsOf(REJECT_RULE) {
      assert Belongs(fam, ingress, egress, CHAIN_FORWARD, a);
    }
  }

  // ---- Intermediate states ----

  /** The calls before the default rules. */
  function OpeningOps(fam: Family, ingress: seq<NetRule>, egress: seq<NetRule>): seq<Op> {
    ChainsPlan(fam, OwnChain(Ingress, fam, ingress), OwnChain(Egress, fam, egress))
    + (RuleOps(OwnChain(Ingress, fam, ingress)) + RuleOps(OwnChain(Egress, fam, egress)))
  }

  lemma ChainsPlanNeverRejects(fam: Family, ingress: seq<NetRule>, egress: seq<NetRule>, dir: Direction, op: Op)
    requires op in ChainsPlan(fam, OwnChain(Ingress, fam, ingress), OwnChain(Egress, fam, egress))
    ensures op != RejectOp(HookName(dir))
  {
    ChainsPlanMembers(fam, ingress, egress, op);
    JumpIsNotReject(Ingress, fam);
    JumpIsNotReject(Egress, fam);
  }

  lemma OpeningNeverRejects(fam: Family, ingress: seq<NetRule>, egress: seq<NetRule>, dir: Direction)
    ensures RejectOp(HookName(dir)) !in OpeningOps(fam, ingress, egress)
  {
    var op := RejectOp(HookName(dir));
    var own4, own6 := OwnChain(Ingress, fam, ingress), OwnChain(Egress, fam, egress);
    OwnNames(Ingress, fam);
    OwnNames(Egress, fam);
    RuleOpsMembers(own4, op);
    RuleOpsMembers(own6, op);
    forall other | other in ChainsPlan(fam, own4, own6) ensures other != op {
      ChainsPlanNeverRejects(fam, ingress, egress, dir, other);
    }
  }

  /** The REJECT of a built-in chain is the last call on that chain. */
  lemma RejectIsLast(dir: Direction, i: nat)
    requires i < |RuleOps(if dir.Ingress? then DEFAULT_INPUT_RULES else DEFAULT_OUTPUT_RULES)|
    requires RuleOps(if dir.Ingress? then DEFAULT_INPUT_RULES else DEFAULT_OUTPUT_RULES)[i] == RejectOp(HookName(dir))
    ensures i == |RuleOps(if dir.Ingress? then DEFAULT_INPUT_RULES else DEFAULT_OUTPUT_RULES)| - 1
  {
    HookArgsDistinct(dir, V4);
    var rules := DefaultRules(dir);
    DefaultRulesDistinct(dir);
    assert ChainArgs(if dir.Ingress? then DEFAULT_INPUT_RULES else DEFAULT_OUTPUT_RULES) == ArgsAll(rules);
    assert ArgsAll(rules)[|rules| - 1] == ArgsOf(REJECT_RULE);
  }

  lemma RuleOpsNameTheirChain(chain: NetRuleChain)
    ensures forall i :: 0 <= i < |RuleOps(chain)| ==> RuleOps(chain)[i].chain == chain.name
  {
  }

  /** In a concatenation, calls after the last one of a part belong to later parts. */
  lemma LaterParts(a: seq<Op>, b: seq<Op>, c: seq<Op>, j: nat, h: string)
    requires j < |a + b + c|
    requires forall i :: 0 <= i < |c| ==> c[i].chain != h
    requires j < |a| + |b| ==> j >= |a| && forall i :: 0 <= i < |b| ==> b[i].chain != h
    ensures (a + b + c)[j].chain != h
  {
  }

  lemma DefaultsAfterReject(dir: Direction, i: nat, j: nat)
    requires i < j < |DEFAULT_OPS| && DEFAULT_OPS[i] == RejectOp(HookName(dir))
    ensures DEFAULT_OPS[j].chain != HookName(dir)
  {
    HookNames();
    var input, output, forward := RuleOps(DEFAULT_INPUT_RULES), RuleOps(DEFAULT_OUTPUT_RULES), RuleOps(DEFAULT_FORWARD_RULES);
    RuleOpsNameTheirChain(DEFAULT_INPUT_RULES);
    RuleOpsNameTheirChain(DEFAULT_OUTPUT_RULES);
    RuleOpsNameTheirChain(DEFAULT_FORWARD_RULES);
    if dir == Ingress {
      if i < |input| {
        RejectIsLast(dir, i);
      }
    } else if i < |input| + |output| {
      assert i >= |input|;
      RejectIsLast(dir, i - |input|);
    }
    LaterParts(input, output, forward, j, HookName(dir));
  }

  lemma AfterOpening(opening: seq<Op>, rest: seq<Op>, x: Op, c: string, i: nat, j: nat)
    requires i < j < |opening + rest| && (opening + rest)[i] == x && x !in opening
    requires forall m, n :: 0 <= m < n < |rest| && rest[m] == x ==> rest[n].chain != c
    ensures (opening + rest)[j].chain != c
  {
    assert i >= |opening|;
    assert rest[i - |opening|] == x;
  }

  /** After the REJECT of a built-in chain, a run touches neither that chain nor any of our own. */
  lemma NothingAfterReject(
    fam: Family, ingress: seq<NetRule>, egress: seq<NetRule>, dir: Direction, i: nat, j: nat, c: string)
    requires i < j < |RunPlan(fam, ingress, egress)|
    requires RunPlan(fam, ingress, egress)[i] == RejectOp(HookName(dir))
    requires c == HookName(dir) || !IsBuiltIn(c)
    ensures RunPlan(fam, ingress, egress)[j].chain != c
  {
    OpeningNeverRejects(fam, ingress, egress, dir);
    forall m, n | 0 <= m < n < |DEFAULT_OPS| && DEFAULT_OPS[m] == RejectOp(HookName(dir))
      ensures DEFAULT_OPS[n].chain != c
    {
      DefaultsAfterReject(dir, m, n);
      DefaultOpsMembers(DEFAULT_OPS[n]);
    }
    AfterOpening(OpeningOps(fam, ingress, egress), DEFAULT_OPS, RejectOp(HookName(dir)), c, i, j);
  }

  lemma PrefixesOfPlan(plan: seq<Op>, k: nat)
    requires k <= |plan|
    ensures plan[..k] <= plan && plan == plan[..k] + plan[k..]
  {
  }

  lemma ElementsFrom(plan: seq<Op>, k: nat, c: string)
    requires k <= |plan| && forall j :: k <= j < |plan| ==> plan[j].chain != c
    ensures forall op :: op in plan[k..] ==> op.chain != c
  {
  }

  lemma RestIsElsewhere(
    fam: Family, ingress: seq<NetRule>, egress: seq<NetRule>, dir: Direction, i: nat, k: nat, c: string)
    requires i < k <= |RunPlan(fam, ingress, egress)|
    requires RunPlan(fam, ingress, egress)[i] == RejectOp(HookName(dir))
    requires c == HookName(dir) || c == ChainName(dir, fam)
    ensures forall op :: op in RunPlan(fam, ingress, egress)[k..] ==> op.chain != c
  {
    var plan := RunPlan(fam, ingress, egress);
    OwnNames(dir, fam);
    forall j | k <= j < |plan| ensures plan[j].chain != c {
      NothingAfterReject(fam, ingress, egress, dir, i, j, c);
    }
    ElementsFrom(plan, k, c);
  }

  /** What remains of a run decides nothing about chains it does not name. */
  lemma RestOfRun(fam: Family, ingress: seq<NetRule>, egress: seq<NetRule>, k: nat, c: string)
    requires k <= |RunPlan(fam, ingress, egress)|
    requires forall op :: op in RunPlan(fam, ingress, egress)[k..] ==> op.chain != c
    ensures Lookup(Exec(FRESH, RunPlan(fam, ingress, egress)[..k], {}), c) == Lookup(Installed(fam, ingress, egress), c)
  {
    var plan := RunPlan(fam, ingress, egress);
    var t := Exec(FRESH, plan[..k], {});
    PrefixesOfPlan(plan, k);
    ExecConcat(FRESH, plan[..k], plan[k..]);
    RunOnFresh(fam, ingress, egress);
    ExecByChain(t, plan[k..], c);
    ChainExecElsewhere(Lookup(t, c), plan[k..], c);
  }

  lemma ClosingCall(plan: seq<Op>, dir: Direction, k: nat) returns (i: nat)
    requires k <= |plan| && Closed(Exec(FRESH, plan[..k], {}), HookName(dir))
    ensures i < k && plan[i] == RejectOp(HookName(dir))
  {
    RulesComeFromCalls(plan[..k], {}, HookName(dir), ArgsOf(REJECT_RULE));
    i :| 0 <= i < k && plan[..k][i] == RejectOp(HookName(dir));
  }

  /** Once INPUT (OUTPUT) is closed, the rest of the run leaves its chains alone. */
  lemma ClosedChainsAreFinal(
    fam: Family, ingress: seq<NetRule>, egress: seq<NetRule>, dir: Direction, k: nat, c: string)
    requires k <= |RunPlan(fam, ingress, egress)|
    requires Closed(Exec(FRESH, RunPlan(fam, ingress, egress)[..k], {}), HookName(dir))
    requires c == HookName(dir) || c == ChainName(dir, fam)
    ensures Lookup(Exec(FRESH, RunPlan(fam, ingress, egress)[..k], {}), c) == Lookup(Installed(fam, ingress, egress), c)
  {
    var i := ClosingCall(RunPlan(fam, ingress, egress), dir, k);
    RestIsElsewhere(fam, ingress, egress, dir, i, k, c);
    RestOfRun(fam, ingress, egress, k, c);
  }

  /** After any number of calls of a run on a fresh namespace, a packet is accepted exactly when its built-in chain
      is still open or the finished table accepts it. So nothing the finished table accepts is ever rejected on
      the way, and a closed chain has its final verdicts. */
  lemma StepSafety(
    fam: Family, ingress: seq<NetRule>, egress: seq<NetRule>, dir: Direction, k: nat, p: Packet)
    requires Whitelist(RulesOf(dir, ingress, egress)) && k <= |RunPlan(fam, ingress, egress)|
    ensures var t := Exec(FRESH, RunPlan(fam, ingress, egress)[..k], {});
            Accepted(t, HookName(dir), p)
            <==> !Closed(t, HookName(dir)) || Accepted(Installed(fam, ingress, egress), HookName(dir), p)
  {
    var t := Exec(FRESH, RunPlan(fam, ingress, egress)[..k], {});
    PrefixesOfPlan(RunPlan(fam, ingress, egress), k);
    RunKeepsRulesInPlace(fam, ingress, egress, RunPlan(fam, ingress, egress)[..k], {});
    WellPlacedVerdict(t, fam, ingress, egress, dir, p);
    if Closed(t, HookName(dir)) {
      ClosedVerdict(fam, ingress, egress, dir, k, p);
    }
  }

  lemma ClosedVerdict(fam: Family, ingress: seq<NetRule>, egress: seq<NetRule>, dir: Direction, k: nat, p: Packet)
    requires Whitelist(RulesOf(dir, ingress, egress)) && k <= |RunPlan(fam, ingress, egress)|
    requires Closed(Exec(FRESH, RunPlan(fam, ingress, egress)[..k], {}), HookName(dir))
    ensures Accepted(Exec(FRESH, RunPlan(fam, ingress, egress)[..k], {}), HookName(dir), p)
            <==> Accepted(Installed(fam, ingress, egress), HookName(dir), p)
  {
    var t, rules := Exec(FRESH, RunPlan(fam, ingress, egress)[..k], {}), RulesOf(dir, ingress, egress);
    HookNames();
    OwnNames(dir, fam);
    ClosedChainsAreFinal(fam, ingress, egress, dir, k, HookName(dir));
    ClosedChainsAreFinal(fam, ingress, egress, dir, k, ChainName(dir, fam));
    InstalledLookup(fam, ingress, egress, HookName(dir));
    InstalledLookup(fam, ingress, egress, ChainName(dir, fam));
    RunHook(t, fam, dir, rules, p, JUMP_LIMIT);
    InstalledVerdict(fam, ingress, egress, dir, p);
  }

  // ---- Failing calls ----

  lemma ClosedByCall(ops: seq<Op>, faults: set<nat>, hook: string)
    ensures Closed(Exec(FRESH, ops, faults), hook) ==> RejectOp(hook) in ops
  {
    if Closed(Exec(FRESH, ops, faults), hook) {
      RulesComeFromCalls(ops, faults, hook, ArgsOf(REJECT_RULE));
    }
  }

  /** A run that stops while creating its chains leaves a fresh namespace as open as it was. */
  lemma AbortedRunAcceptsAll(
    fam: Family, ingress: seq<NetRule>, egress: seq<NetRule>, ops: seq<Op>, faults: set<nat>, dir: Direction, p: Packet)
    requires Whitelist(RulesOf(dir, ingress, egress))
    requires ops <= ChainsPlan(fam, OwnChain(Ingress, fam, ingress), OwnChain(Egress, fam, egress))
    ensures Accepted(Exec(FRESH, ops, faults), HookName(dir), p)
  {
    var t := Exec(FRESH, ops, faults);
    var plan := ChainsPlan(fam, OwnChain(Ingress, fam, ingress), OwnChain(Egress, fam, egress));
    assert ops <= RunPlan(fam, ingress, egress);
    RunKeepsRulesInPlace(fam, ingress, egress, ops, faults);
    WellPlacedVerdict(t, fam, ingress, egress, dir, p);
    ClosedByCall(ops, faults, HookName(dir));
    forall op | op in ops ensures op != RejectOp(HookName(dir)) {
      assert op in plan;
      ChainsPlanNeverRejects(fam, ingress, egress, dir, op);
    }
  }

  /** Some call that closes the chain did not fail. */
  ghost predicate RejectMade(fam: Family, ingress: seq<NetRule>, egress: seq<NetRule>, faults: set<nat>, hook: string) {
    exists i :: 0 <= i < |RunPlan(fam, ingress, egress)| && i !in faults
                && RunPlan(fam, ingress, egress)[i] == RejectOp(hook)
  }

  lemma ClosedExactly(fam: Family, ingress: seq<NetRule>, egress: seq<NetRule>, faults: set<nat>, hook: string)
    requires IsBuiltIn(hook)
    ensures Closed(Exec(FRESH, RunPlan(fam, ingress, egress), faults), hook)
            <==> RejectMade(fam, ingress, egress, faults, hook)
  {
    var plan := RunPlan(fam, ingress, egress);
    if Closed(Exec(FRESH, plan, faults), hook) {
      RulesComeFromCalls(plan, faults, hook, ArgsOf(REJECT_RULE));
    }
    if RejectMade(fam, ingress, egress, faults, hook) {
      var i :| 0 <= i < |plan| && i !in faults && plan[i] == RejectOp(hook);
      forall op | op in plan ensures op != FlushChain(hook) {
        PlanMembers(fam, ingress, egress, op);
        OwnNames(Ingress, fam);
        OwnNames(Egress, fam);
      }
      EnsuredRuleStays(plan, faults, hook, ArgsOf(REJECT_RULE), i);
    }
  }

  /** Failing calls only ever take packets away, exactly as long as the closing REJECT is made
      (or there was nothing to take away). */
  lemma FailuresOnlyRestrictExactly(
    fam: Family, ingress: seq<NetRule>, egress: seq<NetRule>, faults: set<nat>, dir: Direction)
    requires Whitelist(RulesOf(dir, ingress, egress))
    ensures var t := Exec(FRESH, RunPlan(fam, ingress, egress), faults);
            var hook := HookName(dir);
            (forall p :: Accepted(t, hook, p) ==> Accepted(Installed(fam, ingress, egress), hook, p))
            <==> RejectMade(fam, ingress, egress, faults, hook)
                 || forall p :: Accepted(Installed(fam, ingress, egress), hook, p)
  {
    var t, hook := Exec(FRESH, RunPlan(fam, ingress, egress), faults), HookName(dir);
    RunKeepsRulesInPlace(fam, ingress, egress, RunPlan(fam, ingress, egress), faults);
    ClosedExactly(fam, ingress, egress, faults, hook);
    forall p
      ensures !Closed(t, hook) ==> Accepted(t, hook, p)
      ensures Closed(t, hook) && Accepted(t, hook, p) ==> Accepted(Installed(fam, ingress, egress), hook, p)
    {
      WellPlacedVerdict(t, fam, ingress, egress, dir, p);
      InstalledVerdict(fam, ingress, egress, dir, p);
    }
  }
}
