/** Runs after runs that failed: what any history leaves in the tables, the verdicts after one more fault-free run,
    and exactly when that run repairs them. */
module Recovery {
  import opened PolTypes
  import opened RuleArguments
  import opened PacketFilter
  import opened Provisioner
  import opened ChainEffects
  import opened InstalledTables
  import opened Verdicts
  import opened RunSafety

  // ---- What any history leaves ----

  /** A rule that some run may have put into the chain. */
  ghost predicate Placeable(fam: Family, c: string, a: Args) {
    && (forall dir :: c == ChainName(dir, fam) ==>
          a == ArgsOf(DEFAULT_RETURN_RULE) || exists r: NetRule :: r.operation == "" && a == ArgsOf(r))
    && (forall dir :: c == HookName(dir) ==> HookRule(dir, fam, a))
    && (c == CHAIN_FORWARD ==> a == ArgsOf(REJECT_RULE))
  }

  /** The built-in chains are there, and every rule is one that some run may have put into its chain. */
  ghost predicate Orderly(t: Chains, fam: Family) {
    FRESH.Keys <= t.Keys && forall c, a :: a in Bucket(t, c) ==> Placeable(fam, c, a)
  }

  lemma BelongingIsPlaceable(fam: Family, ingress: seq<NetRule>, egress: seq<NetRule>, c: string, a: Args)
    requires Whitelist(ingress) && Whitelist(egress) && Belongs(fam, ingress, egress, c, a)
    ensures Placeable(fam, c, a)
  {
    forall dir | c == ChainName(dir, fam)
      ensures a == ArgsOf(DEFAULT_RETURN_RULE) || exists r: NetRule :: r.operation == "" && a == ArgsOf(r)
    {
      var rules := RulesOf(dir, ingress, egress);
      if a in ArgsAll(rules) {
        var i :| 0 <= i < |rules| && ArgsAll(rules)[i] == a;
        assert rules[i] in rules && a == ArgsOf(rules[i]);
      }
    }
  }

  lemma CallKeepsOrder(t: Chains, fam: Family, op: Op, fails: bool)
    requires Orderly(t, fam) && (op.EnsureRule? ==> Placeable(fam, op.chain, op.args))
    ensures Orderly(Apply(t, op, fails), fam)
  {
    var u := Apply(t, op, fails);
    forall c, a | a in Bucket(u, c) ensures Placeable(fam, c, a) {
      assert a in Bucket(t, c) || op == EnsureRule(c, a);
    }
  }

  /** Whatever calls of a run are made, and whichever fail, an orderly table stays orderly. */
  lemma {:induction false} RunKeepsOrder(
    t: Chains, fam: Family, ingress: seq<NetRule>, egress: seq<NetRule>, ops: seq<Op>, faults: set<nat>)
    requires Orderly(t, fam) && Whitelist(ingress) && Whitelist(egress)
    requires forall op :: op in ops ==> op in RunPlan(fam, ingress, egress)
    ensures Orderly(Exec(t, ops, faults), fam)
    decreases |ops|
  {
    if ops != [] {
      var n := |ops| - 1;
      RunKeepsOrder(t, fam, ingress, egress, ops[..n], faults);
      PlanMembers(fam, ingress, egress, ops[n]);
      if ops[n].EnsureRule? {
        BelongingIsPlaceable(fam, ingress, egress, ops[n].chain, ops[n].args);
      }
      CallKeepsOrder(Exec(t, ops[..n], faults), fam, ops[n], n in faults);
    }
  }

  /** A run of which some number of calls were made, those numbered in `faults` without success. */
  datatype Attempt = Attempt(ingress: seq<NetRule>, egress: seq<NetRule>, made: nat, faults: set<nat>)

  function CallsOf(fam: Family, attempt: Attempt): seq<Op> {
    var plan := RunPlan(fam, attempt.ingress, attempt.egress);
    if attempt.made <= |plan| then plan[..attempt.made] else plan
  }

  /** A fresh namespace after several attempts, one after the other. */
  function AfterAttempts(fam: Family, attempts: seq<Attempt>): Chains {
    if attempts == [] then FRESH
    else
      var n := |attempts| - 1;
      Exec(AfterAttempts(fam, attempts[..n]), CallsOf(fam, attempts[n]), attempts[n].faults)
  }

  lemma FreshIsOrderly(fam: Family)
    ensures Orderly(FRESH, fam)
  {
  }

  lemma AttemptKeepsOrder(t: Chains, fam: Family, attempt: Attempt)
    requires Orderly(t, fam) && Whitelist(attempt.ingress) && Whitelist(attempt.egress)
    ensures Orderly(Exec(t, CallsOf(fam, attempt), attempt.faults), fam)
  {
    RunKeepsOrder(t, fam, attempt.ingress, attempt.egress, CallsOf(fam, attempt), attempt.faults);
  }

  /** After any attempts, stopped anywhere and with any failures, the table is orderly. */
  lemma {:induction false} AttemptsKeepOrder(fam: Family, attempts: seq<Attempt>)
    requires forall attempt :: attempt in attempts ==> Whitelist(attempt.ingress) && Whitelist(attempt.egress)
    ensures Orderly(AfterAttempts(fam, attempts), fam)
  {
    if attempts == [] {
      FreshIsOrderly(fam);
    } else {
      var n := |attempts| - 1;
      AttemptsKeepOrder(fam, attempts[..n]);
      AttemptKeepsOrder(AfterAttempts(fam, attempts[..n]), fam, attempts[n]);
    }
  }

  // ---- What counts in a built-in chain ----

  const REJECT_ARGS := ArgsOf(REJECT_RULE)

  /** The rules before the first REJECT: no other is ever reached. */
  function Reached(x: seq<Args>): seq<Args> {
    if x == [] || x[0] == REJECT_ARGS then [] else [x[0]] + Reached(x[1..])
  }

  lemma {:induction false} ReachedOfPrefix(x: seq<Args>, y: seq<Args>)
    requires REJECT_ARGS in x
    ensures Reached(x + y) == Reached(x)
  {
    if x[0] != REJECT_ARGS {
      assert (x + y)[1..] == x[1..] + y;
      ReachedOfPrefix(x[1..], y);
    }
  }

  lemma {:induction false} ReachedUpTo(x: seq<Args>)
    requires REJECT_ARGS !in x
    ensures Reached(x + [REJECT_ARGS]) == x
  {
    if x != [] {
      assert (x + [REJECT_ARGS])[1..] == x[1..] + [REJECT_ARGS];
      ReachedUpTo(x[1..]);
    }
  }

  /** The rules a run puts before the REJECT of a built-in chain. */
  function FrontArgs(dir: Direction, fam: Family, rules: seq<NetRule>): seq<Args> {
    (if rules == [] then [] else [JumpArgs(dir, fam)]) + ArgsAll(DefaultAccepts(dir))
  }

  lemma LastIsApart(xs: seq<Args>)
    requires Distinct(xs) && xs != []
    ensures var n := |xs| - 1; xs == xs[..n] + [xs[n]] && xs[n] !in xs[..n]
  {
  }

  lemma FrontAndReject(dir: Direction, fam: Family)
    ensures ArgsAll(DefaultRules(dir)) == ArgsAll(DefaultAccepts(dir)) + [REJECT_ARGS]
    ensures REJECT_ARGS !in ArgsAll(DefaultAccepts(dir)) && REJECT_ARGS != JumpArgs(dir, fam)
  {
    DefaultRulesDistinct(dir);
    HookArgsDistinct(dir, fam);
    JumpIsNotReject(dir, fam);
    var rules := DefaultRules(dir);
    ArgsOfFirst(rules, |rules| - 1);
    LastIsApart(ArgsAll(rules));
  }

  lemma ArgsOfFirst(rules: seq<NetRule>, n: nat)
    requires n <= |rules|
    ensures ArgsAll(rules[..n]) == ArgsAll(rules)[..n]
  {
  }

  lemma EnsuredAfterReject(x: seq<Args>, xs: seq<Args>)
    requires REJECT_ARGS in x
    ensures Reached(EnsureAll(x, xs)) == Reached(x)
  {
    EnsureAllMembers(x, xs);
    var y := EnsureAll(x, xs);
    assert y == x + y[|x|..];
    ReachedOfPrefix(x, y[|x|..]);
  }

  lemma EnsuredBeforeReject(x: seq<Args>, xs: seq<Args>)
    requires REJECT_ARGS !in x && REJECT_ARGS !in xs
    ensures REJECT_ARGS in EnsureAll(x, xs + [REJECT_ARGS])
    ensures forall a :: a in Reached(EnsureAll(x, xs + [REJECT_ARGS])) <==> a in x || a in xs
  {
    EnsureAllMembers(x, xs);
    EnsureAllConcat(x, xs, [REJECT_ARGS]);
    EnsureOne(EnsureAll(x, xs), REJECT_ARGS);
    ReachedUpTo(EnsureAll(x, xs));
  }

  lemma HookAfterRunParts(x: seq<Args>, dir: Direction, fam: Family, rules: seq<NetRule>)
    ensures var jumped := if rules == [] then x else Ensure(x, JumpArgs(dir, fam));
            HookAfterRun(x, dir, fam, rules) == EnsureAll(jumped, ArgsAll(DefaultAccepts(dir)) + [REJECT_ARGS])
  {
    FrontAndReject(dir, fam);
  }

  lemma ReachedAfterReject(x: seq<Args>, jump: seq<Args>, accepts: seq<Args>)
    requires REJECT_ARGS in x
    ensures Reached(EnsureAll(x + jump, accepts + [REJECT_ARGS])) == Reached(x)
    ensures REJECT_ARGS in EnsureAll(x + jump, accepts + [REJECT_ARGS])
  {
    EnsuredAfterReject(x + jump, accepts + [REJECT_ARGS]);
    EnsureAllMembers(x + jump, accepts + [REJECT_ARGS]);
    ReachedOfPrefix(x, jump);
  }

  /** One more run reaches what was reached before, if there is a REJECT, and else everything it puts in front. */
  lemma ReachedAfterRun(x: seq<Args>, dir: Direction, fam: Family, rules: seq<NetRule>)
    ensures REJECT_ARGS in HookAfterRun(x, dir, fam, rules)
    ensures forall a :: a in Reached(HookAfterRun(x, dir, fam, rules))
                        <==> if REJECT_ARGS in x then a in Reached(x) else a in x || a in FrontArgs(dir, fam, rules)
  {
    var jump, accepts := JumpArgs(dir, fam), ArgsAll(DefaultAccepts(dir));
    var added := if rules == [] || jump in x then [] else [jump];
    HookAfterRunParts(x, dir, fam, rules);
    assert HookAfterRun(x, dir, fam, rules) == EnsureAll(x + added, accepts + [REJECT_ARGS]) by {
      assert x + [] == x;
    }
    if REJECT_ARGS in x {
      ReachedAfterReject(x, added, accepts);
    } else {
      FrontAndReject(dir, fam);
      EnsuredBeforeReject(x + added, accepts);
      FrontMembers(dir, fam, rules);
    }
  }

  lemma FrontMembers(dir: Direction, fam: Family, rules: seq<NetRule>)
    ensures forall a :: a in FrontArgs(dir, fam, rules)
                        <==> (rules != [] && a == JumpArgs(dir, fam)) || a in ArgsAll(DefaultAccepts(dir))
  {
  }

  /** The jump accepts the packet by way of our own chain. */
  ghost predicate OwnAccepts(t: Chains, dir: Direction, fam: Family, p: Packet) {
    Step(t, JumpArgs(dir, fam), p, JUMP_LIMIT) == Some(Accept)
  }

  /** One of these rules accepts the packet: a default rule by itself, or the jump. */
  ghost predicate Passes(t: Chains, front: seq<Args>, dir: Direction, fam: Family, p: Packet) {
    || (exists r :: r in DefaultAccepts(dir) && ArgsOf(r) in front && RuleMatches(r, p))
    || (JumpArgs(dir, fam) in front && OwnAccepts(t, dir, fam, p))
  }

  /** A list whose rules accept or pass on, but for the REJECT. */
  lemma {:induction false} RunReached(t: Chains, x: seq<Args>, p: Packet, depth: nat)
    requires forall a :: a in x ==> if a == REJECT_ARGS then Step(t, a, p, depth) == Some(Reject)
                                    else Step(t, a, p, depth) in {None, Some(Accept)}
    ensures Run(t, x, p, depth)
            == if exists a :: a in Reached(x) && Step(t, a, p, depth) == Some(Accept) then Some(Accept)
               else if REJECT_ARGS in x then Some(Reject) else None
    decreases |x|
  {
    if x != [] {
      assert x == [x[0]] + x[1..] && x[0] in x;
      RunReached(t, x[1..], p, depth);
      if x[0] != REJECT_ARGS {
        assert forall a :: a in Reached(x) <==> a == x[0] || a in Reached(x[1..]);
        assert REJECT_ARGS in x <==> REJECT_ARGS in x[1..];
      }
    }
  }

  lemma OwnRuleNeverRejects(t: Chains, dir: Direction, fam: Family, a: Args, p: Packet, depth: nat)
    requires Placeable(fam, ChainName(dir, fam), a)
    ensures Step(t, a, p, depth) != Some(Reject)
  {
    if a == ArgsOf(DEFAULT_RETURN_RULE) {
      ArgsMeaning(DEFAULT_RETURN_RULE, p);
    } else {
      var r: NetRule :| r.operation == "" && a == ArgsOf(r);
      ArgsMeaning(r, p);
    }
  }

  lemma OwnRulesNeverReject(t: Chains, dir: Direction, fam: Family, p: Packet, depth: nat)
    requires Orderly(t, fam)
    ensures Run(t, Bucket(t, ChainName(dir, fam)), p, depth) != Some(Reject)
  {
    var own := Bucket(t, ChainName(dir, fam));
    RunPassesAll(t, own, p, depth);
    forall a | a in own ensures Step(t, a, p, depth) != Some(Reject) {
      OwnRuleNeverRejects(t, dir, fam, a, p, depth);
    }
  }

  lemma OwnChainIsQuiet(t: Chains, dir: Direction, fam: Family, p: Packet)
    requires Orderly(t, fam)
    ensures Step(t, JumpArgs(dir, fam), p, JUMP_LIMIT) in {None, Some(Accept)}
  {
    StepJump(t, dir, fam, p, JUMP_LIMIT);
    OwnRulesNeverReject(t, dir, fam, p, JUMP_LIMIT - 1);
    if ChainName(dir, fam) in t {
      var inner := Run(t, t[ChainName(dir, fam)], p, JUMP_LIMIT - 1);
      assert inner == None || inner == Some(Accept) || inner == Some(Return) by {
        if inner.Some? {
          match inner.value
          case Accept =>
          case Reject => assert false;
          case Return =>
        }
      }
    }
  }

  lemma AcceptStep(t: Chains, dir: Direction, r: NetRule, p: Packet, depth: nat)
    requires r in DefaultAccepts(dir)
    ensures Step(t, ArgsOf(r), p, depth) == if RuleMatches(r, p) then Some(Accept) else None
    ensures ArgsOf(r) in ArgsAll(DefaultRules(dir))
  {
    DefaultRulesDistinct(dir);
    var j :| 0 <= j < |DefaultAccepts(dir)| && DefaultAccepts(dir)[j] == r;
    assert ArgsAll(DefaultRules(dir))[j] == ArgsOf(r);
    ArgsMeaning(r, p);
  }

  lemma AcceptingDefault(dir: Direction, a: Args)
    requires a in ArgsAll(DefaultRules(dir)) && a != REJECT_ARGS
    ensures exists r :: r in DefaultAccepts(dir) && a == ArgsOf(r)
  {
    DefaultRulesDistinct(dir);
    var i :| 0 <= i < |DefaultRules(dir)| && a == ArgsOf(DefaultRules(dir)[i]);
    assert DefaultAccepts(dir)[i] in DefaultAccepts(dir);
  }

  /** In an orderly table a closed built-in chain accepts what the rules it reaches accept. */
  lemma OrderlyVerdict(t: Chains, fam: Family, dir: Direction, p: Packet)
    requires Orderly(t, fam) && Closed(t, HookName(dir))
    ensures Accepted(t, HookName(dir), p) <==> Passes(t, Reached(t[HookName(dir)]), dir, fam, p)
  {
    var x := t[HookName(dir)];
    JumpIsNotReject(dir, fam);
    HookArgsDistinct(dir, fam);
    OwnChainIsQuiet(t, dir, fam, p);
    forall a | a in x
      ensures a == JumpArgs(dir, fam) || a in ArgsAll(DefaultRules(dir))
      ensures if a == REJECT_ARGS then Step(t, a, p, JUMP_LIMIT) == Some(Reject)
              else Step(t, a, p, JUMP_LIMIT) in {None, Some(Accept)}
    {
      assert Placeable(fam, HookName(dir), a);
      HookRuleStep(t, dir, fam, a, p);
    }
    RunReached(t, x, p, JUMP_LIMIT);
    PassesIsStep(t, x, dir, fam, p);
  }

  lemma HookRuleStep(t: Chains, dir: Direction, fam: Family, a: Args, p: Packet)
    requires Orderly(t, fam) && HookRule(dir, fam, a)
    ensures if a == REJECT_ARGS then Step(t, a, p, JUMP_LIMIT) == Some(Reject)
            else Step(t, a, p, JUMP_LIMIT) in {None, Some(Accept)}
  {
    if a == REJECT_ARGS {
      ArgsMeaning(REJECT_RULE, p);
    } else if a == JumpArgs(dir, fam) {
      OwnChainIsQuiet(t, dir, fam, p);
    } else {
      AcceptingDefault(dir, a);
      var r :| r in DefaultAccepts(dir) && a == ArgsOf(r);
      AcceptStep(t, dir, r, p, JUMP_LIMIT);
    }
  }

  lemma {:induction false} ReachedMembers(x: seq<Args>)
    ensures forall a :: a in Reached(x) ==> a in x && a != REJECT_ARGS
  {
    if x != [] && x[0] != REJECT_ARGS {
      ReachedMembers(x[1..]);
      assert x == [x[0]] + x[1..];
    }
  }

  lemma PassesIsStep(t: Chains, x: seq<Args>, dir: Direction, fam: Family, p: Packet)
    requires forall a :: a in x ==> HookRule(dir, fam, a)
    ensures Passes(t, Reached(x), dir, fam, p)
            <==> exists a :: a in Reached(x) && Step(t, a, p, JUMP_LIMIT) == Some(Accept)
  {
    ReachedMembers(x);
    HookArgsDistinct(dir, fam);
    forall a | a in Reached(x) && a != JumpArgs(dir, fam)
      ensures exists r :: r in DefaultAccepts(dir) && a == ArgsOf(r)
    {
      AcceptingDefault(dir, a);
    }
    forall r | r in DefaultAccepts(dir)
      ensures ArgsOf(r) != JumpArgs(dir, fam)
      ensures Step(t, ArgsOf(r), p, JUMP_LIMIT) == if RuleMatches(r, p) then Some(Accept) else None
    {
      AcceptStep(t, dir, r, p, JUMP_LIMIT);
    }
  }

  // ---- One more run ----

  /** The rule is reached in built-in chain `x` after one more run without failures. */
  ghost predicate ReachedNext(x: seq<Args>, dir: Direction, fam: Family, rules: seq<NetRule>, a: Args) {
    if REJECT_ARGS in x then a in Reached(x) else a in x || a in FrontArgs(dir, fam, rules)
  }

  /** The packet passes after one more run: by a default rule that is reached, or by the jump, if that is reached, to
      the new rules, or to what is left of old ones when there are no new ones. */
  ghost predicate PassesNext(t: Chains, fam: Family, dir: Direction, rules: seq<NetRule>, p: Packet) {
    var x := Bucket(t, HookName(dir));
    || (exists r :: r in DefaultAccepts(dir) && ReachedNext(x, dir, fam, rules, ArgsOf(r)) && RuleMatches(r, p))
    || (ReachedNext(x, dir, fam, rules, JumpArgs(dir, fam))
        && if rules == [] then OwnAccepts(t, dir, fam, p) else SomeRuleMatches(rules, p))
  }

  lemma BuiltInsExist(t: Chains, fam: Family, c: string)
    requires Orderly(t, fam) && IsBuiltIn(c)
    ensures c in t && Lookup(t, c) == Some(Bucket(t, c))
  {
    assert c in FRESH.Keys;
  }

  lemma ChainsAfterRun(t: Chains, fam: Family, ingress: seq<NetRule>, egress: seq<NetRule>, dir: Direction)
    requires Orderly(t, fam)
    ensures var u, rules := Exec(t, RunPlan(fam, ingress, egress), {}), RulesOf(dir, ingress, egress);
            && Lookup(u, HookName(dir)) == Some(HookAfterRun(Bucket(t, HookName(dir)), dir, fam, rules))
            && Lookup(u, ChainName(dir, fam))
               == if rules == [] then Lookup(t, ChainName(dir, fam)) else Some(OwnArgs(rules))
  {
    HookNames();
    OwnNames(dir, fam);
    BuiltInsExist(t, fam, HookName(dir));
    RunLookup(t, fam, ingress, egress, HookName(dir));
    HookEffect(Bucket(t, HookName(dir)), dir, fam, ingress, egress);
    RunLookup(t, fam, ingress, egress, ChainName(dir, fam));
    OwnEffect(Lookup(t, ChainName(dir, fam)), dir, fam, ingress, egress);
  }

  lemma {:induction false} SameRun(t: Chains, u: Chains, xs: seq<Args>, p: Packet, depth: nat)
    requires forall a :: a in xs ==> Step(t, a, p, depth) == Step(u, a, p, depth)
    ensures Run(t, xs, p, depth) == Run(u, xs, p, depth)
    decreases |xs|
  {
    if xs != [] {
      assert xs[0] in xs;
      SameRun(t, u, xs[1..], p, depth);
    }
  }

  lemma OwnRuleIsLocal(t: Chains, u: Chains, dir: Direction, fam: Family, a: Args, p: Packet, depth: nat)
    requires Placeable(fam, ChainName(dir, fam), a)
    ensures Step(t, a, p, depth) == Step(u, a, p, depth)
  {
    if a == ArgsOf(DEFAULT_RETURN_RULE) {
      ArgsMeaning(DEFAULT_RETURN_RULE, p);
    } else {
      var r: NetRule :| r.operation == "" && a == ArgsOf(r);
      ArgsMeaning(r, p);
    }
  }

  /** What our own chain accepts depends on that chain alone. */
  lemma OwnChainIsLocal(t: Chains, u: Chains, dir: Direction, fam: Family, p: Packet)
    requires Orderly(t, fam) && Lookup(u, ChainName(dir, fam)) == Lookup(t, ChainName(dir, fam))
    ensures OwnAccepts(u, dir, fam, p) <==> OwnAccepts(t, dir, fam, p)
  {
    StepJump(t, dir, fam, p, JUMP_LIMIT);
    StepJump(u, dir, fam, p, JUMP_LIMIT);
    var own := Bucket(t, ChainName(dir, fam));
    forall a | a in own ensures Step(t, a, p, JUMP_LIMIT - 1) == Step(u, a, p, JUMP_LIMIT - 1) {
      OwnRuleIsLocal(t, u, dir, fam, a, p, JUMP_LIMIT - 1);
    }
    SameRun(t, u, own, p, JUMP_LIMIT - 1);
  }

  lemma OwnRulesAccept(u: Chains, dir: Direction, fam: Family, rules: seq<NetRule>, p: Packet)
    requires Whitelist(rules) && Lookup(u, ChainName(dir, fam)) == Some(OwnArgs(rules))
    ensures OwnAccepts(u, dir, fam, p) <==> SomeRuleMatches(rules, p)
  {
    RunJump(u, fam, dir, rules, p, JUMP_LIMIT);
    RunOne(u, JumpArgs(dir, fam), p, JUMP_LIMIT);
  }

  lemma OwnAcceptsNext(t: Chains, u: Chains, fam: Family, dir: Direction, rules: seq<NetRule>, p: Packet)
    requires Orderly(t, fam) && Whitelist(rules)
    requires Lookup(u, ChainName(dir, fam))
             == if rules == [] then Lookup(t, ChainName(dir, fam)) else Some(OwnArgs(rules))
    ensures OwnAccepts(u, dir, fam, p) <==> if rules == [] then OwnAccepts(t, dir, fam, p) else SomeRuleMatches(rules, p)
  {
    if rules == [] {
      OwnChainIsLocal(t, u, dir, fam, p);
    } else {
      OwnRulesAccept(u, dir, fam, rules, p);
    }
  }

  lemma PassesByMembers(
    t: Chains, u: Chains, front: seq<Args>, fam: Family, dir: Direction, rules: seq<NetRule>, p: Packet)
    requires forall a :: a in front <==> ReachedNext(Bucket(t, HookName(dir)), dir, fam, rules, a)
    requires OwnAccepts(u, dir, fam, p) <==> if rules == [] then OwnAccepts(t, dir, fam, p) else SomeRuleMatches(rules, p)
    ensures Passes(u, front, dir, fam, p) <==> PassesNext(t, fam, dir, rules, p)
  {
  }

  lemma VerdictByReached(
    t: Chains, u: Chains, x: seq<Args>, fam: Family, dir: Direction, rules: seq<NetRule>, p: Packet)
    requires Orderly(t, fam) && Orderly(u, fam) && Whitelist(rules)
    requires Lookup(u, HookName(dir)) == Some(x) && REJECT_ARGS in x
    requires forall a :: a in Reached(x) <==> ReachedNext(Bucket(t, HookName(dir)), dir, fam, rules, a)
    requires Lookup(u, ChainName(dir, fam))
             == if rules == [] then Lookup(t, ChainName(dir, fam)) else Some(OwnArgs(rules))
    ensures Accepted(u, HookName(dir), p) <==> PassesNext(t, fam, dir, rules, p)
  {
    OrderlyVerdict(u, fam, dir, p);
    OwnAcceptsNext(t, u, fam, dir, rules, p);
    PassesByMembers(t, u, Reached(x), fam, dir, rules, p);
  }

  lemma ReachedByRun(t: Chains, u: Chains, fam: Family, ingress: seq<NetRule>, egress: seq<NetRule>, dir: Direction)
    requires Orderly(t, fam) && u == Exec(t, RunPlan(fam, ingress, egress), {})
    ensures var x, rules := Bucket(u, HookName(dir)), RulesOf(dir, ingress, egress);
            && Lookup(u, HookName(dir)) == Some(x) && REJECT_ARGS in x
            && (forall a :: a in Reached(x) <==> ReachedNext(Bucket(t, HookName(dir)), dir, fam, rules, a))
            && Lookup(u, ChainName(dir, fam))
               == if rules == [] then Lookup(t, ChainName(dir, fam)) else Some(OwnArgs(rules))
  {
    ChainsAfterRun(t, fam, ingress, egress, dir);
    ReachedIsNext(Bucket(t, HookName(dir)), Bucket(u, HookName(dir)), dir, fam, RulesOf(dir, ingress, egress));
  }

  lemma ReachedIsNext(x: seq<Args>, y: seq<Args>, dir: Direction, fam: Family, rules: seq<NetRule>)
    requires y == HookAfterRun(x, dir, fam, rules)
    ensures REJECT_ARGS in y && forall a :: a in Reached(y) <==> ReachedNext(x, dir, fam, rules, a)
  {
    ReachedAfterRun(x, dir, fam, rules);
  }

  lemma RerunIsOrderly(t: Chains, u: Chains, fam: Family, ingress: seq<NetRule>, egress: seq<NetRule>)
    requires Orderly(t, fam) && Whitelist(ingress) && Whitelist(egress) && u == Exec(t, RunPlan(fam, ingress, egress), {})
    ensures Orderly(u, fam)
  {
    RunKeepsOrder(t, fam, ingress, egress, RunPlan(fam, ingress, egress), {});
  }

  /** One more run without failures, on a table with any history: its verdicts. */
  lemma RerunVerdict(t: Chains, fam: Family, ingress: seq<NetRule>, egress: seq<NetRule>, dir: Direction, p: Packet)
    requires Orderly(t, fam) && Whitelist(ingress) && Whitelist(egress)
    ensures Accepted(Exec(t, RunPlan(fam, ingress, egress), {}), HookName(dir), p)
            <==> PassesNext(t, fam, dir, RulesOf(dir, ingress, egress), p)
  {
    var u := Exec(t, RunPlan(fam, ingress, egress), {});
    RerunIsOrderly(t, u, fam, ingress, egress);
    ReachedByRun(t, u, fam, ingress, egress, dir);
    VerdictByReached(t, u, Bucket(u, HookName(dir)), fam, dir, RulesOf(dir, ingress, egress), p);
  }

  /** The table gives the packets of one direction the verdict of these rules. */
  ghost predicate Enforced(u: Chains, dir: Direction, rules: seq<NetRule>) {
    forall p :: Accepted(u, HookName(dir), p) <==> AlwaysAllowed(dir, p) || SomeRuleMatches(rules, p)
  }

  /** Nothing a run puts in front is missing in front of a REJECT. */
  ghost predicate Recoverable(x: seq<Args>, dir: Direction, fam: Family) {
    REJECT_ARGS in x ==>
      JumpArgs(dir, fam) in Reached(x) && forall a :: a in ArgsAll(DefaultAccepts(dir)) ==> a in Reached(x)
  }

  /** The same for a run without rules: then the jump must not be in front. */
  ghost predicate RecoverableEmpty(x: seq<Args>, dir: Direction, fam: Family) {
    && JumpArgs(dir, fam) !in Reached(x)
    && (REJECT_ARGS in x ==> forall a :: a in ArgsAll(DefaultAccepts(dir)) ==> a in Reached(x))
  }

  lemma {:induction false} ReachedAll(x: seq<Args>)
    requires REJECT_ARGS !in x
    ensures Reached(x) == x
  {
    if x != [] {
      ReachedAll(x[1..]);
    }
  }

  lemma DefaultsInFront(dir: Direction, fam: Family, rules: seq<NetRule>, r: NetRule)
    requires r in DefaultAccepts(dir)
    ensures ArgsOf(r) in ArgsAll(DefaultAccepts(dir)) && ArgsOf(r) in FrontArgs(dir, fam, rules)
  {
    var accepts := DefaultAccepts(dir);
    var i :| 0 <= i < |accepts| && accepts[i] == r;
    assert ArgsAll(accepts)[i] == ArgsOf(r);
  }

  /** What is recoverable is recovered. */
  lemma Recovers(t: Chains, fam: Family, ingress: seq<NetRule>, egress: seq<NetRule>, dir: Direction)
    requires Orderly(t, fam) && Whitelist(ingress) && Whitelist(egress)
    requires var x := Bucket(t, HookName(dir));
             if RulesOf(dir, ingress, egress) == [] then RecoverableEmpty(x, dir, fam) else Recoverable(x, dir, fam)
    ensures Enforced(Exec(t, RunPlan(fam, ingress, egress), {}), dir, RulesOf(dir, ingress, egress))
  {
    var x, rules := Bucket(t, HookName(dir)), RulesOf(dir, ingress, egress);
    HookArgsDistinct(dir, fam);
    if REJECT_ARGS !in x {
      ReachedAll(x);
    }
    forall r | r in DefaultAccepts(dir) ensures ReachedNext(x, dir, fam, rules, ArgsOf(r)) {
      DefaultsInFront(dir, fam, rules, r);
    }
    JumpIsInFront(x, dir, fam, rules);
    forall p
      ensures Accepted(Exec(t, RunPlan(fam, ingress, egress), {}), HookName(dir), p)
              <==> AlwaysAllowed(dir, p) || SomeRuleMatches(rules, p)
    {
      RerunVerdict(t, fam, ingress, egress, dir, p);
      DefaultAcceptsMeaning(dir, p);
    }
  }

  lemma JumpIsInFront(x: seq<Args>, dir: Direction, fam: Family, rules: seq<NetRule>)
    requires if rules == [] then RecoverableEmpty(x, dir, fam) else Recoverable(x, dir, fam)
    requires REJECT_ARGS !in x ==> Reached(x) == x
    ensures ReachedNext(x, dir, fam, rules, JumpArgs(dir, fam)) <==> rules != []
  {
    FrontAndReject(dir, fam);
    HookArgsDistinct(dir, fam);
    if rules == [] {
      assert FrontArgs(dir, fam, rules) == ArgsAll(DefaultAccepts(dir));
      assert forall a :: a in ArgsAll(DefaultAccepts(dir)) ==> a in ArgsAll(DefaultRules(dir));
    } else {
      assert FrontArgs(dir, fam, rules)[0] == JumpArgs(dir, fam);
    }
  }

  lemma RejectFirst(t: Chains, x: seq<Args>, p: Packet, depth: nat)
    requires x != [] && forall a :: a in x ==> a == REJECT_ARGS
    ensures Run(t, x, p, depth) == Some(Reject)
  {
    assert x[0] in x;
    ArgsMeaning(REJECT_RULE, p);
  }

  /** FORWARD rejects everything after any run without failures. */
  lemma ForwardAfterRun(t: Chains, fam: Family, ingress: seq<NetRule>, egress: seq<NetRule>, p: Packet)
    requires Orderly(t, fam)
    ensures !Accepted(Exec(t, RunPlan(fam, ingress, egress), {}), CHAIN_FORWARD, p)
  {
    var x, u := Bucket(t, CHAIN_FORWARD), Exec(t, RunPlan(fam, ingress, egress), {});
    BuiltInsExist(t, fam, CHAIN_FORWARD);
    RunLookup(t, fam, ingress, egress, CHAIN_FORWARD);
    ForwardEffect(x, fam, ingress, egress);
    forall a | a in Ensure(x, REJECT_ARGS) ensures a == REJECT_ARGS {
      if a in x {
        assert Placeable(fam, CHAIN_FORWARD, a);
      }
    }
    RejectFirst(u, Ensure(x, REJECT_ARGS), p, JUMP_LIMIT);
  }

  // ---- Exactly when ----

  const TEN := "10.0.0.1"

  /** A rule for one address. */
  function TenRule(dir: Direction): NetRule {
    if dir.Ingress? then EMPTY_RULE.(sourceIp := TEN) else EMPTY_RULE.(destIp := TEN)
  }

  /** A new connection with that address. */
  const TEN_PACKET := Packet("eth0", "eth0", New, iset{}, iset{TEN}, iset{TEN}, iset{}, iset{})

  /** A packet that the i-th default rule accepts and no other. */
  ghost function OnlyFor(dir: Direction, i: nat): Packet {
    var p := Packet("eth0", "eth0", New, iset{}, iset{}, iset{}, iset{}, iset{});
    if i == 0 then p.(inIface := "lo", outIface := "lo")
    else if i == 1 then p.(state := Established)
    else p.(protocols := iset{if i == 2 then "tcp" else "udp"}, destPorts := iset{"53"})
  }

  lemma AcceptsListed(dir: Direction)
    ensures |DefaultAccepts(dir)| == if dir.Ingress? then 2 else 4
    ensures DefaultAccepts(dir)[0] == if dir.Ingress? then EMPTY_RULE.(sourceIface := "lo", operation := IPTABLES_ACCEPT)
                                      else EMPTY_RULE.(destIface := "lo", operation := IPTABLES_ACCEPT)
    ensures DefaultAccepts(dir)[1] == EMPTY_RULE.(state := STATE_ESTABLISHED_RELATED, operation := IPTABLES_ACCEPT)
    ensures dir.Egress? ==>
              forall i :: 2 <= i < 4 ==>
                DefaultAccepts(dir)[i] == EMPTY_RULE.(protocol := if i == 2 then "tcp" else "udp", destPort := "53",
                                                      state := STATE_NEW_ESTABLISHED, operation := IPTABLES_ACCEPT)
  {
  }

  lemma OnlyForParts(dir: Direction, i: nat)
    requires i < |DefaultAccepts(dir)|
    ensures var p := OnlyFor(dir, i);
            && (p.inIface == "lo" <==> i == 0) && (p.outIface == "lo" <==> i == 0)
            && p.state == (if i == 1 then Established else New)
            && ("tcp" in p.protocols <==> i == 2) && ("udp" in p.protocols <==> i == 3)
            && ("53" in p.destPorts <==> i >= 2)
  {
    AcceptsListed(dir);
    TextsDiffer();
  }

  lemma OnlyOneAccepts(dir: Direction, i: nat, j: nat)
    requires i < |DefaultAccepts(dir)| && j < |DefaultAccepts(dir)|
    ensures RuleMatches(DefaultAccepts(dir)[j], OnlyFor(dir, i)) <==> i == j
  {
    AcceptsListed(dir);
    OnlyForParts(dir, i);
    AcceptsOne(DefaultAccepts(dir)[j], j, OnlyFor(dir, i));
  }

  /** The j-th default rule, of one direction or the other, by the parts of a packet it looks at. */
  lemma AcceptsOne(r: NetRule, j: nat, p: Packet)
    requires j == 0 ==> || r == EMPTY_RULE.(sourceIface := "lo", operation := IPTABLES_ACCEPT)
                        || r == EMPTY_RULE.(destIface := "lo", operation := IPTABLES_ACCEPT)
    requires j == 1 ==> r == EMPTY_RULE.(state := STATE_ESTABLISHED_RELATED, operation := IPTABLES_ACCEPT)
    requires j >= 2 ==> r == EMPTY_RULE.(protocol := if j == 2 then "tcp" else "udp", destPort := "53",
                                         state := STATE_NEW_ESTABLISHED, operation := IPTABLES_ACCEPT)
    ensures j == 0 && p.inIface == p.outIface ==> (RuleMatches(r, p) <==> p.inIface == "lo")
    ensures j == 1 ==> (RuleMatches(r, p) <==> p.state.Established? || p.state.Related?)
    ensures j >= 2 ==> (RuleMatches(r, p) <==> && (if j == 2 then "tcp" else "udp") in p.protocols
                                               && "53" in p.destPorts && (p.state.New? || p.state.Established?))
  {
    if j == 0 {
      InterfaceRule(r, "lo", IPTABLES_ACCEPT, p);
    } else if j == 1 {
      KnownConnectionRule(r, p);
    } else {
      DnsRule(r, if j == 2 then "tcp" else "udp", p);
    }
  }

  lemma TextsDiffer()
    ensures "tcp" != "udp" && "eth0" != "lo"
  {
    assert "tcp"[0] != "udp"[0] && "eth0"[0] != "lo"[0];
  }

  lemma TenIsSpecial(dir: Direction)
    ensures Whitelist([TenRule(dir)])
    ensures SomeRuleMatches([TenRule(dir)], TEN_PACKET) && !AlwaysAllowed(dir, TEN_PACKET)
    ensures forall i :: !SomeRuleMatches([TenRule(dir)], OnlyFor(dir, i))
  {
    assert [TenRule(dir)][0] in [TenRule(dir)];
    assert "eth0"[0] != "lo"[0];
  }

  /** Without the jump in front, the packet with the address is rejected. */
  lemma MissingJump(t: Chains, fam: Family, dir: Direction)
    requires var x := Bucket(t, HookName(dir)); REJECT_ARGS in x && JumpArgs(dir, fam) !in Reached(x)
    ensures !PassesNext(t, fam, dir, [TenRule(dir)], TEN_PACKET)
  {
    TenIsSpecial(dir);
    DefaultAcceptsMeaning(dir, TEN_PACKET);
  }

  /** Without a default rule in front, the packet that it alone accepts is rejected. */
  lemma MissingDefault(t: Chains, fam: Family, dir: Direction, i: nat)
    requires i < |DefaultAccepts(dir)|
    requires var x := Bucket(t, HookName(dir)); REJECT_ARGS in x && ArgsOf(DefaultAccepts(dir)[i]) !in Reached(x)
    ensures !PassesNext(t, fam, dir, [TenRule(dir)], OnlyFor(dir, i)) && AlwaysAllowed(dir, OnlyFor(dir, i))
  {
    TenIsSpecial(dir);
    var accepts, p := DefaultAccepts(dir), OnlyFor(dir, i);
    forall r | r in accepts && ArgsOf(r) in Reached(Bucket(t, HookName(dir))) ensures !RuleMatches(r, p) {
      var j :| 0 <= j < |accepts| && accepts[j] == r;
      OnlyOneAccepts(dir, i, j);
    }
    OnlyOneAccepts(dir, i, i);
    DefaultAcceptsMeaning(dir, p);
    assert accepts[i] in accepts;
  }

  lemma NotEnforced(t: Chains, fam: Family, ingress: seq<NetRule>, egress: seq<NetRule>, dir: Direction, p: Packet)
    requires Orderly(t, fam) && Whitelist(ingress) && Whitelist(egress)
    requires var rules := RulesOf(dir, ingress, egress);
             !PassesNext(t, fam, dir, rules, p) && (AlwaysAllowed(dir, p) || SomeRuleMatches(rules, p))
    ensures !Enforced(Exec(t, RunPlan(fam, ingress, egress), {}), dir, RulesOf(dir, ingress, egress))
  {
    RerunVerdict(t, fam, ingress, egress, dir, p);
  }

  lemma UnrecoveredRules(t: Chains, fam: Family, dir: Direction, ingress: seq<NetRule>, egress: seq<NetRule>)
    requires Orderly(t, fam) && !Recoverable(Bucket(t, HookName(dir)), dir, fam)
    requires Whitelist(ingress) && Whitelist(egress) && RulesOf(dir, ingress, egress) == [TenRule(dir)]
    ensures !Enforced(Exec(t, RunPlan(fam, ingress, egress), {}), dir, RulesOf(dir, ingress, egress))
  {
    var x := Bucket(t, HookName(dir));
    if JumpArgs(dir, fam) !in Reached(x) {
      TenIsSpecial(dir);
      MissingJump(t, fam, dir);
      NotEnforced(t, fam, ingress, egress, dir, TEN_PACKET);
    } else {
      var i :| 0 <= i < |DefaultAccepts(dir)| && ArgsAll(DefaultAccepts(dir))[i] !in Reached(x);
      MissingDefault(t, fam, dir, i);
      NotEnforced(t, fam, ingress, egress, dir, OnlyFor(dir, i));
    }
  }

  /** Whatever rules one more run without failures brings, it enforces them, exactly when no REJECT precedes the jump
      or a default rule that run would put in front. */
  lemma RecoversExactly(t: Chains, fam: Family, dir: Direction)
    requires Orderly(t, fam)
    ensures (forall ingress, egress :: Whitelist(ingress) && Whitelist(egress) && RulesOf(dir, ingress, egress) != []
                ==> Enforced(Exec(t, RunPlan(fam, ingress, egress), {}), dir, RulesOf(dir, ingress, egress)))
            <==> Recoverable(Bucket(t, HookName(dir)), dir, fam)
  {
    if Recoverable(Bucket(t, HookName(dir)), dir, fam) {
      forall ingress, egress | Whitelist(ingress) && Whitelist(egress) && RulesOf(dir, ingress, egress) != []
        ensures Enforced(Exec(t, RunPlan(fam, ingress, egress), {}), dir, RulesOf(dir, ingress, egress))
      {
        Recovers(t, fam, ingress, egress, dir);
      }
    } else if dir.Ingress? {
      OnlyTen(dir, [TenRule(dir)], []);
      UnrecoveredRules(t, fam, dir, [TenRule(dir)], []);
    } else {
      OnlyTen(dir, [], [TenRule(dir)]);
      UnrecoveredRules(t, fam, dir, [], [TenRule(dir)]);
    }
  }

  lemma OnlyTen(dir: Direction, ingress: seq<NetRule>, egress: seq<NetRule>)
    requires if dir.Ingress? then ingress == [TenRule(dir)] && egress == [] else ingress == [] && egress == [TenRule(dir)]
    ensures Whitelist(ingress) && Whitelist(egress) && RulesOf(dir, ingress, egress) == [TenRule(dir)]
  {
  }

  /** A run whose every call for the jump fails, but not the one for the REJECT, leaves nothing to recover. */
  lemma LostJump(fam: Family, ingress: seq<NetRule>, egress: seq<NetRule>, dir: Direction, faults: set<nat>)
    requires RejectMade(fam, ingress, egress, faults, HookName(dir))
    requires var plan := RunPlan(fam, ingress, egress);
             forall i :: 0 <= i < |plan| && plan[i] == EnsureRule(HookName(dir), JumpArgs(dir, fam)) ==> i in faults
    ensures var x := Bucket(Exec(FRESH, RunPlan(fam, ingress, egress), faults), HookName(dir));
            REJECT_ARGS in x && JumpArgs(dir, fam) !in Reached(x) && !Recoverable(x, dir, fam)
  {
    var plan := RunPlan(fam, ingress, egress);
    var x := Bucket(Exec(FRESH, plan, faults), HookName(dir));
    ClosedExactly(fam, ingress, egress, faults, HookName(dir));
    ReachedMembers(x);
    if JumpArgs(dir, fam) in x {
      RulesComeFromCalls(plan, faults, HookName(dir), JumpArgs(dir, fam));
    }
  }

  lemma WithoutSecond(a: seq<Op>, b: seq<Op>, c: seq<Op>)
    ensures a + [] + (b + []) + c == a + b + c
  {
  }

  lemma OwnChainOps(fam: Family, rules: seq<NetRule>)
    requires rules != []
    ensures var own := OwnChain(Ingress, fam, rules);
            ChainOps(own, JumpRules(Ingress, fam))
            == [EnsureChain(own.name), FlushChain(own.name), EnsureRule(CHAIN_INPUT, JumpArgs(Ingress, fam))]
  {
    assert ChainArgs(JumpRules(Ingress, fam)) == [JumpArgs(Ingress, fam)];
    assert RuleOps(JumpRules(Ingress, fam)) == [EnsureRule(CHAIN_INPUT, JumpArgs(Ingress, fam))];
  }

  lemma NoOps(chain: NetRuleChain, jumpRules: NetRuleChain)
    requires chain.rules == []
    ensures RuleOps(chain) == [] && ChainOps(chain, jumpRules) == []
  {
  }

  /** The parts of a run with ingress rules only. */
  lemma IngressPlan(fam: Family, rules: seq<NetRule>)
    requires rules != []
    ensures var own := OwnChain(Ingress, fam, rules);
            RunPlan(fam, rules, [])
            == [EnsureChain(own.name), FlushChain(own.name), EnsureRule(CHAIN_INPUT, JumpArgs(Ingress, fam))]
               + RuleOps(own) + DEFAULT_OPS
  {
    var own, none := OwnChain(Ingress, fam, rules), OwnChain(Egress, fam, []);
    OwnChainOps(fam, rules);
    NoOps(none, JumpRules(Egress, fam));
    WithoutSecond(ChainOps(own, JumpRules(Ingress, fam)), RuleOps(own), DEFAULT_OPS);
  }

  lemma NotTheJump(fam: Family, rules: seq<NetRule>)
    ensures EnsureRule(CHAIN_INPUT, JumpArgs(Ingress, fam)) !in RuleOps(OwnChain(Ingress, fam, rules)) + DEFAULT_OPS
  {
    var op := EnsureRule(CHAIN_INPUT, JumpArgs(Ingress, fam));
    OwnNames(Ingress, fam);
    HookNames();
    HookArgsDistinct(Ingress, fam);
    if op in DEFAULT_OPS {
      DefaultOpsMembers(op);
    }
    RuleOpsMembers(OwnChain(Ingress, fam, rules), op);
  }

  /** Of these parts, only the third call is for the jump. */
  lemma OnlyThird(plan: seq<Op>, a: Op, b: Op, jump: Op, c: seq<Op>, d: seq<Op>)
    requires a != jump && b != jump && jump !in c + d && plan == [a, b, jump] + c + d
    ensures forall i :: 0 <= i < |plan| && plan[i] == jump ==> i == 2
  {
    assert plan == [a, b, jump] + (c + d);
    assert forall i :: 0 <= i < |c + d| ==> (c + d)[i] in c + d;
    assert forall i :: 3 <= i < |plan| ==> plan[i] == (c + d)[i - 3];
  }

  lemma JumpIsThird(fam: Family, rules: seq<NetRule>)
    requires rules != []
    ensures var plan := RunPlan(fam, rules, []);
            forall i :: 0 <= i < |plan| && plan[i] == EnsureRule(CHAIN_INPUT, JumpArgs(Ingress, fam)) ==> i == 2
  {
    var own, jump := OwnChain(Ingress, fam, rules), EnsureRule(CHAIN_INPUT, JumpArgs(Ingress, fam));
    IngressPlan(fam, rules);
    NotTheJump(fam, rules);
    OnlyThird(RunPlan(fam, rules, []), EnsureChain(own.name), FlushChain(own.name), jump, RuleOps(own), DEFAULT_OPS);
  }

  lemma RejectIsMade(fam: Family, rules: seq<NetRule>)
    requires rules != []
    ensures RejectMade(fam, rules, [], {2}, CHAIN_INPUT)
  {
    var own, last := OwnChain(Ingress, fam, rules), |DefaultRules(Ingress)| - 1;
    IngressPlan(fam, rules);
    DefaultRulesDistinct(Ingress);
    assert ChainArgs(DEFAULT_INPUT_RULES) == ArgsAll(DefaultRules(Ingress));
    assert RuleOps(DEFAULT_INPUT_RULES)[last] == RejectOp(CHAIN_INPUT);
    assert DEFAULT_OPS[last] == RuleOps(DEFAULT_INPUT_RULES)[last];
    assert RunPlan(fam, rules, [])[3 + |RuleOps(own)| + last] == DEFAULT_OPS[last];
  }

  /** If just the call for the jump fails in a first run, then the same run again, without failures, still rejects what
      its rule lets through. */
  lemma OneFailureStays(fam: Family)
    ensures var ingress := [TenRule(Ingress)];
            var t := Exec(FRESH, RunPlan(fam, ingress, []), {2});
            var u := Exec(t, RunPlan(fam, ingress, []), {});
            !Accepted(u, CHAIN_INPUT, TEN_PACKET) && SomeRuleMatches(ingress, TEN_PACKET)
  {
    var ingress := [TenRule(Ingress)];
    var t := Exec(FRESH, RunPlan(fam, ingress, []), {2});
    TenIsSpecial(Ingress);
    JumpIsThird(fam, ingress);
    RejectIsMade(fam, ingress);
    FreshIsOrderly(fam);
    RunKeepsOrder(FRESH, fam, ingress, [], RunPlan(fam, ingress, []), {2});
    LostJump(fam, ingress, [], Ingress, {2});
    MissingJump(t, fam, Ingress);
    RerunVerdict(t, fam, ingress, [], Ingress, TEN_PACKET);
  }
}
