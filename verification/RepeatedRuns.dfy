/** Running again and again: the table after any series of runs, its verdicts, and when it is the last run's. */
module RepeatedRuns {
  import opened PolTypes
  import opened RuleArguments
  import opened PacketFilter
  import opened Provisioner
  import opened ChainEffects
  import opened InstalledTables
  import opened Verdicts

  /** The rule lists of one run: ingress and egress. */
  type RunRules = (seq<NetRule>, seq<NetRule>)

  function RulesIn(run: RunRules, dir: Direction): seq<NetRule> {
    RulesOf(dir, run.0, run.1)
  }

  /** The table of a fresh namespace after several runs, one after the other. */
  function TableAfter(fam: Family, runs: seq<RunRules>): Chains {
    if runs == [] then FRESH
    else
      var n := |runs| - 1; Exec(TableAfter(fam, runs[..n]), RunPlan(fam, runs[n].0, runs[n].1), {})
  }

  /** The rules of the last run that had any. */
  function LastRules(runs: seq<RunRules>, dir: Direction): seq<NetRule> {
    if runs == [] then []
    else if RulesIn(runs[|runs| - 1], dir) != [] then RulesIn(runs[|runs| - 1], dir)
    else LastRules(runs[..|runs| - 1], dir)
  }

  lemma {:induction false} LastRulesExist(runs: seq<RunRules>, dir: Direction)
    ensures LastRules(runs, dir) == [] <==> forall run :: run in runs ==> RulesIn(run, dir) == []
  {
    if runs != [] {
      var n := |runs| - 1;
      assert runs == runs[..n] + [runs[n]];
      LastRulesExist(runs[..n], dir);
    }
  }

  /** A built-in chain after several runs: the jump stays where the first run that needed it put it, which is
      after the REJECT unless that was the very first run. */
  function HookAfterRuns(runs: seq<RunRules>, dir: Direction, fam: Family): seq<Args>
    requires runs != []
  {
    var rules := LastRules(runs, dir);
    if RulesIn(runs[0], dir) != [] || rules == [] then HookArgs(dir, fam, rules)
    else ArgsAll(DefaultRules(dir)) + [JumpArgs(dir, fam)]
  }

  function ChainAfterRuns(runs: seq<RunRules>, fam: Family, c: string): Option<seq<Args>>
    requires runs != []
  {
    if c == CHAIN_INPUT then Some(HookAfterRuns(runs, Ingress, fam))
    else if c == CHAIN_OUTPUT then Some(HookAfterRuns(runs, Egress, fam))
    else if c == CHAIN_FORWARD then Some([ArgsOf(REJECT_RULE)])
    else if c == ChainName(Ingress, fam) then OwnIfAny(LastRules(runs, Ingress))
    else if c == ChainName(Egress, fam) then OwnIfAny(LastRules(runs, Egress))
    else None
  }

  /** A run on a built-in chain that has its default rules adds the jump, if it needs one and there is none. */
  lemma HookWithDefaults(x: seq<Args>, dir: Direction, fam: Family, rules: seq<NetRule>)
    requires forall a :: a in ArgsAll(DefaultRules(dir)) ==> a in x
    ensures HookAfterRun(x, dir, fam, rules)
            == if rules == [] || JumpArgs(dir, fam) in x then x else x + [JumpArgs(dir, fam)]
  {
    EnsureAllPresent(if rules == [] then x else Ensure(x, JumpArgs(dir, fam)), ArgsAll(DefaultRules(dir)));
  }

  lemma HookHolds(runs: seq<RunRules>, dir: Direction, fam: Family)
    requires runs != []
    ensures JumpArgs(dir, fam) in HookAfterRuns(runs, dir, fam) <==> LastRules(runs, dir) != []
    ensures forall a :: a in ArgsAll(DefaultRules(dir)) ==> a in HookAfterRuns(runs, dir, fam)
  {
    assert runs[0] in runs;
    LastRulesExist(runs, dir);
    HookArgsDistinct(dir, fam);
    assert [JumpArgs(dir, fam)][0] == JumpArgs(dir, fam);
  }

  /** One more run adds the jump if it is the first to need one. */
  lemma HookGrows(runs: seq<RunRules>, dir: Direction, fam: Family, last: RunRules)
    requires runs != []
    ensures HookAfterRuns(runs + [last], dir, fam)
            == if RulesIn(last, dir) == [] || LastRules(runs, dir) != [] then HookAfterRuns(runs, dir, fam)
               else HookAfterRuns(runs, dir, fam) + [JumpArgs(dir, fam)]
  {
    var all := runs + [last];
    assert all[..|runs|] == runs && all[0] == runs[0] && runs[0] in runs;
    LastRulesExist(runs, dir);
    assert LastRules(all, dir) == if RulesIn(last, dir) != [] then RulesIn(last, dir) else LastRules(runs, dir);
    HookArgsOfEmptiness(dir, fam, LastRules(runs, dir), LastRules(all, dir));
  }

  lemma HookArgsOfEmptiness(dir: Direction, fam: Family, rules: seq<NetRule>, rules': seq<NetRule>)
    ensures (rules == [] <==> rules' == []) ==> HookArgs(dir, fam, rules) == HookArgs(dir, fam, rules')
    ensures HookArgs(dir, fam, []) == ArgsAll(DefaultRules(dir))
  {
  }

  lemma HookStep(runs: seq<RunRules>, dir: Direction, fam: Family, last: RunRules)
    requires runs != []
    ensures HookAfterRun(HookAfterRuns(runs, dir, fam), dir, fam, RulesIn(last, dir))
            == HookAfterRuns(runs + [last], dir, fam)
  {
    HookHolds(runs, dir, fam);
    HookWithDefaults(HookAfterRuns(runs, dir, fam), dir, fam, RulesIn(last, dir));
    HookGrows(runs, dir, fam, last);
  }

  lemma ChainStep(runs: seq<RunRules>, fam: Family, c: string, last: RunRules)
    requires runs != []
    ensures ChainAfterRun(ChainAfterRuns(runs, fam, c), fam, last.0, last.1, c) == ChainAfterRuns(runs + [last], fam, c)
  {
    assert (runs + [last])[..|runs|] == runs;
    if c == CHAIN_INPUT {
      HookStep(runs, Ingress, fam, last);
    } else if c == CHAIN_OUTPUT {
      HookStep(runs, Egress, fam, last);
    }
  }

  lemma OneRun(fam: Family, run: RunRules, c: string)
    ensures Lookup(Installed(fam, run.0, run.1), c) == ChainAfterRuns([run], fam, c)
  {
    assert [run][..0] == [];
    assert LastRules([], Ingress) == LastRules([], Egress) == [];
    assert LastRules([run], Ingress) == run.0 && LastRules([run], Egress) == run.1;
    InstalledLookup(fam, run.0, run.1, c);
  }

  lemma OneMoreRun(t: Chains, fam: Family, runs: seq<RunRules>, last: RunRules, c: string)
    requires runs != [] && Lookup(t, c) == ChainAfterRuns(runs, fam, c)
    ensures Lookup(Exec(t, RunPlan(fam, last.0, last.1), {}), c) == ChainAfterRuns(runs + [last], fam, c)
  {
    RunLookup(t, fam, last.0, last.1, c);
    PlanOnChain(Lookup(t, c), fam, last.0, last.1, c);
    ChainStep(runs, fam, c, last);
  }

  /** The closed form of the table after several runs, chain by chain. */
  lemma {:induction false} RunsLookup(fam: Family, runs: seq<RunRules>, c: string)
    requires runs != []
    ensures Lookup(TableAfter(fam, runs), c) == ChainAfterRuns(runs, fam, c)
  {
    var n := |runs| - 1;
    if n == 0 {
      assert runs == [runs[n]];
      RunOnFresh(fam, runs[n].0, runs[n].1);
      OneRun(fam, runs[n], c);
    } else {
      assert runs == runs[..n] + [runs[n]];
      RunsLookup(fam, runs[..n], c);
      OneMoreRun(TableAfter(fam, runs[..n]), fam, runs[..n], runs[n], c);
    }
  }

  lemma DirectionLookup(fam: Family, runs: seq<RunRules>, dir: Direction)
    requires runs != []
    ensures Lookup(TableAfter(fam, runs), HookName(dir)) == Some(HookAfterRuns(runs, dir, fam))
    ensures Lookup(TableAfter(fam, runs), ChainName(dir, fam)) == OwnIfAny(LastRules(runs, dir))
  {
    HookNames();
    OwnNames(dir, fam);
    RunsLookup(fam, runs, HookName(dir));
    RunsLookup(fam, runs, ChainName(dir, fam));
  }

  // ---- Convergence ----

  /** A direction never had rules, or had some in the first and in the last run. */
  ghost predicate Settles(runs: seq<RunRules>, dir: Direction)
    requires runs != []
  {
    || (forall run :: run in runs ==> RulesIn(run, dir) == [])
    || (RulesIn(runs[0], dir) != [] && RulesIn(runs[|runs| - 1], dir) != [])
  }

  lemma HookSettlesExactly(runs: seq<RunRules>, dir: Direction, fam: Family)
    requires runs != []
    ensures Settles(runs, dir)
            <==> HookAfterRuns(runs, dir, fam) == HookArgs(dir, fam, RulesIn(runs[|runs| - 1], dir))
    ensures Settles(runs, dir) ==> LastRules(runs, dir) == RulesIn(runs[|runs| - 1], dir)
  {
    var last, jump := RulesIn(runs[|runs| - 1], dir), JumpArgs(dir, fam);
    var defaults := ArgsAll(DefaultRules(dir));
    var x := HookAfterRuns(runs, dir, fam);
    assert runs[0] in runs && runs[|runs| - 1] in runs;
    LastRulesExist(runs, dir);
    HookArgsDistinct(dir, fam);
    DefaultRulesDistinct(dir);
    if last != [] && RulesIn(runs[0], dir) == [] {
      assert x[0] == defaults[0] && defaults[0] in defaults;
      assert HookArgs(dir, fam, last)[0] == jump;
    } else if last == [] && LastRules(runs, dir) != [] {
      assert [jump][0] in x;
      assert HookArgs(dir, fam, last) == defaults;
    }
  }

  /** After any runs, the table is the one the last run alone installs exactly when each direction never had rules,
      or had some in the first and in the last run; those between do not matter. */
  lemma RunsConvergeExactly(fam: Family, runs: seq<RunRules>)
    requires runs != []
    ensures var last := runs[|runs| - 1];
            TableAfter(fam, runs) == Exec(FRESH, RunPlan(fam, last.0, last.1), {})
            <==> Settles(runs, Ingress) && Settles(runs, Egress)
  {
    var last := runs[|runs| - 1];
    var t, u := TableAfter(fam, runs), Installed(fam, last.0, last.1);
    RunOnFresh(fam, last.0, last.1);
    HookSettlesExactly(runs, Ingress, fam);
    HookSettlesExactly(runs, Egress, fam);
    if Settles(runs, Ingress) && Settles(runs, Egress) {
      forall c ensures Lookup(t, c) == Lookup(u, c) {
        RunsLookup(fam, runs, c);
        InstalledLookup(fam, last.0, last.1, c);
      }
      SameLookups(t, u);
    } else {
      var hook := HookName(if Settles(runs, Ingress) then Egress else Ingress);
      HookNames();
      RunsLookup(fam, runs, hook);
      InstalledLookup(fam, last.0, last.1, hook);
    }
  }

  // ---- Verdicts ----

  /** Whatever the runs were, a packet is accepted exactly when it is always allowed, or the first run had rules and
      one of the rules of the last run that had any matches: rules that come late are void, and rules that are
      withdrawn altogether stay. */
  lemma RunsVerdict(fam: Family, runs: seq<RunRules>, dir: Direction, p: Packet)
    requires runs != [] && Whitelist(LastRules(runs, dir))
    ensures Accepted(TableAfter(fam, runs), HookName(dir), p)
            <==> || AlwaysAllowed(dir, p)
                 || (RulesIn(runs[0], dir) != [] && SomeRuleMatches(LastRules(runs, dir), p))
  {
    DirectionLookup(fam, runs, dir);
    HookVerdict(TableAfter(fam, runs), fam, runs, dir, p);
  }

  lemma HookVerdict(t: Chains, fam: Family, runs: seq<RunRules>, dir: Direction, p: Packet)
    requires runs != [] && Whitelist(LastRules(runs, dir))
    requires Lookup(t, HookName(dir)) == Some(HookAfterRuns(runs, dir, fam))
    requires Lookup(t, ChainName(dir, fam)) == OwnIfAny(LastRules(runs, dir))
    ensures Accepted(t, HookName(dir), p)
            <==> || AlwaysAllowed(dir, p)
                 || (RulesIn(runs[0], dir) != [] && SomeRuleMatches(LastRules(runs, dir), p))
  {
    if RulesIn(runs[0], dir) != [] || LastRules(runs, dir) == [] {
      assert runs[0] in runs;
      LastRulesExist(runs, dir);
      RunHook(t, fam, dir, LastRules(runs, dir), p, JUMP_LIMIT);
    } else {
      RunLateJump(t, dir, fam, p, JUMP_LIMIT);
    }
  }

  /** A jump after the REJECT is never reached. */
  lemma RunLateJump(t: Chains, dir: Direction, fam: Family, p: Packet, depth: nat)
    ensures Run(t, ArgsAll(DefaultRules(dir)) + [JumpArgs(dir, fam)], p, depth)
            == Some(if AlwaysAllowed(dir, p) then Accept else Reject)
  {
    RunDefaults(t, dir, p, depth);
    RunConcat(t, ArgsAll(DefaultRules(dir)), [JumpArgs(dir, fam)], p, depth);
  }

  const FROM_TEN := EMPTY_RULE.(sourceIp := "10.0.0.1")
  const PACKET_FROM_TEN := Packet("eth0", "eth0", New, iset{}, iset{"10.0.0.1"}, iset{}, iset{}, iset{})

  /** A first run without ingress rules makes those of the second void, and a second run without ingress rules
      leaves those of the first in force. */
  lemma EmptinessMatters(fam: Family)
    ensures var none, some := ([], []), ([FROM_TEN], []);
            var late, stale := TableAfter(fam, [none, some]), TableAfter(fam, [some, none]);
            && !Accepted(late, CHAIN_INPUT, PACKET_FROM_TEN)
            && Accepted(TableAfter(fam, [some]), CHAIN_INPUT, PACKET_FROM_TEN)
            && Accepted(stale, CHAIN_INPUT, PACKET_FROM_TEN)
            && !Accepted(TableAfter(fam, [none]), CHAIN_INPUT, PACKET_FROM_TEN)
  {
    var none: RunRules, some: RunRules := ([], []), ([FROM_TEN], []);
    assert [none, some][..1] == [none] && [some, none][..1] == [some];
    assert LastRules([none, some], Ingress) == LastRules([some], Ingress) == LastRules([some, none], Ingress) == [FROM_TEN];
    assert LastRules([none], Ingress) == [];
    assert RuleMatches(FROM_TEN, PACKET_FROM_TEN) && !AlwaysAllowed(Ingress, PACKET_FROM_TEN);
    assert SomeRuleMatches([FROM_TEN], PACKET_FROM_TEN) by { assert [FROM_TEN][0] in [FROM_TEN]; }
    RunsVerdict(fam, [none, some], Ingress, PACKET_FROM_TEN);
    RunsVerdict(fam, [some], Ingress, PACKET_FROM_TEN);
    RunsVerdict(fam, [some, none], Ingress, PACKET_FROM_TEN);
    RunsVerdict(fam, [none], Ingress, PACKET_FROM_TEN);
  }
}
