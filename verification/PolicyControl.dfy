/** Handling a new Pod: the stages together, from the API's records to the tables in the Pod's namespace. */
module PolicyControl {
  import opened PolTypes
  import opened PolicySet
  import opened EndpointSet
  import opened RuleSet
  import opened PolicyMeaning
  import opened FieldMeaning
  import opened PacketFilter
  import opened Provisioner
  import opened ChainEffects
  import opened InstalledTables
  import opened Verdicts
  import opened RunSafety
  import opened Recovery

  const MAX_RETRY_COUNT: nat := 5

  /** The tables of one network namespace. */
  datatype Netns = Netns(v4: FilterTable, v6: FilterTable) {
    function Table(fam: Family): FilterTable {
      if fam.V4? then v4 else v6
    }
  }

  datatype Outcome =
    | OtherNode        // the Pod runs elsewhere
    | NotIsolated      // no policy selects it
    | NoEndpoints      // DANM does not manage its network
    | Stopped          // a nil port or protocol was dereferenced
    | NoNamespace      // its network namespace cannot be entered
    | ChainsFailed     // the chains could not be created
    | Provisioned

  // ---- What the compiled rule set means ----

  /** Rules of this kind name a protocol, an address and a port, and nothing else. */
  predicate IsPlain(r: NetRule) {
    r.operation == "" && r.state == "" && r.sourceIface == "" && r.destIface == ""
  }

  lemma CompiledRulesWhitelist(rs: NetRuleSet, pols: seq<Policy>, depSet: DanmEpSet, dir: Direction, fam: Family)
    requires IsRuleSet(rs, pols, depSet)
    ensures Whitelist(rs.Chain(dir, fam).rules)
    ensures forall r :: r in rs.Chain(dir, fam).rules ==> IsPlain(r)
  {
    forall r | r in rs.Chain(dir, fam).rules ensures IsPlain(r) {
      assert r in ToSet(rs.Chain(dir, fam).rules);
      assert r in PoliciesRules(depSet, pols, dir, fam);
      var pol :| pol in pols && r in PolicyRules(depSet, pol, dir, fam);
    }
  }

  /** The records a run is compiled from, and the rule set it compiles them to. */
  ghost predicate Compiled(rs: NetRuleSet, pols: seq<Policy>, eps: seq<DanmEp>, pod: Pod) {
    exists applicable, depSet ::
      && IsApplicable(applicable, pols, pod)
      && IsEndpointIndex(depSet, eps, pod)
      && IsRuleSet(rs, applicable, depSet)
  }

  ghost predicate Identified(pols: seq<Policy>, eps: seq<DanmEp>) {
    PoliciesIdentified(pols) && EndpointsIdentified(eps)
  }

  lemma CompiledMeaning(
    rs: NetRuleSet, pols: seq<Policy>, eps: seq<DanmEp>, pod: Pod, dir: Direction, fam: Family, p: Packet)
    requires Compiled(rs, pols, eps, pod) && Identified(pols, eps)
    ensures Whitelist(rs.Chain(dir, fam).rules) && forall r :: r in rs.Chain(dir, fam).rules ==> IsPlain(r)
    ensures rs.Chain(dir, fam).name == ChainName(dir, fam)
    ensures SomeRuleMatches(rs.Chain(dir, fam).rules, p) <==> Allows(ByKey, pols, eps, pod, dir, fam, p)
  {
    var applicable, depSet :|
      && IsApplicable(applicable, pols, pod)
      && IsEndpointIndex(depSet, eps, pod)
      && IsRuleSet(rs, applicable, depSet);
    CompiledRulesWhitelist(rs, applicable, depSet, dir, fam);
    CompiledRulesMeaning(pols, applicable, depSet, eps, pod, dir, fam, p);
    var rules := rs.Chain(dir, fam).rules;
    assert ToSet(rules) == PoliciesRules(depSet, applicable, dir, fam);
    assert forall r :: r in rules <==> r in ToSet(rules);
  }

  ghost predicate Permitted(
    pols: seq<Policy>, eps: seq<DanmEp>, pod: Pod, dir: Direction, fam: Family, p: Packet)
  {
    AlwaysAllowed(dir, p) || Allows(ByKey, pols, eps, pod, dir, fam, p)
  }

  /** The table gives every packet the verdict the policies give it, and forwards nothing. */
  ghost predicate Enforces(t: Chains, pols: seq<Policy>, eps: seq<DanmEp>, pod: Pod, fam: Family) {
    && (forall dir, p :: Accepted(t, HookName(dir), p) <==> Permitted(pols, eps, pod, dir, fam, p))
    && (forall p :: !Accepted(t, CHAIN_FORWARD, p))
  }

  /** No state of the table rejects an incoming or outgoing packet that the policies permit. */
  ghost predicate NeverHinders(trace: seq<Chains>, pols: seq<Policy>, eps: seq<DanmEp>, pod: Pod, fam: Family) {
    forall k, dir, p :: 0 <= k < |trace| && Permitted(pols, eps, pod, dir, fam, p)
                        ==> Accepted(trace[k], HookName(dir), p)
  }

  /** A closed chain accepts only what the policies permit, an open one everything. */
  ghost predicate RestrictsOnceClosed(t: Chains, pols: seq<Policy>, eps: seq<DanmEp>, pod: Pod, fam: Family) {
    forall dir, p ::
      if Closed(t, HookName(dir)) then Accepted(t, HookName(dir), p) ==> Permitted(pols, eps, pod, dir, fam, p)
      else Accepted(t, HookName(dir), p)
  }

  ghost predicate AcceptsAll(t: Chains) {
    forall dir, p :: Accepted(t, HookName(dir), p)
  }

  function FamilyPlan(rs: NetRuleSet, fam: Family): seq<Op> {
    Plan(fam, rs.Chain(Ingress, fam), rs.Chain(Egress, fam))
  }

  lemma PlanOfCompiled(rs: NetRuleSet, pols: seq<Policy>, eps: seq<DanmEp>, pod: Pod, fam: Family)
    requires Compiled(rs, pols, eps, pod) && Identified(pols, eps)
    ensures rs.Chain(Ingress, fam) == OwnChain(Ingress, fam, rs.Chain(Ingress, fam).rules)
    ensures rs.Chain(Egress, fam) == OwnChain(Egress, fam, rs.Chain(Egress, fam).rules)
    ensures FamilyPlan(rs, fam) == RunPlan(fam, rs.Chain(Ingress, fam).rules, rs.Chain(Egress, fam).rules)
  {
    var p := Packet("", "", New, iset{}, iset{}, iset{}, iset{}, iset{});
    CompiledMeaning(rs, pols, eps, pod, Ingress, fam, p);
    CompiledMeaning(rs, pols, eps, pod, Egress, fam, p);
  }

  lemma InstalledEnforces(rs: NetRuleSet, pols: seq<Policy>, eps: seq<DanmEp>, pod: Pod, fam: Family)
    requires Compiled(rs, pols, eps, pod) && Identified(pols, eps)
    ensures Enforces(Installed(fam, rs.Chain(Ingress, fam).rules, rs.Chain(Egress, fam).rules), pols, eps, pod, fam)
  {
    var ingress, egress := rs.Chain(Ingress, fam).rules, rs.Chain(Egress, fam).rules;
    var t := Installed(fam, ingress, egress);
    forall dir, p ensures Accepted(t, HookName(dir), p) <==> Permitted(pols, eps, pod, dir, fam, p) {
      CompiledMeaning(rs, pols, eps, pod, dir, fam, p);
      InstalledVerdict(fam, ingress, egress, dir, p);
    }
    forall p ensures !Accepted(t, CHAIN_FORWARD, p) {
      ForwardVerdict(fam, ingress, egress, p);
    }
  }

  /** The end-to-end meaning: a fault-free run on a fresh namespace enforces the policies. */
  lemma RunEnforces(rs: NetRuleSet, pols: seq<Policy>, eps: seq<DanmEp>, pod: Pod, fam: Family)
    requires Compiled(rs, pols, eps, pod) && Identified(pols, eps)
    ensures Enforces(Exec(FRESH, FamilyPlan(rs, fam), {}), pols, eps, pod, fam)
  {
    PlanOfCompiled(rs, pols, eps, pod, fam);
    RunOnFresh(fam, rs.Chain(Ingress, fam).rules, rs.Chain(Egress, fam).rules);
    InstalledEnforces(rs, pols, eps, pod, fam);
  }

  /** On the way there, nothing that will be permitted is ever rejected. */
  lemma RunNeverHinders(
    rs: NetRuleSet, pols: seq<Policy>, eps: seq<DanmEp>, pod: Pod, fam: Family, trace: seq<Chains>)
    requires Compiled(rs, pols, eps, pod) && Identified(pols, eps)
    requires IsTrace(trace, FRESH, FamilyPlan(rs, fam), {})
    ensures NeverHinders(trace, pols, eps, pod, fam)
  {
    var ingress, egress := rs.Chain(Ingress, fam).rules, rs.Chain(Egress, fam).rules;
    PlanOfCompiled(rs, pols, eps, pod, fam);
    forall k, dir, p | 0 <= k < |trace| && Permitted(pols, eps, pod, dir, fam, p)
      ensures Accepted(trace[k], HookName(dir), p)
    {
      TraceIsExec(trace, FRESH, FamilyPlan(rs, fam), {}, k);
      CompiledMeaning(rs, pols, eps, pod, dir, fam, p);
      InstalledVerdict(fam, ingress, egress, dir, p);
      StepSafety(fam, ingress, egress, dir, k, p);
    }
  }

  /** Whatever calls fail, a chain that got its REJECT accepts only what is permitted. */
  lemma FaultyRunRestricts(
    rs: NetRuleSet, pols: seq<Policy>, eps: seq<DanmEp>, pod: Pod, fam: Family, ops: seq<Op>, faults: set<nat>)
    requires Compiled(rs, pols, eps, pod) && Identified(pols, eps)
    requires ops <= FamilyPlan(rs, fam)
    ensures RestrictsOnceClosed(Exec(FRESH, ops, faults), pols, eps, pod, fam)
  {
    var ingress, egress := rs.Chain(Ingress, fam).rules, rs.Chain(Egress, fam).rules;
    PlanOfCompiled(rs, pols, eps, pod, fam);
    RunKeepsRulesInPlace(fam, ingress, egress, ops, faults);
    forall dir, p
      ensures var t := Exec(FRESH, ops, faults);
              if Closed(t, HookName(dir)) then Accepted(t, HookName(dir), p) ==> Permitted(pols, eps, pod, dir, fam, p)
              else Accepted(t, HookName(dir), p)
    {
      CompiledMeaning(rs, pols, eps, pod, dir, fam, p);
      WellPlacedVerdict(Exec(FRESH, ops, faults), fam, ingress, egress, dir, p);
    }
  }

  // ---- What a run needs, and when it fails ----

  /** The policies whitelist some packet of this direction and family. */
  ghost predicate NeedsChain(pols: seq<Policy>, eps: seq<DanmEp>, pod: Pod, dir: Direction, fam: Family) {
    exists p :: Allows(ByKey, pols, eps, pod, dir, fam, p)
  }

  /** A chain gets rules exactly when the policies whitelist some packet for it. */
  lemma ChainNeededExactly(rs: NetRuleSet, pols: seq<Policy>, eps: seq<DanmEp>, pod: Pod, dir: Direction, fam: Family)
    requires Compiled(rs, pols, eps, pod) && Identified(pols, eps)
    ensures rs.Chain(dir, fam).rules != [] <==> NeedsChain(pols, eps, pod, dir, fam)
  {
    var rules := rs.Chain(dir, fam).rules;
    if rules != [] {
      var r := rules[0];
      var p := Packet("", "", New, iset{r.protocol}, iset{r.sourceIp}, iset{r.destIp}, iset{r.sourcePort}, iset{r.destPort});
      CompiledMeaning(rs, pols, eps, pod, dir, fam, p);
      assert r in rules && RuleMatches(r, p);
    }
    if NeedsChain(pols, eps, pod, dir, fam) {
      var p :| Allows(ByKey, pols, eps, pod, dir, fam, p);
      CompiledMeaning(rs, pols, eps, pod, dir, fam, p);
    }
  }

  /** One of the up to four calls that create chains fails, given which chains are needed: `i4` and `i6` for ingress,
      `e4` and `e6` for egress. Where both directions need one, that of egress is created three calls later. */
  predicate SomeCreationFails(
    i4: bool, i6: bool, e4: bool, e6: bool, calls4: nat, faults4: set<nat>, calls6: nat, faults6: set<nat>)
  {
    || (i4 && calls4 in faults4)
    || (i6 && calls6 in faults6)
    || (e4 && calls4 + (if i4 then 3 else 0) in faults4)
    || (e6 && calls6 + (if i6 then 3 else 0) in faults6)
  }

  ghost predicate CreationFails(
    pols: seq<Policy>, eps: seq<DanmEp>, pod: Pod, calls4: nat, faults4: set<nat>, calls6: nat, faults6: set<nat>)
  {
    SomeCreationFails(
      NeedsChain(pols, eps, pod, Ingress, V4), NeedsChain(pols, eps, pod, Ingress, V6),
      NeedsChain(pols, eps, pod, Egress, V4), NeedsChain(pols, eps, pod, Egress, V6), calls4, faults4, calls6, faults6)
  }

  lemma CallsToCreate(chain: NetRuleChain, dir: Direction, fam: Family)
    ensures |ChainOps(chain, JumpRules(dir, fam))| == if chain.rules == [] then 0 else 3
  {
  }

  lemma ChainsFailByNeed(rs: NetRuleSet, calls4: nat, faults4: set<nat>, calls6: nat, faults6: set<nat>)
    ensures ChainsFail(rs, calls4, faults4, calls6, faults6)
            <==> SomeCreationFails(rs.ingressV4.rules != [], rs.ingressV6.rules != [], rs.egressV4.rules != [],
                                   rs.egressV6.rules != [], calls4, faults4, calls6, faults6)
  {
    CallsToCreate(rs.ingressV4, Ingress, V4);
    CallsToCreate(rs.ingressV6, Ingress, V6);
  }

  lemma CreationFailsExactly(
    rs: NetRuleSet, pols: seq<Policy>, eps: seq<DanmEp>, pod: Pod,
    calls4: nat, faults4: set<nat>, calls6: nat, faults6: set<nat>)
    requires Compiled(rs, pols, eps, pod) && Identified(pols, eps)
    ensures ChainsFail(rs, calls4, faults4, calls6, faults6)
            <==> CreationFails(pols, eps, pod, calls4, faults4, calls6, faults6)
  {
    ChainNeededExactly(rs, pols, eps, pod, Ingress, V4);
    ChainNeededExactly(rs, pols, eps, pod, Ingress, V6);
    ChainNeededExactly(rs, pols, eps, pod, Egress, V4);
    ChainNeededExactly(rs, pols, eps, pod, Egress, V6);
    ChainsFailByNeed(rs, calls4, faults4, calls6, faults6);
  }

  // ---- Tables with a history ----

  /** One more run will put everything in force: nothing it needs is missing in front of a REJECT, and no jump is there
      that it does not need. */
  ghost predicate Ready(t: Chains, pols: seq<Policy>, eps: seq<DanmEp>, pod: Pod, fam: Family) {
    forall dir ::
      var x := Bucket(t, HookName(dir));
      if NeedsChain(pols, eps, pod, dir, fam) then Recoverable(x, dir, fam) else RecoverableEmpty(x, dir, fam)
  }

  lemma RerunDirection(
    t: Chains, rs: NetRuleSet, pols: seq<Policy>, eps: seq<DanmEp>, pod: Pod, fam: Family, dir: Direction)
    requires Compiled(rs, pols, eps, pod) && Identified(pols, eps)
    requires Orderly(t, fam) && Ready(t, pols, eps, pod, fam)
    ensures Enforced(Exec(t, FamilyPlan(rs, fam), {}), dir, rs.Chain(dir, fam).rules)
  {
    var ingress, egress := rs.Chain(Ingress, fam).rules, rs.Chain(Egress, fam).rules;
    PlanOfCompiled(rs, pols, eps, pod, fam);
    CompiledWhitelists(rs, pols, eps, pod, fam);
    ChainNeededExactly(rs, pols, eps, pod, dir, fam);
    assert RulesOf(dir, ingress, egress) == rs.Chain(dir, fam).rules;
    Recovers(t, fam, ingress, egress, dir);
  }

  /** A run without failures on a table that is ready enforces the policies, whatever happened to the table before. */
  lemma RerunEnforces(t: Chains, rs: NetRuleSet, pols: seq<Policy>, eps: seq<DanmEp>, pod: Pod, fam: Family)
    requires Compiled(rs, pols, eps, pod) && Identified(pols, eps)
    requires Orderly(t, fam) && Ready(t, pols, eps, pod, fam)
    ensures Enforces(Exec(t, FamilyPlan(rs, fam), {}), pols, eps, pod, fam)
  {
    var u := Exec(t, FamilyPlan(rs, fam), {});
    forall dir, p ensures Accepted(u, HookName(dir), p) <==> Permitted(pols, eps, pod, dir, fam, p) {
      RerunDirection(t, rs, pols, eps, pod, fam, dir);
      CompiledMeaning(rs, pols, eps, pod, dir, fam, p);
    }
    PlanOfCompiled(rs, pols, eps, pod, fam);
    forall p ensures !Accepted(u, CHAIN_FORWARD, p) {
      ForwardAfterRun(t, fam, rs.Chain(Ingress, fam).rules, rs.Chain(Egress, fam).rules, p);
    }
  }

  lemma CompiledWhitelists(rs: NetRuleSet, pols: seq<Policy>, eps: seq<DanmEp>, pod: Pod, fam: Family)
    requires Compiled(rs, pols, eps, pod) && Identified(pols, eps)
    ensures Whitelist(rs.Chain(Ingress, fam).rules) && Whitelist(rs.Chain(Egress, fam).rules)
  {
    var p := Packet("", "", New, iset{}, iset{}, iset{}, iset{}, iset{});
    CompiledMeaning(rs, pols, eps, pod, Ingress, fam, p);
    CompiledMeaning(rs, pols, eps, pod, Egress, fam, p);
  }

  // ---- Handling a Pod ----

  /** This listing could be read and shows an endpoint of the Pod, and no earlier one does. */
  ghost predicate IsFirstListing(lists: seq<Option<seq<DanmEp>>>, pod: Pod, i: int) {
    && 0 <= i < |lists|
    && lists[i].Some? && (exists d :: d in lists[i].value && d.podUid == pod.uid)
    && forall j :: 0 <= j < i ==> lists[j].None? || forall d :: d in lists[j].value ==> d.podUid != pod.uid
  }

  /** The retry loop: list again until the Pod's endpoints show up, at most so many times. */
  method FindEndpoints(lists: seq<Option<seq<DanmEp>>>, pod: Pod) returns (depSet: DanmEpSet)
    requires |lists| == MAX_RETRY_COUNT
    ensures depSet.podEps == []
            <==> forall i :: 0 <= i < 5 ==> lists[i].None? || forall d :: d in lists[i].value ==> d.podUid != pod.uid
    ensures depSet.podEps != []
            ==> exists i :: IsFirstListing(lists, pod, i) && IsEndpointIndex(depSet, lists[i].value, pod)
  {
    depSet := EMPTY_SET;
    for i := 0 to MAX_RETRY_COUNT
      invariant depSet.podEps == []
      invariant forall j :: 0 <= j < i ==> lists[j].None? || forall d :: d in lists[j].value ==> d.podUid != pod.uid
    {
      depSet := NewDanmEpSet(lists[i], pod);
      if lists[i].Some? {
        OwnEndpointsMembers(lists[i].value, pod.uid);
      }
      if |depSet.podEps| != 0 {
        assert depSet.podEps[0] in depSet.podEps;
        assert IsFirstListing(lists, pod, i);
        return;
      }
    }
  }

  ghost function AllTables(namespaces: map<string, Netns>): set<object> {
    set n, fam: Family | n in namespaces :: namespaces[n].Table(fam)
  }

  /** No two namespaces or families share a table, and every table is consistent. */
  ghost predicate SeparateTables(namespaces: map<string, Netns>)
    reads AllTables(namespaces)
  {
    && (forall n, m, fam, fam' :: n in namespaces && m in namespaces && (n != m || fam != fam')
                                  ==> namespaces[n].Table(fam) != namespaces[m].Table(fam'))
    && (forall n, fam :: n in namespaces ==> namespaces[n].Table(fam).Valid())
  }

  /** The network namespace recorded for the first endpoint of the Pod. */
  function OwnNetns(eps: seq<DanmEp>, pod: Pod): (netns: string)
    requires exists d :: d in eps && d.podUid == pod.uid
    ensures exists j :: 0 <= j < |eps| && eps[j].podUid == pod.uid && netns == eps[j].netns
                        && forall k :: 0 <= k < j ==> eps[k].podUid != pod.uid
  {
    OwnEndpointsMembers(eps, pod.uid);
    OwnEndpointsFirst(eps, pod.uid);
    OwnEndpoints(eps, pod.uid)[0].netns
  }

  /** A table nobody has called before. */
  ghost predicate Untouched(table: FilterTable)
    reads table
  {
    table.start == FRESH && table.log == []
  }

  lemma AppendToNothing(ops: seq<Op>)
    ensures [] + ops == ops && ops[..|ops|] == ops
  {
  }

  /** What a finished run did to a table nobody had called before. */
  lemma FinishedRun(
    rs: NetRuleSet, pols: seq<Policy>, eps: seq<DanmEp>, pod: Pod, fam: Family, trace: seq<Chains>, faults: set<nat>)
    requires Compiled(rs, pols, eps, pod) && Identified(pols, eps)
    requires IsTrace(trace, FRESH, FamilyPlan(rs, fam), faults)
    ensures RestrictsOnceClosed(trace[|trace| - 1], pols, eps, pod, fam)
    ensures faults == {} ==> Enforces(trace[|trace| - 1], pols, eps, pod, fam) && NeverHinders(trace, pols, eps, pod, fam)
  {
    var ops := FamilyPlan(rs, fam);
    TraceIsExec(trace, FRESH, ops, faults, |ops|);
    AppendToNothing(ops);
    FaultyRunRestricts(rs, pols, eps, pod, fam, ops, faults);
    if faults == {} {
      RunEnforces(rs, pols, eps, pod, fam);
      RunNeverHinders(rs, pols, eps, pod, fam, trace);
    }
  }

  /** A run that stopped while creating its chains leaves such a table accepting everything. */
  lemma AbortedRun(
    rs: NetRuleSet, pols: seq<Policy>, eps: seq<DanmEp>, pod: Pod, fam: Family, ops: seq<Op>,
    trace: seq<Chains>, faults: set<nat>)
    requires Compiled(rs, pols, eps, pod) && Identified(pols, eps)
    requires ops <= ChainsPlan(fam, rs.Chain(Ingress, fam), rs.Chain(Egress, fam))
    requires IsTrace(trace, FRESH, ops, faults)
    ensures AcceptsAll(trace[|trace| - 1])
  {
    var ingress, egress := rs.Chain(Ingress, fam).rules, rs.Chain(Egress, fam).rules;
    PlanOfCompiled(rs, pols, eps, pod, fam);
    TraceIsExec(trace, FRESH, ops, faults, |ops|);
    AppendToNothing(ops);
    var t := trace[|trace| - 1];
    forall dir, p ensures Accepted(t, HookName(dir), p) {
      CompiledMeaning(rs, pols, eps, pod, dir, fam, p);
      AbortedRunAcceptsAll(fam, ingress, egress, ops, faults, dir, p);
    }
  }

  /** Compile the rules of an isolated Pod. */
  method CompileRules(pols: seq<Policy>, applicable: seq<Policy>, ghost eps: seq<DanmEp>, depSet: DanmEpSet, pod: Pod)
    returns (rs: Option<NetRuleSet>)
    requires IsApplicable(applicable, pols, pod)
    requires IsEndpointIndex(depSet, eps, pod) && depSet.podEps != [] && exists d :: d in eps && d.podUid == pod.uid
    ensures Identified(pols, eps) ==> (rs.None? <==> Fails(pols, eps, pod))
    ensures Identified(pols, eps) && rs.Some? ==> Compiled(rs.value, pols, eps, pod)
    ensures rs.Some? ==> rs.value.netns == OwnNetns(eps, pod)
  {
    rs := NewNetRuleSet(applicable, depSet);
    if Identified(pols, eps) {
      IndexOfIdentifiedList(depSet, eps, pod);
      CompilationFailure(pols, applicable, depSet, eps, pod);
    }
  }

  /** What a run leaves of a table nobody had called before. */
  ghost predicate Settled(
    table: FilterTable, outcome: Outcome, pols: seq<Policy>, eps: seq<DanmEp>, pod: Pod, fam: Family)
    reads table
  {
    && (outcome == ChainsFailed ==> AcceptsAll(table.chains))
    && (outcome == Provisioned ==> RestrictsOnceClosed(table.chains, pols, eps, pod, fam))
    && (outcome == Provisioned && table.faults == {} ==>
          && Enforces(table.chains, pols, eps, pod, fam)
          && NeverHinders(table.trace, pols, eps, pod, fam))
  }

  /** A table before a run: its chains, the number of calls made on it, and whether anybody had called it at all. */
  datatype Snapshot = Snapshot(chains: Chains, calls: nat, untouched: bool)

  ghost function SnapshotOf(table: FilterTable): Snapshot
    reads table
  {
    Snapshot(table.chains, table.calls, Untouched(table))
  }

  /** What a run makes of a table: it settles one nobody had called before, it keeps any table orderly, and, without
      any more failures, it enforces the policies in one that is ready for it, whatever its history. */
  ghost predicate TableResult(
    table: FilterTable, before: Snapshot, outcome: Outcome,
    pols: seq<Policy>, eps: seq<DanmEp>, pod: Pod, fam: Family)
    reads table
  {
    && (before.untouched ==> Settled(table, outcome, pols, eps, pod, fam))
    && (Orderly(before.chains, fam) ==> Orderly(table.chains, fam))
    && (outcome == Provisioned && (forall n :: n in table.faults ==> n < before.calls)
        && Orderly(before.chains, fam) && Ready(before.chains, pols, eps, pod, fam)
        ==> Enforces(table.chains, pols, eps, pod, fam))
  }

  /** The run stops exactly when the creation of a chain fails, and each table becomes what it should. */
  ghost predicate RunResult(
    netns: Netns, before4: Snapshot, before6: Snapshot, outcome: Outcome, pols: seq<Policy>, eps: seq<DanmEp>, pod: Pod)
    reads netns.v4, netns.v6
  {
    && (outcome == ChainsFailed
        <==> CreationFails(pols, eps, pod, before4.calls, netns.v4.faults, before6.calls, netns.v6.faults))
    && TableResult(netns.v4, before4, outcome, pols, eps, pod, V4)
    && TableResult(netns.v6, before6, outcome, pols, eps, pod, V6)
  }

  lemma SettledByRun(
    table: FilterTable, rs: NetRuleSet, pols: seq<Policy>, eps: seq<DanmEp>, pod: Pod, fam: Family)
    requires Compiled(rs, pols, eps, pod) && Identified(pols, eps)
    requires table.Valid() && table.start == FRESH && table.log == FamilyPlan(rs, fam)
    ensures Settled(table, Provisioned, pols, eps, pod, fam)
  {
    FinishedRun(rs, pols, eps, pod, fam, table.trace, table.faults);
  }

  lemma SettledByAbortedRun(
    table: FilterTable, rs: NetRuleSet, pols: seq<Policy>, eps: seq<DanmEp>, pod: Pod, fam: Family)
    requires Compiled(rs, pols, eps, pod) && Identified(pols, eps)
    requires table.Valid() && table.start == FRESH
    requires table.log <= ChainsPlan(fam, rs.Chain(Ingress, fam), rs.Chain(Egress, fam))
    ensures Settled(table, ChainsFailed, pols, eps, pod, fam)
  {
    AbortedRun(rs, pols, eps, pod, fam, table.log, table.trace, table.faults);
  }

  lemma TableIsExec(table: FilterTable)
    requires table.Valid()
    ensures table.chains == Exec(table.start, table.log, table.faults)
  {
    TraceIsExec(table.trace, table.start, table.log, table.faults, table.calls);
    AppendToNothing(table.log);
  }

  lemma OrderStays(
    t: Chains, rs: NetRuleSet, pols: seq<Policy>, eps: seq<DanmEp>, pod: Pod, fam: Family, ops: seq<Op>, faults: set<nat>)
    requires Compiled(rs, pols, eps, pod) && Identified(pols, eps) && Orderly(t, fam)
    requires ops <= FamilyPlan(rs, fam)
    ensures Orderly(Exec(t, ops, faults), fam)
  {
    PlanOfCompiled(rs, pols, eps, pod, fam);
    CompiledWhitelists(rs, pols, eps, pod, fam);
    RunKeepsOrder(t, fam, rs.Chain(Ingress, fam).rules, rs.Chain(Egress, fam).rules, ops, faults);
  }

  lemma NoneLeft(faults: set<nat>, k: nat)
    requires forall n :: n in faults ==> n < k
    ensures Later(faults, k) == {}
  {
  }

  /** The calls `ops` of a run have been made on a table that had been called `log` times before. */
  lemma RunContinues(
    table: FilterTable, log: seq<Op>, ops: seq<Op>, before: Snapshot, outcome: Outcome,
    rs: NetRuleSet, pols: seq<Policy>, eps: seq<DanmEp>, pod: Pod, fam: Family)
    requires Compiled(rs, pols, eps, pod) && Identified(pols, eps)
    requires table.Valid() && table.log == log + ops && ops <= FamilyPlan(rs, fam)
    requires outcome == Provisioned ==> ops == FamilyPlan(rs, fam)
    requires before.calls == |log| && before.chains == Exec(table.start, log, table.faults)
    requires before.untouched ==> Settled(table, outcome, pols, eps, pod, fam)
    ensures TableResult(table, before, outcome, pols, eps, pod, fam)
  {
    TableIsExec(table);
    ExecSplit(table.start, log, ops, table.faults);
    if Orderly(before.chains, fam) {
      OrderStays(before.chains, rs, pols, eps, pod, fam, ops, Later(table.faults, |log|));
      if outcome == Provisioned && (forall n :: n in table.faults ==> n < before.calls)
         && Ready(before.chains, pols, eps, pod, fam) {
        NoneLeft(table.faults, |log|);
        RerunEnforces(before.chains, rs, pols, eps, pod, fam);
      }
    }
  }

  lemma FinishedRunSettles(
    table: FilterTable, log: seq<Op>, before: Snapshot,
    rs: NetRuleSet, pols: seq<Policy>, eps: seq<DanmEp>, pod: Pod, fam: Family)
    requires Compiled(rs, pols, eps, pod) && Identified(pols, eps)
    requires table.Valid() && table.log == log + FamilyPlan(rs, fam)
    requires before.calls == |log| && before.chains == Exec(table.start, log, table.faults)
    requires before.untouched ==> table.start == FRESH && log == []
    ensures TableResult(table, before, Provisioned, pols, eps, pod, fam)
  {
    AppendToNothing(FamilyPlan(rs, fam));
    if before.untouched {
      SettledByRun(table, rs, pols, eps, pod, fam);
    }
    RunContinues(table, log, FamilyPlan(rs, fam), before, Provisioned, rs, pols, eps, pod, fam);
  }

  lemma AbortedRunSettles(
    table: FilterTable, log: seq<Op>, ops: seq<Op>, before: Snapshot,
    rs: NetRuleSet, pols: seq<Policy>, eps: seq<DanmEp>, pod: Pod, fam: Family)
    requires Compiled(rs, pols, eps, pod) && Identified(pols, eps)
    requires ops <= ChainsPlan(fam, rs.Chain(Ingress, fam), rs.Chain(Egress, fam))
    requires table.Valid() && table.log == log + ops
    requires before.calls == |log| && before.chains == Exec(table.start, log, table.faults)
    requires before.untouched ==> table.start == FRESH && log == []
    ensures TableResult(table, before, ChainsFailed, pols, eps, pod, fam)
  {
    AppendToNothing(ops);
    if before.untouched {
      SettledByAbortedRun(table, rs, pols, eps, pod, fam);
    }
    RunContinues(table, log, ops, before, ChainsFailed, rs, pols, eps, pod, fam);
  }

  /** Run on the two tables of a namespace. */
  method ProvisionTables(netns: Netns, rs: NetRuleSet, ghost pols: seq<Policy>, ghost eps: seq<DanmEp>, ghost pod: Pod)
    returns (outcome: Outcome)
    requires netns.v4 != netns.v6 && netns.v4.Valid() && netns.v6.Valid()
    requires Identified(pols, eps) ==> Compiled(rs, pols, eps, pod)
    modifies netns.v4, netns.v6
    ensures netns.v4.Valid() && netns.v6.Valid()
    ensures outcome in {ChainsFailed, Provisioned}
    ensures outcome == ChainsFailed
            <==> ChainsFail(rs, old(netns.v4.calls), netns.v4.faults, old(netns.v6.calls), netns.v6.faults)
    ensures Identified(pols, eps) ==>
              RunResult(netns, old(SnapshotOf(netns.v4)), old(SnapshotOf(netns.v6)), outcome, pols, eps, pod)
  {
    ghost var v4, v6 := netns.v4, netns.v6;
    ghost var before4, before6, log4, log6 := SnapshotOf(v4), SnapshotOf(v6), v4.log, v6.log;
    TableIsExec(v4);
    TableIsExec(v6);
    var ok := AddRulesToNewPod(netns.v4, netns.v6, rs);
    outcome := if ok then Provisioned else ChainsFailed;
    if Identified(pols, eps) {
      if ok {
        FinishedRunSettles(v4, log4, before4, rs, pols, eps, pod, V4);
        FinishedRunSettles(v6, log6, before6, rs, pols, eps, pod, V6);
      } else {
        ghost var n := ChainsGoneThrough(rs, before4.calls, v4.faults, before6.calls, v6.faults);
        AbortedRunSettles(v4, log4, CallsForChains(rs, V4, n), before4, rs, pols, eps, pod, V4);
        AbortedRunSettles(v6, log6, CallsForChains(rs, V6, n), before6, rs, pols, eps, pod, V6);
      }
      CreationFailsExactly(rs, pols, eps, pod, before4.calls, v4.faults, before6.calls, v6.faults);
    }
  }

  /** Enter the Pod's namespace, if it can be found, and run there. */
  method ProvisionNamespace(
    namespaces: map<string, Netns>, rs: NetRuleSet, ghost pols: seq<Policy>, ghost eps: seq<DanmEp>, ghost pod: Pod)
    returns (outcome: Outcome)
    requires SeparateTables(namespaces)
    requires Identified(pols, eps) ==> Compiled(rs, pols, eps, pod)
    modifies AllTables(namespaces)
    ensures SeparateTables(namespaces)
    ensures outcome == NoNamespace <==> rs.netns !in namespaces
    ensures outcome in {NoNamespace, ChainsFailed, Provisioned}
    ensures forall n, fam :: n in namespaces && n != rs.netns ==> unchanged(namespaces[n].Table(fam))
    ensures rs.netns in namespaces ==>
              var own := namespaces[rs.netns];
              && (outcome == ChainsFailed
                  <==> ChainsFail(rs, old(own.v4.calls), own.v4.faults, old(own.v6.calls), own.v6.faults))
              && (Identified(pols, eps) ==>
                    RunResult(own, old(SnapshotOf(own.v4)), old(SnapshotOf(own.v6)), outcome, pols, eps, pod))
  {
    if rs.netns !in namespaces {
      return NoNamespace;
    }
    var own := namespaces[rs.netns];
    assert own.v4 == own.Table(V4) && own.v6 == own.Table(V6);
    outcome := ProvisionTables(own, rs, pols, eps, pod);
  }

  /** Compile the rules of an isolated Pod and install them in its namespace. */
  method IsolatePod(
    pols: seq<Policy>, applicable: seq<Policy>, ghost eps: seq<DanmEp>, depSet: DanmEpSet, pod: Pod,
    namespaces: map<string, Netns>)
    returns (outcome: Outcome)
    requires IsApplicable(applicable, pols, pod)
    requires IsEndpointIndex(depSet, eps, pod) && depSet.podEps != [] && exists d :: d in eps && d.podUid == pod.uid
    requires SeparateTables(namespaces)
    modifies AllTables(namespaces)
    ensures SeparateTables(namespaces)
    ensures outcome in {Stopped, NoNamespace, ChainsFailed, Provisioned}
    ensures Identified(pols, eps) ==> (outcome == Stopped <==> Fails(pols, eps, pod))
    ensures outcome != Stopped ==> (outcome == NoNamespace <==> OwnNetns(eps, pod) !in namespaces)
    ensures outcome in {Stopped, NoNamespace} ==> forall n, fam :: n in namespaces ==> unchanged(namespaces[n].Table(fam))
    ensures outcome in {ChainsFailed, Provisioned} ==>
              && OwnNetns(eps, pod) in namespaces
              && (forall n, fam :: n in namespaces && n != OwnNetns(eps, pod) ==> unchanged(namespaces[n].Table(fam)))
              && var own := namespaces[OwnNetns(eps, pod)];
              && (own.v4.faults == {} && own.v6.faults == {} ==> outcome == Provisioned)
              && (Identified(pols, eps) ==>
                    RunResult(own, old(SnapshotOf(own.v4)), old(SnapshotOf(own.v6)), outcome, pols, eps, pod))
  {
    var ruleSet := CompileRules(pols, applicable, eps, depSet, pod);
    if ruleSet.None? {
      return Stopped;
    }
    outcome := ProvisionNamespace(namespaces, ruleSet.value, pols, eps, pod);
  }

  /** Policies were selected exactly when one of the list is for the Pod. */
  lemma ApplicableOnFields(applicable: seq<Policy>, pols: seq<Policy>, pod: Pod)
    requires IsApplicable(applicable, pols, pod)
    ensures |applicable| == 0 <==> forall pol :: pol in pols ==> !IsFor(pol, pod)
  {
    forall pol ensures Applies(ByKey, pol, pod) <==> IsFor(pol, pod) {
      ApplyingIsFor(pol, pod);
    }
    if |applicable| > 0 {
      assert applicable[0] in applicable;
    }
  }

  /** A new Pod: is it ours, is it isolated, does it have endpoints, and then compile and provision. `first` is the
      number of the listing that showed its endpoints. */
  method AddPod(
    controllerNode: string, pod: Pod, policyList: Option<seq<Policy>>, endpointLists: seq<Option<seq<DanmEp>>>,
    namespaces: map<string, Netns>)
    returns (outcome: Outcome, ghost first: int)
    requires |endpointLists| == MAX_RETRY_COUNT
    requires SeparateTables(namespaces)
    modifies AllTables(namespaces)
    ensures SeparateTables(namespaces)
    // Which way the Pod goes.
    ensures outcome == OtherNode <==> pod.nodeName != controllerNode
    ensures outcome == NotIsolated
            <==> && pod.nodeName == controllerNode
                 && (policyList.None? || forall pol :: pol in policyList.value ==> !IsFor(pol, pod))
    ensures outcome == NoEndpoints
            <==> && pod.nodeName == controllerNode
                 && policyList.Some? && (exists pol :: pol in policyList.value && IsFor(pol, pod))
                 && forall i :: 0 <= i < 5 ==>
                      endpointLists[i].None? || forall d :: d in endpointLists[i].value ==> d.podUid != pod.uid
    ensures outcome !in {OtherNode, NotIsolated, NoEndpoints}
            ==> policyList.Some? && IsFirstListing(endpointLists, pod, first)
    ensures outcome !in {OtherNode, NotIsolated, NoEndpoints} ==>
              var pols, eps := policyList.value, endpointLists[first].value;
              && (Identified(pols, eps) ==> (outcome == Stopped <==> Fails(pols, eps, pod)))
              && (outcome != Stopped ==> (outcome == NoNamespace <==> OwnNetns(eps, pod) !in namespaces))
    // What becomes of the tables: those of other namespaces never change, the Pod's own settle.
    ensures outcome !in {ChainsFailed, Provisioned} ==>
              forall n, fam :: n in namespaces ==> unchanged(namespaces[n].Table(fam))
    ensures outcome in {ChainsFailed, Provisioned} ==>
              var pols, eps := policyList.value, endpointLists[first].value;
              && OwnNetns(eps, pod) in namespaces
              && (forall n, fam :: n in namespaces && n != OwnNetns(eps, pod) ==> unchanged(namespaces[n].Table(fam)))
              && var own := namespaces[OwnNetns(eps, pod)];
              && (own.v4.faults == {} && own.v6.faults == {} ==> outcome == Provisioned)
              && (Identified(pols, eps) ==>
                    RunResult(own, old(SnapshotOf(own.v4)), old(SnapshotOf(own.v6)), outcome, pols, eps, pod))
  {
    first := 0;
    if pod.nodeName != controllerNode {
      return OtherNode, first;
    }
    // The policy index of an unreadable list is empty.
    var pols := if policyList.None? then [] else policyList.value;
    var applicable := ApplicablePolicies(pols, pod);
    ApplicableOnFields(applicable, pols, pod);
    if |applicable| == 0 {
      return NotIsolated, first;
    }
    var depSet := FindEndpoints(endpointLists, pod);
    if |depSet.podEps| == 0 {
      return NoEndpoints, first;
    }
    first :| IsFirstListing(endpointLists, pod, first) && IsEndpointIndex(depSet, endpointLists[first].value, pod);
    outcome := IsolatePod(pols, applicable, endpointLists[first].value, depSet, pod, namespaces);
  }
}
