/** What isolating a Pod comes to: the end-to-end meaning in terms of labels and networks, independent of order,
    growing with the policies, and settled by the last of several runs. */
module Isolation {
  import opened PolTypes
  import opened PolicyMeaning
  import opened PolicyLaws
  import opened PacketFilter
  import opened Provisioner
  import opened RepeatedRuns
  import opened PolicyControl
  import opened Verdicts

  /** The table of a freshly provisioned namespace. */
  function FreshTable(rs: NetRuleSet, fam: Family): Chains {
    Exec(FRESH, FamilyPlan(rs, fam), {})
  }

  /** With unambiguous keys, the tables accept exactly what is always allowed or whitelisted by a policy that
      shares a label with the Pod, read by the labels and networks its peers name. */
  lemma IsolationByLabels(
    rs: NetRuleSet, pols: seq<Policy>, eps: seq<DanmEp>, pod: Pod, dir: Direction, fam: Family, p: Packet)
    requires Compiled(rs, pols, eps, pod) && Identified(pols, eps) && KeysUnambiguous(pols, eps, pod)
    ensures Accepted(FreshTable(rs, fam), HookName(dir), p)
            <==> AlwaysAllowed(dir, p) || Allows(ByLabel, pols, eps, pod, dir, fam, p)
  {
    RunEnforces(rs, pols, eps, pod, fam);
    ReadingsAgree(pols, eps, pod, dir, fam, p);
    assert Accepted(FreshTable(rs, fam), HookName(dir), p) <==> Permitted(pols, eps, pod, dir, fam, p);
  }

  /** Policies that are plainly written, with unambiguous keys, are enforced as they are documented: all labels of a
      selector must match, the selectors of a peer restrict each other, and ports are the ones declared. */
  lemma IsolationAsDocumented(
    rs: NetRuleSet, pols: seq<Policy>, eps: seq<DanmEp>, pod: Pod, dir: Direction, fam: Family, p: Packet)
    requires Compiled(rs, pols, eps, pod) && Identified(pols, eps)
    requires KeysUnambiguous(pols, eps, pod) && PlainlyWritten(pols, eps)
    ensures Accepted(FreshTable(rs, fam), HookName(dir), p)
            <==> AlwaysAllowed(dir, p) || DocumentedAllows(pols, eps, pod, dir, fam, p)
  {
    RunEnforces(rs, pols, eps, pod, fam);
    PlainlyWrittenMeaning(pols, eps, pod, dir, fam, p);
    assert Accepted(FreshTable(rs, fam), HookName(dir), p) <==> Permitted(pols, eps, pod, dir, fam, p);
  }

  /** However the maps were iterated, any two rule sets compiled from the same records give the same verdicts. */
  lemma CompilationsAgree(
    rs: NetRuleSet, rs': NetRuleSet, pols: seq<Policy>, eps: seq<DanmEp>, pod: Pod,
    dir: Direction, fam: Family, p: Packet)
    requires Compiled(rs, pols, eps, pod) && Compiled(rs', pols, eps, pod) && Identified(pols, eps)
    ensures Accepted(FreshTable(rs, fam), HookName(dir), p) <==> Accepted(FreshTable(rs', fam), HookName(dir), p)
  {
    RunEnforces(rs, pols, eps, pod, fam);
    RunEnforces(rs', pols, eps, pod, fam);
    assert Accepted(FreshTable(rs, fam), HookName(dir), p) <==> Permitted(pols, eps, pod, dir, fam, p);
  }

  /** For a Pod that is isolated already, more policies never turn an accepted packet into a rejected one. */
  lemma MorePoliciesAcceptMore(
    rs: NetRuleSet, rs': NetRuleSet, pols: seq<Policy>, more: seq<Policy>, eps: seq<DanmEp>, pod: Pod,
    dir: Direction, fam: Family, p: Packet)
    requires Compiled(rs, pols, eps, pod) && Identified(pols, eps)
    requires Compiled(rs', more, eps, pod) && Identified(more, eps)
    requires ToSet(pols) <= ToSet(more)
    ensures Accepted(FreshTable(rs, fam), HookName(dir), p) ==> Accepted(FreshTable(rs', fam), HookName(dir), p)
  {
    RunEnforces(rs, pols, eps, pod, fam);
    RunEnforces(rs', more, eps, pod, fam);
    if Permitted(pols, eps, pod, dir, fam, p) && !AlwaysAllowed(dir, p) {
      PoliciesAreAdditive(ByKey, pols, more, eps, pod, dir, fam, p);
    }
    assert Permitted(pols, eps, pod, dir, fam, p) ==> Permitted(more, eps, pod, dir, fam, p);
  }

  /** Nor do more peers in the first section of one of its policies. */
  lemma MorePeersAcceptMore(
    rs: NetRuleSet, rs': NetRuleSet, pols: seq<Policy>, i: nat, wider: Policy, eps: seq<DanmEp>, pod: Pod,
    dir: Direction, fam: Family, p: Packet)
    requires i < |pols| && AddsPeers(wider, pols[i])
    requires Compiled(rs, pols, eps, pod) && Identified(pols, eps)
    requires Compiled(rs', pols[i := wider], eps, pod) && Identified(pols[i := wider], eps)
    ensures Accepted(FreshTable(rs, fam), HookName(dir), p) ==> Accepted(FreshTable(rs', fam), HookName(dir), p)
  {
    RunEnforces(rs, pols, eps, pod, fam);
    RunEnforces(rs', pols[i := wider], eps, pod, fam);
    if Permitted(pols, eps, pod, dir, fam, p) && !AlwaysAllowed(dir, p) {
      PeersAreAdditive(ByKey, pols, i, wider, eps, pod, dir, fam, p);
    }
    assert Permitted(pols, eps, pod, dir, fam, p) ==> Permitted(pols[i := wider], eps, pod, dir, fam, p);
  }

  /** The rules of one family. */
  function RunRulesOf(rs: NetRuleSet, fam: Family): RunRules {
    (rs.Chain(Ingress, fam).rules, rs.Chain(Egress, fam).rules)
  }

  /** After any runs of which, in each direction, none had rules or the first and the last had, the table enforces the
      policies of the last. */
  lemma {:induction false} LastRunDecides(
    runs: seq<RunRules>, rs: NetRuleSet, pols: seq<Policy>, eps: seq<DanmEp>, pod: Pod, fam: Family)
    requires runs != [] && runs[|runs| - 1] == RunRulesOf(rs, fam)
    requires Settles(runs, Ingress) && Settles(runs, Egress)
    requires Compiled(rs, pols, eps, pod) && Identified(pols, eps)
    ensures Enforces(TableAfter(fam, runs), pols, eps, pod, fam)
  {
    RunsConvergeExactly(fam, runs);
    PlanOfCompiled(rs, pols, eps, pod, fam);
    RunEnforces(rs, pols, eps, pod, fam);
  }
}
