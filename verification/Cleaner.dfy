/** The Cleaner's code on a cluster that changes between any two of its calls. */
module Cleaner {
  import opened PolTypes
  import opened ReleaseHandlers
  import opened CleanerProtocol

  datatype PodLookup = Found(uid: string) | NotFound | LookupError

  /** A look-up of a Pod: the name asked for, after how many steps of the run, the number of the request, the answer. */
  datatype Asked = Asked(id: PodId, at: nat, request: nat, answer: PodLookup)

  datatype DeleteResult = DeleteOk | NoService4 | ReleaseFailed4 | NoService6 | ReleaseFailed6 | RecordNotDeleted

  predicate IsBy(step: Step, me: nat) {
    step.ByWorker? && step.worker == me
  }

  /** The calls one worker made, in order. */
  function Mine(steps: seq<Step>, me: nat): seq<Call> {
    if steps == [] then []
    else
      var n := |steps| - 1;
      if IsBy(steps[n], me) then Mine(steps[..n], me) + [steps[n].call] else Mine(steps[..n], me)
  }

  lemma {:induction false} MineConcat(a: seq<Step>, b: seq<Step>, me: nat)
    ensures Mine(a + b, me) == Mine(a, me) + Mine(b, me)
    decreases |b|
  {
    if b == [] {
      assert a + b == a;
    } else {
      var n := |b| - 1;
      assert (a + b)[..|a| + n] == a + b[..n];
      MineConcat(a, b[..n], me);
    }
  }

  lemma {:induction false} NotMine(steps: seq<Step>, me: nat)
    requires forall step :: step in steps ==> !IsBy(step, me)
    ensures Mine(steps, me) == []
  {
    if steps != [] {
      NotMine(steps[..|steps| - 1], me);
    }
  }

  /** Every endpoint that worker `me` was ever handed belonged to a dead Pod at that moment. */
  ghost predicate HandedDead(c: Config, steps: seq<Step>, me: nat) {
    forall i :: 0 <= i < |steps| && IsBy(steps[i], me) && steps[i].call.Begin?
                ==> Dead(After(c, steps[..i]), steps[i].call.ep.podUid)
  }

  lemma HandedDeadExtends(c: Config, steps: seq<Step>, more: seq<Step>, me: nat)
    requires HandedDead(c, steps, me)
    requires forall step :: step in more && IsBy(step, me) && step.call.Begin?
                            ==> more == [step] && Dead(After(c, steps), step.call.ep.podUid)
    ensures HandedDead(c, steps + more, me)
  {
    var all := steps + more;
    forall i | 0 <= i < |all| && IsBy(all[i], me) && all[i].call.Begin?
      ensures Dead(After(c, all[..i]), all[i].call.ep.podUid)
    {
      if i < |steps| {
        assert all[..i] == steps[..i];
      } else {
        assert all[i] in more;
        assert all[..i] == steps;
      }
    }
  }

  lemma OtherStep(c: Config, s: State, step: Step, me: nat)
    requires !IsBy(step, me)
    ensures me in s.workers <==> me in Next(c, s, step).workers
    ensures me in s.workers ==> Next(c, s, step).workers[me] == s.workers[me]
  {
    if Enabled(c, s, step) {
      match step
      case Outside(event) => assert ApplyEvent(s, event).workers == s.workers;
      case ByWorker(w, call) => assert w != me;
    }
  }

  lemma {:induction false} OthersLeaveWorker(c: Config, steps: seq<Step>, more: seq<Step>, me: nat)
    requires forall step :: step in more ==> !IsBy(step, me)
    ensures me in After(c, steps).workers <==> me in After(c, steps + more).workers
    ensures me in After(c, steps).workers ==> After(c, steps + more).workers[me] == After(c, steps).workers[me]
    decreases |more|
  {
    if more == [] {
      assert steps + more == steps;
    } else {
      var n := |more| - 1;
      assert (steps + more)[..|steps| + n] == steps + more[..n];
      assert (steps + more)[|steps| + n] == more[n];
      OthersLeaveWorker(c, steps, more[..n], me);
      OtherStep(c, After(c, steps + more[..n]), more[n], me);
    }
  }

  /** The calls a deletion makes, by its result: the record goes last, and only after both addresses. */
  function DeletionCalls(r: DeleteResult, took: bool): seq<Call> {
    match r
    case NoService4 => [Quit]
    case ReleaseFailed4 => [ReleaseFails(took)]
    case NoService6 => [Release, Quit]
    case ReleaseFailed6 => [Release, ReleaseFails(took)]
    case RecordNotDeleted => [Release, Release, DeleteFails(took)]
    case DeleteOk => [Release, Release, Delete]
  }

  /** The result tells which address has no owner or which of the requests from number `n` on failed; deleting the
      record also fails when it is `gone`. */
  predicate ResultFits(c: Config, faults: set<nat>, n: nat, ep: DanmEp, r: DeleteResult, gone: bool) {
    var owner4 := Owner(c.was, c.networkOf(ep), ep, ep.address);
    var owner6 := Owner(c.was, c.networkOf(ep), ep, ep.addressIPv6);
    && (r.NoService4? <==> owner4.None?)
    && (r.ReleaseFailed4? <==> owner4.Some? && n in faults)
    && (r.NoService6? <==> owner4.Some? && n !in faults && owner6.None?)
    && (r.ReleaseFailed6? <==> owner4.Some? && n !in faults && owner6.Some? && n + 1 in faults)
    && (r.RecordNotDeleted? ==> n + 2 in faults || gone)
    && (r.DeleteOk? ==> n + 2 !in faults && gone)
  }

  /** How many requests a deletion sends. */
  function Requests(r: DeleteResult): nat {
    match r
    case NoService4 => 0
    case ReleaseFailed4 => 1
    case NoService6 => 1
    case ReleaseFailed6 => 2
    case RecordNotDeleted => 3
    case DeleteOk => 3
  }

  /** When no request fails, an endpoint with two owners is gone after its deletion. */
  lemma FaultlessDeletion(c: Config, faults: set<nat>, n: nat, ep: DanmEp, r: DeleteResult, gone: bool)
    requires ResultFits(c, faults, n, ep, r, gone) && Deletable(c, ep) && NoFaults(faults, n, n + Requests(r))
    ensures gone
  {
  }

  /** None of these requests fails. */
  ghost predicate NoFaults(faults: set<nat>, from: nat, to: nat) {
    forall k :: from <= k < to ==> k !in faults
  }

  /** What becomes of an endpoint handed to deletion. */
  datatype Visit = RecordMissing | NetworkMissing | Deletion(r: DeleteResult, took: bool)

  /** The calls made for it: without its record or its network, none but to give up. */
  function VisitCalls(visit: Visit): (calls: seq<Call>)
    ensures forall call :: call in calls ==> !call.Begin?
  {
    if visit.Deletion? then DeletionCalls(visit.r, visit.took) else [Quit]
  }

  lemma AppendCalls(before: seq<Call>, a: Call, b: Call, d: Call)
    ensures before + [a] + [b] == before + [a, b]
    ensures before + [a] + [b] + [d] == before + [a, b, d]
  {
  }

  /** The endpoints handed to deletion in a series of calls, in order. */
  function Handed(calls: seq<Call>): seq<DanmEp> {
    if calls == [] then []
    else
      var n := |calls| - 1;
      if calls[n].Begin? then Handed(calls[..n]) + [calls[n].ep] else Handed(calls[..n])
  }

  lemma {:induction false} HandedConcat(a: seq<Call>, b: seq<Call>)
    ensures Handed(a + b) == Handed(a) + Handed(b)
    decreases |b|
  {
    if b == [] {
      assert a + b == a;
    } else {
      var n := |b| - 1;
      assert (a + b)[..|a| + n] == a + b[..n];
      HandedConcat(a, b[..n]);
    }
  }

  lemma {:induction false} NothingHanded(calls: seq<Call>)
    requires forall call :: call in calls ==> !call.Begin?
    ensures Handed(calls) == []
  {
    if calls != [] {
      NothingHanded(calls[..|calls| - 1]);
    }
  }

  /** A Pod's look-up shows that the endpoint dangles: no Pod of that name, or another one. */
  predicate ShowsDangling(lookup: PodLookup, ep: DanmEp) {
    lookup.NotFound? || (lookup.Found? && lookup.uid != ep.podUid)
  }

  /** The endpoints whose Pod, by its one look-up, is gone. */
  function Dangling(eps: seq<DanmEp>, lookups: map<string, PodLookup>): seq<DanmEp> {
    if eps == [] then []
    else
      var before, ep := Dangling(eps[..|eps| - 1], lookups), eps[|eps| - 1];
      if ep.podUid in lookups && ShowsDangling(lookups[ep.podUid], ep) then before + [ep] else before
  }

  /** Looking up another Pod changes nothing for endpoints already decided. */
  lemma {:induction false} DanglingIsStable(eps: seq<DanmEp>, lookups: map<string, PodLookup>, uid: string, lookup: PodLookup)
    requires uid !in lookups && forall ep :: ep in eps ==> ep.podUid in lookups
    ensures Dangling(eps, lookups[uid := lookup]) == Dangling(eps, lookups)
  {
    if eps != [] {
      DanglingIsStable(eps[..|eps| - 1], lookups, uid, lookup);
    }
  }

  lemma DanglingOneMore(eps: seq<DanmEp>, i: nat, lookups: map<string, PodLookup>)
    requires i < |eps| && eps[i].podUid in lookups
    ensures Dangling(eps[..i + 1], lookups)
            == Dangling(eps[..i], lookups) + (if ShowsDangling(lookups[eps[i].podUid], eps[i]) then [eps[i]] else [])
  {
    assert eps[..i + 1][..i] == eps[..i];
  }

  ghost predicate LookedUp(eps: seq<DanmEp>, lookups: map<string, PodLookup>) {
    forall ep :: ep in eps ==> ep.podUid in lookups
  }

  ghost predicate AllRecorded(eps: seq<DanmEp>, s: State) {
    forall ep :: ep in eps ==> KeyOf(ep) in s.recorded && s.recorded[KeyOf(ep)] == ep
  }

  lemma RecordedStays(eps: seq<DanmEp>, s: State, later: State)
    requires AllRecorded(eps, s) && Remembers(s, later)
    ensures AllRecorded(eps, later)
  {
  }

  /** The cache says of each Pod what its look-up showed, and a Pod cached as gone is dead. */
  ghost predicate CacheAgrees(podCache: map<string, bool>, lookups: map<string, PodLookup>, s: State) {
    && podCache.Keys == lookups.Keys
    && (forall uid :: uid in podCache && !podCache[uid] ==> Dead(s, uid))
    && (forall uid :: uid in podCache ==>
          (podCache[uid] <==> !(lookups[uid].NotFound? || (lookups[uid].Found? && lookups[uid].uid != uid))))
  }

  lemma CacheStays(podCache: map<string, bool>, lookups: map<string, PodLookup>, s: State, later: State)
    requires CacheAgrees(podCache, lookups, s) && Remembers(s, later)
    ensures CacheAgrees(podCache, lookups, later)
  {
  }

  /** One more endpoint of the pass, decided from the cache or by a look-up. */
  lemma RoundFromCache(
    eps: seq<DanmEp>, i: nat, podCache: map<string, bool>, lookups: map<string, PodLookup>, s: State)
    requires i < |eps| && eps[i].podUid in podCache
    requires CacheAgrees(podCache, lookups, s) && LookedUp(eps[..i], lookups)
    ensures LookedUp(eps[..i + 1], lookups)
    ensures Dangling(eps[..i + 1], lookups)
            == Dangling(eps[..i], lookups) + (if podCache[eps[i].podUid] then [] else [eps[i]])
  {
    DanglingOneMore(eps, i, lookups);
  }

  lemma RoundByLookUp(
    eps: seq<DanmEp>, i: nat, podCache: map<string, bool>, lookups: map<string, PodLookup>, s: State,
    podExists: bool, pod: PodLookup)
    requires i < |eps| && eps[i].podUid !in podCache
    requires CacheAgrees(podCache, lookups, s) && LookedUp(eps[..i], lookups)
    requires podExists <==> !ShowsDangling(pod, eps[i])
    requires !podExists ==> Dead(s, eps[i].podUid)
    ensures var uid := eps[i].podUid;
            && CacheAgrees(podCache[uid := podExists], lookups[uid := pod], s)
            && LookedUp(eps[..i + 1], lookups[uid := pod])
            && Dangling(eps[..i + 1], lookups[uid := pod])
               == Dangling(eps[..i], lookups) + (if podExists then [] else [eps[i]])
  {
    DanglingIsStable(eps[..i], lookups, eps[i].podUid, pod);
    DanglingOneMore(eps, i, lookups[eps[i].podUid := pod]);
  }

  /** A round of the pass, either way, extends the cache, the look-ups and the dangling endpoints by one endpoint. */
  lemma RoundDone(
    eps: seq<DanmEp>, i: nat, podCache: map<string, bool>, lookups: map<string, PodLookup>, before: State, s: State,
    podExists: bool, pod: PodLookup)
    requires i < |eps| && Remembers(before, s)
    requires CacheAgrees(podCache, lookups, before) && LookedUp(eps[..i], lookups)
    requires var uid := eps[i].podUid;
             if uid in podCache then podExists == podCache[uid]
             else (podExists <==> !ShowsDangling(pod, eps[i])) && (!podExists ==> Dead(s, uid))
    ensures var uid := eps[i].podUid;
            var cache' := if uid in podCache then podCache else podCache[uid := podExists];
            var lookups' := if uid in podCache then lookups else lookups[uid := pod];
            && CacheAgrees(cache', lookups', s)
            && LookedUp(eps[..i + 1], lookups')
            && Dangling(eps[..i + 1], lookups') == Dangling(eps[..i], lookups) + (if podExists then [] else [eps[i]])
  {
    CacheStays(podCache, lookups, before, s);
    if eps[i].podUid in podCache {
      RoundFromCache(eps, i, podCache, lookups, s);
    } else {
      RoundByLookUp(eps, i, podCache, lookups, s, podExists, pod);
    }
  }

  lemma AppendMore<T>(first: seq<T>, before: seq<T>, more: seq<T>)
    ensures first + before + more == first + (before + more)
  {
  }

  lemma {:induction false} NoBeginAmongMine(steps: seq<Step>, me: nat)
    requires forall call :: call in Mine(steps, me) ==> !call.Begin?
    ensures forall step :: step in steps && IsBy(step, me) ==> !step.call.Begin?
  {
    if steps != [] {
      var n := |steps| - 1;
      assert steps == steps[..n] + [steps[n]];
      assert forall call :: call in Mine(steps[..n], me) ==> call in Mine(steps, me);
      assert IsBy(steps[n], me) ==> steps[n].call in Mine(steps, me);
      NoBeginAmongMine(steps[..n], me);
    }
  }

  lemma RemembersBetween(c: Config, before: seq<Step>, steps: seq<Step>)
    requires before <= steps
    ensures Remembers(After(c, before), After(c, steps))
  {
    assert steps[..|before|] == before;
    RunRemembers(c, steps, |before|);
  }

  lemma NothingHandedInCalls(before: seq<Call>, calls: seq<Call>)
    requires forall call :: call in calls ==> !call.Begin?
    ensures Handed(before + calls) == Handed(before)
  {
    HandedConcat(before, calls);
    NothingHanded(calls);
  }

  lemma CancelPrefix(prefix: seq<Call>, a: seq<Call>, b: seq<Call>)
    requires prefix + a == prefix + b
    ensures a == b
  {
    assert a == (prefix + a)[|prefix|..];
    assert b == (prefix + b)[|prefix|..];
  }

  /** Between two moments our worker was handed nothing. */
  lemma NothingHandedBetween(c: Config, before: seq<Step>, steps: seq<Step>, me: nat, calls: seq<Call>)
    requires before <= steps && Mine(steps, me) == Mine(before, me) + calls
    requires forall call :: call in calls ==> !call.Begin?
    requires HandedDead(c, before, me)
    ensures HandedDead(c, steps, me)
  {
    var more := steps[|before|..];
    assert steps == before + more;
    MineConcat(before, more, me);
    CancelPrefix(Mine(before, me), Mine(more, me), calls);
    NoBeginAmongMine(more, me);
    HandedDeadExtends(c, before, more, me);
  }

  /** One endpoint is handed over. */
  lemma HandedOver(c: Config, before: seq<Step>, me: nat, ep: DanmEp)
    ensures var steps := before + [ByWorker(me, Begin(ep))];
            && Remembers(After(c, before), After(c, steps))
            && Mine(steps, me) == Mine(before, me) + [Begin(ep)]
            && Handed(Mine(steps, me)) == Handed(Mine(before, me)) + [ep]
            && (HandedDead(c, before, me) && Dead(After(c, before), ep.podUid) ==> HandedDead(c, steps, me))
  {
    var step := ByWorker(me, Begin(ep));
    var steps := before + [step];
    assert steps[..|before|] == before;
    RunRemembers(c, steps, |before|);
    HandedConcat(Mine(before, me), [Begin(ep)]);
    assert [Begin(ep)][..0] == [];
    if HandedDead(c, before, me) && Dead(After(c, before), ep.podUid) {
      HandedDeadExtends(c, before, [step], me);
    }
  }

  /** The answer was the right one at its moment: an error exactly for a failing request, otherwise the Pod of that
      name, or that there is none. */
  ghost predicate RightAnswer(c: Config, steps: seq<Step>, faults: set<nat>, q: Asked) {
    && q.at <= |steps|
    && var pods := After(c, steps[..q.at]).pods;
       match q.answer
       case LookupError => q.request in faults
       case Found(uid) => q.request !in faults && uid in pods && pods[uid] == q.id
       case NotFound => q.request !in faults && forall uid :: uid in pods ==> pods[uid] != q.id
  }

  lemma RightAnswerStays(c: Config, before: seq<Step>, steps: seq<Step>, faults: set<nat>, q: Asked)
    requires RightAnswer(c, before, faults, q) && before <= steps
    ensures RightAnswer(c, steps, faults, q)
  {
    assert steps[..q.at] == before[..q.at];
  }

  /** The first endpoint of each Pod in the list, in order. */
  function FirstOfEach(eps: seq<DanmEp>): seq<DanmEp> {
    if eps == [] then []
    else
      var n := |eps| - 1;
      var before := FirstOfEach(eps[..n]);
      if exists i :: 0 <= i < n && eps[i].podUid == eps[n].podUid then before else before + [eps[n]]
  }

  /** The endpoint at `i` is the first of its Pod. */
  ghost predicate IsFirstOf(eps: seq<DanmEp>, i: nat)
    requires i < |eps|
  {
    forall j :: 0 <= j < i ==> eps[j].podUid != eps[i].podUid
  }

  /** Just the first endpoints of their Pods, and no Pod is asked for twice. */
  lemma {:induction false} FirstsExactly(eps: seq<DanmEp>, ep: DanmEp)
    ensures ep in FirstOfEach(eps) <==> exists i :: 0 <= i < |eps| && eps[i] == ep && IsFirstOf(eps, i)
  {
    if eps != [] {
      var n := |eps| - 1;
      var upTo := eps[..n];
      FirstsExactly(upTo, ep);
      forall i | 0 <= i < n ensures IsFirstOf(upTo, i) <==> IsFirstOf(eps, i) {
      }
      assert FirstOfEach(eps) == FirstOfEach(upTo) + (if IsFirstOf(eps, n) then [eps[n]] else []);
      assert (exists i :: 0 <= i < |eps| && eps[i] == ep && IsFirstOf(eps, i))
        <==> (exists i :: 0 <= i < n && upTo[i] == ep && IsFirstOf(upTo, i)) || (eps[n] == ep && IsFirstOf(eps, n));
    }
  }

  lemma {:induction false} FirstsAreDistinct(eps: seq<DanmEp>)
    ensures forall k, l :: 0 <= k < l < |FirstOfEach(eps)| ==> FirstOfEach(eps)[k].podUid != FirstOfEach(eps)[l].podUid
  {
    if eps != [] {
      var n := |eps| - 1;
      var before := FirstOfEach(eps[..n]);
      FirstsAreDistinct(eps[..n]);
      FirstsAreListed(eps[..n]);
      forall k | 0 <= k < |before| && IsFirstOf(eps, n) ensures before[k].podUid != eps[n].podUid {
        assert before[k] in eps[..n];
      }
    }
  }

  /** The look-ups are the answers to these questions, one for each Pod, by the name in its first endpoint. */
  ghost predicate Answers(eps: seq<DanmEp>, lookups: map<string, PodLookup>, asked: seq<Asked>) {
    var firsts := FirstOfEach(eps);
    && |asked| == |firsts|
    && (forall k :: 0 <= k < |asked| ==> asked[k].id == PodId(firsts[k].namespace, firsts[k].pod))
    && (forall k :: 0 <= k < |asked| ==>
          firsts[k].podUid in lookups && lookups[firsts[k].podUid] == asked[k].answer)
    && (forall uid :: uid in lookups ==> exists k :: 0 <= k < |asked| && firsts[k].podUid == uid)
  }

  /** Questions of this stretch of the run, rightly answered. */
  ghost predicate AskedSince(
    c: Config, before: seq<Step>, steps: seq<Step>, faults: set<nat>, from: nat, asked: seq<Asked>)
  {
    forall q :: q in asked ==> |before| <= q.at && from <= q.request && RightAnswer(c, steps, faults, q)
  }

  lemma AskedSinceStays(
    c: Config, before: seq<Step>, mid: seq<Step>, steps: seq<Step>, faults: set<nat>, from: nat, asked: seq<Asked>)
    requires AskedSince(c, before, mid, faults, from, asked) && mid <= steps
    ensures AskedSince(c, before, steps, faults, from, asked)
  {
    forall q | q in asked ensures RightAnswer(c, steps, faults, q) {
      RightAnswerStays(c, mid, steps, faults, q);
    }
  }

  /** Another endpoint of a Pod asked for already, or the first one of its Pod. */
  lemma FirstsWithout(eps: seq<DanmEp>, i: nat, j: nat)
    requires j < i < |eps| && eps[j].podUid == eps[i].podUid
    ensures FirstOfEach(eps[..i + 1]) == FirstOfEach(eps[..i])
  {
    var upTo := eps[..i + 1];
    assert upTo[..i] == eps[..i] && upTo[j] == eps[j] && upTo[i] == eps[i];
  }

  lemma FirstsWith(eps: seq<DanmEp>, i: nat)
    requires i < |eps| && forall j :: 0 <= j < i ==> eps[j].podUid != eps[i].podUid
    ensures FirstOfEach(eps[..i + 1]) == FirstOfEach(eps[..i]) + [eps[i]]
  {
    assert eps[..i + 1][..i] == eps[..i];
  }

  lemma RepeatAnswered(eps: seq<DanmEp>, i: nat, lookups: map<string, PodLookup>, asked: seq<Asked>)
    requires i < |eps| && Answers(eps[..i], lookups, asked) && eps[i].podUid in lookups
    ensures Answers(eps[..i + 1], lookups, asked)
  {
    var firsts := FirstOfEach(eps[..i]);
    var k :| 0 <= k < |asked| && firsts[k].podUid == eps[i].podUid;
    FirstsAreListed(eps[..i]);
    assert firsts[k] in firsts;
    var j :| 0 <= j < i && eps[j] == firsts[k];
    FirstsWithout(eps, i, j);
  }

  lemma NewAnswered(eps: seq<DanmEp>, i: nat, lookups: map<string, PodLookup>, asked: seq<Asked>, q: Asked)
    requires i < |eps| && Answers(eps[..i], lookups, asked) && LookedUp(eps[..i], lookups)
    requires eps[i].podUid !in lookups && q.id == PodId(eps[i].namespace, eps[i].pod)
    ensures Answers(eps[..i + 1], lookups[eps[i].podUid := q.answer], asked + [q])
  {
    var firsts, uid := FirstOfEach(eps[..i]), eps[i].podUid;
    forall j | 0 <= j < i ensures eps[j].podUid != uid {
      assert eps[j] in eps[..i];
    }
    FirstsWith(eps, i);
    var n, lookups' := |asked|, lookups[uid := q.answer];
    forall other | other in lookups' ensures exists k :: 0 <= k < n + 1 && (firsts + [eps[i]])[k].podUid == other {
      if other == uid {
        assert (firsts + [eps[i]])[n].podUid == uid;
      } else {
        var k :| 0 <= k < n && firsts[k].podUid == other;
        assert (firsts + [eps[i]])[k].podUid == other;
      }
    }
  }

  lemma {:induction false} FirstsAreListed(eps: seq<DanmEp>)
    ensures forall ep :: ep in FirstOfEach(eps) ==> ep in eps
  {
    if eps != [] {
      FirstsAreListed(eps[..|eps| - 1]);
    }
  }

  /** A listed endpoint of a Pod already dead when the questions begin dangles, unless a question fails. */
  lemma DeadDangles(
    c: Config, before: seq<Step>, steps: seq<Step>, faults: set<nat>, q: Asked, ep: DanmEp)
    requires before <= steps && |before| <= q.at && RightAnswer(c, steps, faults, q) && q.request !in faults
    requires Dead(After(c, before), ep.podUid)
    ensures ShowsDangling(q.answer, ep)
  {
    var moment := steps[..q.at];
    assert moment[..|before|] == before;
    RunRemembers(c, moment, |before|);
  }

  lemma DeadDangle(
    c: Config, before: seq<Step>, steps: seq<Step>, faults: set<nat>, from: nat,
    eps: seq<DanmEp>, lookups: map<string, PodLookup>, asked: seq<Asked>)
    requires before <= steps && AskedSince(c, before, steps, faults, from, asked)
    requires LookedUp(eps, lookups) && Answers(eps, lookups, asked)
    requires forall q :: q in asked ==> q.request !in faults
    ensures forall ep :: ep in eps && Dead(After(c, before), ep.podUid) ==> ep in Dangling(eps, lookups)
  {
    var s := After(c, before);
    forall ep | ep in eps && Dead(s, ep.podUid) ensures ep in Dangling(eps, lookups) {
      var k :| 0 <= k < |asked| && FirstOfEach(eps)[k].podUid == ep.podUid;
      assert asked[k] in asked;
      DeadDangles(c, before, steps, faults, asked[k], ep);
      DanglingMembers(eps, lookups, ep);
    }
  }

  lemma {:induction false} DanglingMembers(eps: seq<DanmEp>, lookups: map<string, PodLookup>, ep: DanmEp)
    ensures ep in Dangling(eps, lookups)
            <==> ep in eps && ep.podUid in lookups && ShowsDangling(lookups[ep.podUid], ep)
  {
    if eps != [] {
      var n := |eps| - 1;
      assert eps == eps[..n] + [eps[n]];
      DanglingMembers(eps[..n], lookups, ep);
    }
  }

  /** No endpoint that can be deleted has its record left. */
  ghost predicate Cleaned(c: Config, s: State, eps: seq<DanmEp>) {
    forall ep :: ep in eps && Deletable(c, ep) ==> Key(ep.namespace, ep.name) !in s.records
  }

  lemma CleanedStays(c: Config, s: State, later: State, all: seq<DanmEp>, eps: seq<DanmEp>)
    requires Cleaned(c, s, eps) && AllRecorded(all, s) && Remembers(s, later)
    requires forall ep :: ep in eps ==> ep in all
    ensures Cleaned(c, later, eps)
  {
    forall ep | ep in eps && Deletable(c, ep) ensures Key(ep.namespace, ep.name) !in later.records {
      assert KeyOf(ep) in s.recorded;
    }
  }

  lemma DanglingAreListed(eps: seq<DanmEp>, i: nat, lookups: map<string, PodLookup>)
    requires i <= |eps|
    ensures forall ep :: ep in Dangling(eps[..i], lookups) ==> ep in eps
  {
    forall ep | ep in Dangling(eps[..i], lookups) ensures ep in eps {
      DanglingMembers(eps[..i], lookups, ep);
    }
  }

  /** What a pass has found out after its first `i` endpoints. */
  ghost predicate Pass(
    c: Config, faults: set<nat>, first: seq<Step>, steps: seq<Step>, s: State, from: nat, calls: nat, eps: seq<DanmEp>, i: nat,
    podCache: map<string, bool>, lookups: map<string, PodLookup>, asked: seq<Asked>)
    requires i <= |eps|
  {
    && first <= steps && from <= calls && AllRecorded(eps, s)
    && CacheAgrees(podCache, lookups, s) && LookedUp(eps[..i], lookups)
    && Answers(eps[..i], lookups, asked) && AskedSince(c, first, steps, faults, from, asked)
    && (NoFaults(faults, from, calls) ==> Cleaned(c, s, Dangling(eps[..i], lookups)))
  }

  /** What one round adds to it: `steps`, `calls` and `q` are those after the round. */
  ghost predicate Round(
    c: Config, faults: set<nat>, before: seq<Step>, steps: seq<Step>, s: State, s': State, from: nat, calls: nat, ep: DanmEp,
    podCache: map<string, bool>, podExists: bool, q: Asked)
  {
    && before <= steps && from <= calls && Remembers(s, s')
    && (if ep.podUid in podCache then podExists == podCache[ep.podUid]
        else
          && q.id == PodId(ep.namespace, ep.pod) && |before| <= q.at && from <= q.request
          && RightAnswer(c, steps, faults, q) && (podExists <==> !ShowsDangling(q.answer, ep)))
    && (!podExists ==> Dead(s', ep.podUid))
    && (!podExists && NoFaults(faults, from, calls) ==> Cleaned(c, s', [ep]))
  }

  lemma RoundCleans(
    c: Config, faults: set<nat>, from: nat, mid: nat, calls: nat, s: State, s': State, all: seq<DanmEp>,
    eps: seq<DanmEp>, more: seq<DanmEp>)
    requires AllRecorded(all, s) && Remembers(s, s') && from <= mid <= calls && forall ep :: ep in eps ==> ep in all
    requires NoFaults(faults, from, mid) ==> Cleaned(c, s, eps)
    requires NoFaults(faults, mid, calls) ==> Cleaned(c, s', more)
    ensures NoFaults(faults, from, calls) ==> Cleaned(c, s', eps + more)
  {
    if NoFaults(faults, from, calls) {
      CleanedStays(c, s, s', all, eps);
    }
  }

  lemma RoundAsks(
    c: Config, faults: set<nat>, first: seq<Step>, before: seq<Step>, steps: seq<Step>, from: nat,
    eps: seq<DanmEp>, i: nat, lookups: map<string, PodLookup>, asked: seq<Asked>, q: Asked)
    requires i < |eps| && first <= before <= steps && AskedSince(c, first, before, faults, from, asked)
    requires Answers(eps[..i], lookups, asked) && LookedUp(eps[..i], lookups)
    requires eps[i].podUid !in lookups ==>
               && q.id == PodId(eps[i].namespace, eps[i].pod) && |before| <= q.at && from <= q.request
               && RightAnswer(c, steps, faults, q)
    ensures var repeated := eps[i].podUid in lookups;
            var asked' := if repeated then asked else asked + [q];
            && Answers(eps[..i + 1], if repeated then lookups else lookups[eps[i].podUid := q.answer], asked')
            && AskedSince(c, first, steps, faults, from, asked')
  {
    AskedSinceStays(c, first, before, steps, faults, from, asked);
    if eps[i].podUid in lookups {
      RepeatAnswered(eps, i, lookups, asked);
    } else {
      NewAnswered(eps, i, lookups, asked, q);
    }
  }

  lemma RoundKeepsPass(
    c: Config, faults: set<nat>, first: seq<Step>, before: seq<Step>, steps: seq<Step>, s: State, s': State,
    from: nat, mid: nat, calls: nat, eps: seq<DanmEp>, i: nat,
    podCache: map<string, bool>, lookups: map<string, PodLookup>, asked: seq<Asked>, podExists: bool, q: Asked)
    requires i < |eps| && Pass(c, faults, first, before, s, from, mid, eps, i, podCache, lookups, asked)
    requires Round(c, faults, before, steps, s, s', mid, calls, eps[i], podCache, podExists, q)
    ensures var uid := eps[i].podUid;
            var cache' := if uid in podCache then podCache else podCache[uid := podExists];
            var lookups' := if uid in podCache then lookups else lookups[uid := q.answer];
            var asked' := if uid in podCache then asked else asked + [q];
            && Pass(c, faults, first, steps, s', from, calls, eps, i + 1, cache', lookups', asked')
            && Dangling(eps[..i + 1], lookups') == Dangling(eps[..i], lookups) + (if podExists then [] else [eps[i]])
  {
    RecordedStays(eps, s, s');
    RoundDone(eps, i, podCache, lookups, s, s', podExists, q.answer);
    RoundAsks(c, faults, first, before, steps, from, eps, i, lookups, asked, q);
    DanglingAreListed(eps, i, lookups);
    RoundCleans(c, faults, from, mid, calls, s, s', eps, Dangling(eps[..i], lookups), if podExists then [] else [eps[i]]);
  }

  /** Every endpoint of a Pod that is dead in this state was found. */
  ghost predicate FindsDead(s: State, eps: seq<DanmEp>, found: seq<DanmEp>) {
    forall ep :: ep in eps && ep.podUid in s.born && ep.podUid !in s.pods ==> ep in found
  }

  ghost predicate NoneFailed(faults: set<nat>, asked: seq<Asked>) {
    forall q :: q in asked ==> q.request !in faults
  }

  /** What the whole pass has found out. */
  lemma PassDone(
    c: Config, faults: set<nat>, first: seq<Step>, steps: seq<Step>, s: State, from: nat, calls: nat,
    eps: seq<DanmEp>, podCache: map<string, bool>, lookups: map<string, PodLookup>, asked: seq<Asked>)
    requires Pass(c, faults, first, steps, s, from, calls, eps, |eps|, podCache, lookups, asked)
    ensures eps[..|eps|] == eps && LookedUp(eps, lookups) && Answers(eps, lookups, asked)
    ensures NoneFailed(faults, asked) ==> FindsDead(After(c, first), eps, Dangling(eps, lookups))
    ensures NoFaults(faults, from, calls) ==> Cleaned(c, s, Dangling(eps, lookups))
  {
    assert eps[..|eps|] == eps;
    if NoneFailed(faults, asked) {
      DeadDangle(c, first, steps, faults, from, eps, lookups, asked);
    }
  }

  /** Time passes, an endpoint is handed over, and nothing else. */
  lemma HandedOnce(
    c: Config, before: seq<Step>, mid: seq<Step>, steps: seq<Step>, me: nat, ep: DanmEp, calls: seq<Call>)
    requires before <= mid && Mine(mid, me) == Mine(before, me)
    requires mid + [ByWorker(me, Begin(ep))] <= steps && Mine(steps, me) == Mine(mid, me) + [Begin(ep)] + calls
    requires forall call :: call in calls ==> !call.Begin?
    requires HandedDead(c, before, me) && Dead(After(c, before), ep.podUid)
    ensures before <= steps && Remembers(After(c, before), After(c, steps)) && HandedDead(c, steps, me)
    ensures Handed(Mine(steps, me)) == Handed(Mine(before, me)) + [ep]
  {
    var begun := mid + [ByWorker(me, Begin(ep))];
    RemembersBetween(c, before, mid);
    NothingHandedBetween(c, before, mid, me, []);
    HandedOver(c, mid, me, ep);
    RemembersBetween(c, before, steps);
    NothingHandedInCalls(Mine(begun, me), calls);
    NothingHandedBetween(c, begun, steps, me, calls);
  }

  /** The cluster as one worker's code sees it. Which requests fail, and which of those take effect nevertheless, is
      given with it, by their numbers; `calls` counts the requests made. */
  class Cluster {
    const c: Config
    const faults: set<nat>
    const lost: set<nat>
    var state: State
    var calls: nat
    ghost var steps: seq<Step>
    ghost var asked: seq<Asked>

    ghost predicate Valid()
      reads this
    {
      state == After(c, steps)
    }

    constructor (c: Config, faults: set<nat>, lost: set<nat>)
      ensures Valid() && this.c == c && this.faults == faults && this.lost == lost
      ensures steps == [] && calls == 0 && asked == []
    {
      this.c, this.faults, this.lost := c, faults, lost;
      state, calls, steps, asked := INIT, 0, [], [];
    }

    /** Whatever everybody else does between two calls of worker `me`: any number of any steps but its own. */
    method Interfere(me: nat)
      requires Valid()
      modifies this`state, this`steps
      ensures Valid() && old(steps) <= steps
      ensures forall step :: step in steps[|old(steps)|..] ==> !IsBy(step, me)
    {
      var n: nat :| 0 <= n;
      for i := 0 to n
        invariant Valid() && old(steps) <= steps
        invariant forall step :: step in steps[|old(steps)|..] ==> !IsBy(step, me)
      {
        var step: Step := *;
        if !IsBy(step, me) {
          AfterOneMore(c, steps, step);
          state := Next(c, state, step);
          steps := steps + [step];
        }
      }
    }

    /** Time passes: others act, but our worker stays where it was. */
    method Wait(me: nat)
      requires Valid()
      modifies this`state, this`steps
      ensures Valid() && old(steps) <= steps && Mine(steps, me) == Mine(old(steps), me)
      ensures me in old(state).workers <==> me in state.workers
      ensures me in old(state).workers ==> state.workers[me] == old(state).workers[me]
    {
      ghost var before := steps;
      Interfere(me);
      ghost var more := steps[|before|..];
      assert steps == before + more;
      MineConcat(before, more, me);
      NotMine(more, me);
      OthersLeaveWorker(c, before, more, me);
    }

    /** One call of our worker. */
    method Do(me: nat, call: Call)
      requires Valid() && CallEnabled(c, state, me, call)
      modifies this`state, this`steps
      ensures Valid() && steps == old(steps) + [ByWorker(me, call)] && state == ApplyCall(c, old(state), me, call)
      ensures Mine(steps, me) == Mine(old(steps), me) + [call]
    {
      ghost var before, after := steps, steps + [ByWorker(me, call)];
      assert after[..|before|] == before;
      state := ApplyCall(c, state, me, call);
      steps := after;
    }

    /** One more request, and whether it fails. */
    method Request() returns (err: bool)
      modifies this`calls
      ensures calls == old(calls) + 1 && (err <==> old(calls) in faults)
    {
      err := calls in faults;
      calls := calls + 1;
    }

    /** Look a Pod up by name. */
    method GetPod(namespace: string, name: string) returns (r: PodLookup)
      requires Valid()
      modifies this`calls, this`asked
      ensures calls == old(calls) + 1
      ensures asked == old(asked) + [Asked(PodId(namespace, name), |steps|, old(calls), r)]
      ensures RightAnswer(c, steps, faults, asked[|old(asked)|])
    {
      assert steps[..|steps|] == steps;
      ghost var request := calls;
      var err := Request();
      if err {
        r := LookupError;
      } else if uid :| uid in state.pods && state.pods[uid] == PodId(namespace, name) {
        r := Found(uid);
      } else {
        r := NotFound;
      }
      asked := asked + [Asked(PodId(namespace, name), |steps|, request, r)];
    }

    /** Release the address our worker is at; the request may fail, with or without effect. Others act before it. */
    method ReleaseIP(me: nat) returns (err: bool, took: bool)
      requires Valid() && CallEnabled(c, state, me, Release)
      modifies this`state, this`steps, this`calls
      ensures Valid() && old(steps) <= steps && calls == old(calls) + 1
      ensures (err <==> old(calls) in faults) && (took <==> old(calls) in lost)
      ensures err ==> me !in state.workers
      ensures !err ==> me in state.workers
                       && state.workers[me] == Worker(old(state).workers[me].ep, NextPhase(old(state).workers[me].phase))
      ensures Mine(steps, me) == Mine(old(steps), me) + [if err then ReleaseFails(took) else Release]
    {
      Wait(me);
      took := calls in lost;
      err := Request();
      Do(me, if err then ReleaseFails(took) else Release);
    }

    /** Delete the record of our worker's endpoint; the request may fail, with or without effect, and does so for a
        record that is gone. */
    method DeleteRecord(me: nat) returns (err: bool, took: bool)
      requires Valid() && CallEnabled(c, state, me, Delete)
      modifies this`state, this`steps, this`calls
      ensures Valid() && old(steps) <= steps && me !in state.workers && calls == old(calls) + 1
      ensures !err ==> old(calls) !in faults
      ensures !err || old(calls) !in faults ==> KeyOf(old(state).workers[me].ep) !in state.records
      ensures Mine(steps, me) == Mine(old(steps), me) + [if err then DeleteFails(took) else Delete]
    {
      Wait(me);
      took := calls in lost;
      err := Request();
      err := err || KeyOf(state.workers[me].ep) !in state.records;
      Do(me, if err then DeleteFails(took) else Delete);
    }

    /** Give up on the endpoint. */
    method Stop(me: nat)
      requires Valid() && me in state.workers
      modifies this`state, this`steps
      ensures Valid() && old(steps) <= steps && me !in state.workers && state.records == old(state).records
      ensures Mine(steps, me) == Mine(old(steps), me) + [Quit]
    {
      Do(me, Quit);
    }

    method DeleteDanmEp(me: nat, ep: DanmEp, dnet: DanmNet) returns (r: DeleteResult, ghost took: bool)
      requires Valid() && me in state.workers && state.workers[me] == Worker(ep, ReleasingV4)
      requires dnet == c.networkOf(ep)
      modifies this`state, this`steps, this`calls
      ensures Valid() && old(steps) <= steps && me !in state.workers && calls == old(calls) + Requests(r)
      ensures Mine(steps, me) == Mine(old(steps), me) + DeletionCalls(r, took)
      ensures ResultFits(c, faults, old(calls), ep, r, Key(ep.namespace, ep.name) !in state.records)
    {
      took := false;
      ghost var mine := Mine(steps, me);
      var service := SelectReleaseIpServiceImplementation(c.was, dnet, ep, ep.address);
      if service.None? {
        Stop(me);
        return NoService4, took;
      }
      var err, took4 := ReleaseIP(me);
      if err {
        return ReleaseFailed4, took4;
      }
      service := SelectReleaseIpServiceImplementation(c.was, dnet, ep, ep.addressIPv6);
      if service.None? {
        Stop(me);
        AppendCalls(mine, Release, Quit, Quit);
        return NoService6, took;
      }
      var err6, took6 := ReleaseIP(me);
      AppendCalls(mine, Release, if err6 then ReleaseFails(took6) else Release, Quit);
      if err6 {
        return ReleaseFailed6, took6;
      }
      var errRecord, tookRecord := DeleteRecord(me);
      AppendCalls(mine, Release, Release, if errRecord then DeleteFails(tookRecord) else Delete);
      if errRecord {
        return RecordNotDeleted, tookRecord;
      }
      r := DeleteOk;
    }

    /** One endpoint handed to deletion: see that its record is still there, find its network, delete it. `looked` is
        the moment of the first of these. Nothing is released when the record or the network is missing. Unless a
        request fails, an endpoint with two owners leaves no record behind. */
    method DeleteInterface(me: nat, ep: DanmEp) returns (ghost visit: Visit, ghost looked: nat)
      requires Valid() && CallEnabled(c, state, me, Begin(ep))
      modifies this`state, this`steps, this`calls
      ensures Valid() && me !in state.workers
      ensures old(steps) + [ByWorker(me, Begin(ep))] <= steps && |old(steps)| < looked <= |steps|
      ensures Mine(steps, me) == Mine(old(steps), me) + [Begin(ep)] + VisitCalls(visit)
      ensures var n, key := old(calls), Key(ep.namespace, ep.name);
              && n < calls
              && (visit == RecordMissing <==> n in faults || key !in After(c, steps[..looked]).records)
              && (visit == NetworkMissing ==> n !in faults && n + 1 in faults && n + 1 < calls)
              && (visit.Deletion? ==> && n !in faults && n + 1 !in faults && calls == n + 2 + Requests(visit.r)
                                      && ResultFits(c, faults, n + 2, ep, visit.r, key !in state.records))
      ensures (forall n :: old(calls) <= n < calls ==> n !in faults) && Deletable(c, ep)
              ==> Key(ep.namespace, ep.name) !in state.records
    {
      Do(me, Begin(ep));
      Wait(me);
      ghost var moment := steps;
      looked := |moment|;
      assert moment[..looked] == moment;
      var err := Request();
      if err || KeyOf(ep) !in state.records {
        Stop(me);
        visit := RecordMissing;
      } else {
        err := Request();
        if err {
          Stop(me);
          visit := NetworkMissing;
        } else {
          ghost var n := calls;
          var r, took := DeleteDanmEp(me, ep, c.networkOf(ep));
          visit := Deletion(r, took);
          if NoFaults(faults, n, calls) && Deletable(c, ep) {
            FaultlessDeletion(c, faults, n, ep, r, Key(ep.namespace, ep.name) !in state.records);
          }
        }
      }
      assert steps[..looked] == moment;
    }

    /** Give a dangling endpoint to deletion; others may act before, in between and after. */
    method HandOver(me: nat, ep: DanmEp)
      requires Valid() && me !in state.workers && HandedDead(c, steps, me)
      requires KeyOf(ep) in state.recorded && state.recorded[KeyOf(ep)] == ep
      requires Dead(state, ep.podUid)
      modifies this`state, this`steps, this`calls
      ensures Valid() && me !in state.workers && HandedDead(c, steps, me)
      ensures old(steps) <= steps && old(calls) <= calls && Remembers(old(state), state)
      ensures Handed(Mine(steps, me)) == Handed(Mine(old(steps), me)) + [ep]
      ensures NoFaults(faults, old(calls), calls) ==> Cleaned(c, state, [ep])
    {
      ghost var before := steps;
      Wait(me);
      ghost var mid := steps;
      RemembersBetween(c, before, mid);
      ghost var visit, looked := DeleteInterface(me, ep);
      HandedOnce(c, before, mid, steps, me, ep, VisitCalls(visit));
    }

    /** Look up the Pod of an endpoint, others acting before. A dangling endpoint's Pod is dead. */
    method LookUp(me: nat, ep: DanmEp) returns (pod: PodLookup, ghost q: Asked)
      requires Valid() && me !in state.workers && HandedDead(c, steps, me)
      requires KeyOf(ep) in state.recorded && state.recorded[KeyOf(ep)] == ep
      modifies this
      ensures Valid() && me !in state.workers && HandedDead(c, steps, me)
      ensures old(steps) <= steps && Remembers(old(state), state) && Mine(steps, me) == Mine(old(steps), me)
      ensures calls == old(calls) + 1 && asked == old(asked) + [q]
      ensures q.id == PodId(ep.namespace, ep.pod) && q.request == old(calls) && |old(steps)| <= q.at && q.answer == pod
      ensures RightAnswer(c, steps, faults, q)
      ensures ShowsDangling(pod, ep) ==> Dead(state, ep.podUid)
    {
      ghost var before, n := steps, |asked|;
      Wait(me);
      RemembersBetween(c, before, steps);
      NothingHandedBetween(c, before, steps, me, []);
      pod := GetPod(ep.namespace, ep.pod);
      q := asked[n];
      assert steps[..|steps|] == steps;
      if ShowsDangling(pod, ep) {
        ConsistentOverRuns(c, steps);
        AbsentMeansDead(c, state, ep);
      }
    }

    /** One round of the pass: decide from the cache, or ask for the Pod, and hand a dangling endpoint over. `q` is the
        question, if there is one. */
    method CleanOne(me: nat, ep: DanmEp, podCache: map<string, bool>) returns (podExists: bool, ghost q: Asked)
      requires Valid() && me !in state.workers && HandedDead(c, steps, me)
      requires KeyOf(ep) in state.recorded && state.recorded[KeyOf(ep)] == ep
      requires ep.podUid in podCache && !podCache[ep.podUid] ==> Dead(state, ep.podUid)
      modifies this
      ensures Valid() && me !in state.workers && HandedDead(c, steps, me)
      ensures asked == if ep.podUid in podCache then old(asked) else old(asked) + [q]
      ensures Round(c, faults, old(steps), steps, old(state), state, old(calls), calls, ep, podCache, podExists, q)
      ensures Handed(Mine(steps, me)) == Handed(Mine(old(steps), me)) + (if podExists then [] else [ep])
    {
      q := Asked(PodId(ep.namespace, ep.pod), 0, 0, LookupError);
      if ep.podUid in podCache {
        podExists := podCache[ep.podUid];
        if !podExists {
          HandOver(me, ep);
        }
        return;
      }
      var pod;
      pod, q := LookUp(me, ep);
      ghost var moment, n := steps, calls;
      podExists := !(pod.NotFound? || (pod.Found? && pod.uid != ep.podUid));
      if !podExists {
        HandOver(me, ep);
        RightAnswerStays(c, moment, steps, faults, q);
        assert NoFaults(faults, old(calls), calls) ==> NoFaults(faults, n, calls);
      }
    }

    /** One periodic pass over a list of records. Each Pod is asked for once, by the name in its first endpoint; handed
        to deletion are exactly the endpoints that the answer shows to dangle, and each of their Pods is dead at the
        moment of the hand-over. Unless one of the questions fails, these include every listed endpoint of a Pod dead
        when the pass began; unless any request fails, none of those with two owners has a record left. */
    method CleanDanglingEps(me: nat, danmeps: seq<DanmEp>) returns (ghost lookups: map<string, PodLookup>)
      requires Valid() && me !in state.workers && HandedDead(c, steps, me)
      requires AllRecorded(danmeps, state)
      modifies this
      ensures Valid() && me !in state.workers && HandedDead(c, steps, me)
      ensures old(steps) <= steps && old(calls) <= calls && old(asked) <= asked
      ensures LookedUp(danmeps, lookups) && Answers(danmeps, lookups, asked[|old(asked)|..])
      ensures AskedSince(c, old(steps), steps, faults, old(calls), asked[|old(asked)|..])
      ensures Handed(Mine(steps, me)) == Handed(Mine(old(steps), me)) + Dangling(danmeps, lookups)
      ensures NoneFailed(faults, asked[|old(asked)|..]) ==> FindsDead(old(state), danmeps, Dangling(danmeps, lookups))
      ensures NoFaults(faults, old(calls), calls) ==> Cleaned(c, state, Dangling(danmeps, lookups))
    {
      var podCache: map<string, bool> := map[];
      lookups := map[];
      ghost var handed, first, from, begin := Handed(Mine(steps, me)), steps, calls, |asked|;
      ghost var questions: seq<Asked> := [];
      for i := 0 to |danmeps|
        invariant Valid() && me !in state.workers && HandedDead(c, steps, me)
        invariant asked == old(asked) + questions
        invariant Pass(c, faults, first, steps, state, from, calls, danmeps, i, podCache, lookups, questions)
        invariant Handed(Mine(steps, me)) == handed + Dangling(danmeps[..i], lookups)
      {
        var ep := danmeps[i];
        ghost var before, s, mid := steps, state, calls;
        var podExists;
        ghost var q;
        podExists, q := CleanOne(me, ep, podCache);
        RoundKeepsPass(
          c, faults, first, before, steps, s, state, from, mid, calls, danmeps, i, podCache, lookups, questions, podExists, q);
        AppendMore(handed, Dangling(danmeps[..i], lookups), if podExists then [] else [ep]);
        AppendMore(old(asked), questions, [q]);
        if ep.podUid !in podCache {
          lookups := lookups[ep.podUid := q.answer];
          podCache := podCache[ep.podUid := podExists];
          questions := questions + [q];
        }
      }
      assert asked[begin..] == questions;
      PassDone(c, faults, first, steps, state, from, calls, danmeps, podCache, lookups, questions);
    }
  }
}
