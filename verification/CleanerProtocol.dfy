/** The release-and-delete protocol as a state machine over single API calls: pods, endpoint records and address
    leases change under any number of workers, whose calls may fail or lose their replies at any point. */
module CleanerProtocol {
  import opened PolTypes
  import opened ReleaseHandlers

  datatype Store = DanmStore(network: string) | CalicoStore

  /** An address held in a store. */
  datatype Lease = Lease(store: Store, ip: string)

  /** What never changes: ownership of addresses, the network of an endpoint, and the reading of address texts. */
  datatype Config = Config(was: AllocatedByDanm, networkOf: DanmEp -> DanmNet, parseIp: string -> string)

  /** What deletion releases for an address: the lease in the store of the handler that claims it. Whether the
      address is held there is another matter. */
  function LeaseOf(c: Config, ep: DanmEp, address: string): Option<Lease> {
    match Owner(c.was, c.networkOf(ep), ep, address)
    case None => None
    case Some(DanmHandler) => Some(Lease(DanmStore(c.networkOf(ep).id), c.parseIp(address)))
    case Some(CalicoHandler) => Some(Lease(CalicoStore, c.parseIp(address)))
  }

  function LeaseSet(l: Option<Lease>): set<Lease> {
    if l.None? then {} else {l.value}
  }

  /** What deletion releases for an endpoint. */
  function Leases(c: Config, ep: DanmEp): set<Lease> {
    LeaseSet(LeaseOf(c, ep, ep.address)) + LeaseSet(LeaseOf(c, ep, ep.addressIPv6))
  }

  datatype PodId = PodId(namespace: string, name: string)
  datatype Key = Key(namespace: string, name: string)

  function KeyOf(ep: DanmEp): Key {
    Key(ep.namespace, ep.name)
  }

  /** What a worker does next with the endpoint it was given. */
  datatype Phase = ReleasingV4 | ReleasingV6 | Deleting
  datatype Worker = Worker(ep: DanmEp, phase: Phase)

  /** `pods` are the live Pods by UID and `born` all there ever were; likewise `records` and `recorded`. `taken` are
      the leases that were taken for a record when it was made. */
  datatype State = State(
    pods: map<string, PodId>, born: map<string, PodId>,
    records: map<Key, DanmEp>, recorded: map<Key, DanmEp>, taken: map<Key, set<Lease>>,
    leases: set<Lease>, workers: map<nat, Worker>)

  const INIT := State(map[], map[], map[], map[], map[], {}, map[])

  /** What Kubernetes and the CNI plugin do. */
  datatype Event =
    | PodCreated(uid: string, id: PodId)
    | PodDeleted(uid: string)
    | Attached(ep: DanmEp, leases: set<Lease>)  // addresses taken, wherever that is, and the endpoint recorded
    | Detached(key: Key)                        // just these freed again, and the record removed

  /** What a worker does. A failing call is an error reply, whether or not the call took effect. */
  datatype Call =
    | Begin(ep: DanmEp)             // an endpoint is handed to deletion
    | Release
    | ReleaseFails(took: bool)
    | Delete
    | DeleteFails(took: bool)
    | Quit

  datatype Step = Outside(event: Event) | ByWorker(worker: nat, call: Call)

  function Address(w: Worker): string {
    if w.phase.ReleasingV4? then w.ep.address else w.ep.addressIPv6
  }

  predicate EventEnabled(s: State, event: Event) {
    match event
    case PodCreated(uid, id) => uid !in s.born && id !in s.pods.Values
    case PodDeleted(uid) => uid in s.pods
    case Attached(ep, _) =>
      KeyOf(ep) !in s.recorded && ep.podUid in s.pods && s.pods[ep.podUid] == PodId(ep.namespace, ep.pod)
    case Detached(key) => key in s.records && key in s.taken
  }

  predicate CallEnabled(c: Config, s: State, w: nat, call: Call) {
    if call.Begin? then
      w !in s.workers && KeyOf(call.ep) in s.recorded && s.recorded[KeyOf(call.ep)] == call.ep
    else
      && w in s.workers
      && (call.Release? || call.ReleaseFails? ==>
            !s.workers[w].phase.Deleting? && LeaseOf(c, s.workers[w].ep, Address(s.workers[w])).Some?)
      && (call.Delete? || call.DeleteFails? ==> s.workers[w].phase.Deleting?)
  }

  predicate Enabled(c: Config, s: State, step: Step) {
    match step
    case Outside(event) => EventEnabled(s, event)
    case ByWorker(w, call) => CallEnabled(c, s, w, call)
  }

  function NextPhase(phase: Phase): Phase {
    if phase.ReleasingV4? then ReleasingV6 else Deleting
  }

  function ApplyEvent(s: State, event: Event): State
    requires EventEnabled(s, event)
  {
    match event
    case PodCreated(uid, id) => s.(pods := s.pods[uid := id], born := s.born[uid := id])
    case PodDeleted(uid) => s.(pods := s.pods - {uid})
    case Attached(ep, leases) =>
      s.(records := s.records[KeyOf(ep) := ep], recorded := s.recorded[KeyOf(ep) := ep],
         taken := s.taken[KeyOf(ep) := leases], leases := s.leases + leases)
    case Detached(key) => s.(records := s.records - {key}, leases := s.leases - s.taken[key])
  }

  /** The call frees the lease the worker is at (removes the record of its endpoint). */
  predicate Frees(call: Call) {
    call.Release? || (call.ReleaseFails? && call.took)
  }

  predicate Erases(call: Call) {
    call.Delete? || (call.DeleteFails? && call.took)
  }

  function ApplyCall(c: Config, s: State, w: nat, call: Call): State
    requires CallEnabled(c, s, w, call)
  {
    if call.Begin? then
      s.(workers := s.workers[w := Worker(call.ep, ReleasingV4)])
    else
      var worker := s.workers[w];
      s.(leases := if Frees(call) then s.leases - LeaseSet(LeaseOf(c, worker.ep, Address(worker))) else s.leases,
         records := if Erases(call) then s.records - {KeyOf(worker.ep)} else s.records,
         workers := if call.Release? then s.workers[w := worker.(phase := NextPhase(worker.phase))]
                    else s.workers - {w})
  }

  function Apply(c: Config, s: State, step: Step): State
    requires Enabled(c, s, step)
  {
    match step
    case Outside(event) => ApplyEvent(s, event)
    case ByWorker(w, call) => ApplyCall(c, s, w, call)
  }

  // ---- Runs ----

  /** A step that cannot be taken does not happen. */
  function Next(c: Config, s: State, step: Step): State {
    if Enabled(c, s, step) then Apply(c, s, step) else s
  }

  function After(c: Config, steps: seq<Step>): State {
    if steps == [] then INIT
    else
      var n := |steps| - 1; Next(c, After(c, steps[..n]), steps[n])
  }

  // ---- What every step keeps ----

  ghost predicate RecordsConsistent(s: State) {
    && (forall key :: key in s.records ==> key in s.recorded && s.recorded[key] == s.records[key])
    && (forall key :: key in s.recorded ==> KeyOf(s.recorded[key]) == key)
    && (forall w :: w in s.workers ==>
          KeyOf(s.workers[w].ep) in s.recorded && s.recorded[KeyOf(s.workers[w].ep)] == s.workers[w].ep)
    && s.taken.Keys == s.recorded.Keys
  }

  /** UIDs and names are used as Kubernetes promises, and records name Pods that existed. */
  ghost predicate PodsConsistent(s: State) {
    && (forall uid :: uid in s.pods ==> uid in s.born && s.born[uid] == s.pods[uid])
    && (forall u, v :: u in s.pods && v in s.pods && s.pods[u] == s.pods[v] ==> u == v)
    && (forall key :: key in s.recorded ==>
          var ep := s.recorded[key];
          ep.podUid in s.born && s.born[ep.podUid] == PodId(ep.namespace, ep.pod))
  }

  /** An address a worker has got past has an owner. */
  ghost predicate PhaseReached(c: Config, w: Worker) {
    && (!w.phase.ReleasingV4? ==> LeaseOf(c, w.ep, w.ep.address).Some?)
    && (w.phase.Deleting? ==> LeaseOf(c, w.ep, w.ep.addressIPv6).Some?)
  }

  ghost predicate Consistent(c: Config, s: State) {
    RecordsConsistent(s) && PodsConsistent(s) && forall w :: w in s.workers ==> PhaseReached(c, s.workers[w])
  }

  lemma EventsKeepPods(s: State, event: Event)
    requires PodsConsistent(s) && EventEnabled(s, event)
    ensures PodsConsistent(ApplyEvent(s, event))
  {
    if event.PodCreated? {
      forall u | u in s.pods ensures s.pods[u] != event.id {
        assert s.pods[u] in s.pods.Values;
      }
    }
  }

  lemma EventsKeepConsistency(c: Config, s: State, event: Event)
    requires Consistent(c, s) && EventEnabled(s, event)
    ensures Consistent(c, ApplyEvent(s, event))
  {
    EventsKeepPods(s, event);
    assert ApplyEvent(s, event).workers == s.workers;
  }

  lemma CallsKeepConsistency(c: Config, s: State, w: nat, call: Call)
    requires Consistent(c, s) && CallEnabled(c, s, w, call)
    ensures Consistent(c, ApplyCall(c, s, w, call))
  {
    var s' := ApplyCall(c, s, w, call);
    assert s'.pods == s.pods && s'.born == s.born && s'.recorded == s.recorded && s'.taken == s.taken;
    forall v | v in s'.workers
      ensures KeyOf(s'.workers[v].ep) in s.recorded && s.recorded[KeyOf(s'.workers[v].ep)] == s'.workers[v].ep
      ensures PhaseReached(c, s'.workers[v])
    {
      if v != w {
        assert s'.workers[v] == s.workers[v];
      }
    }
  }

  lemma {:induction false} ConsistentOverRuns(c: Config, steps: seq<Step>)
    ensures Consistent(c, After(c, steps))
  {
    if steps != [] {
      var n := |steps| - 1;
      var s := After(c, steps[..n]);
      ConsistentOverRuns(c, steps[..n]);
      if Enabled(c, s, steps[n]) {
        match steps[n]
        case Outside(event) => EventsKeepConsistency(c, s, event);
        case ByWorker(w, call) => CallsKeepConsistency(c, s, w, call);
      }
    }
  }

  // ---- Which records workers delete ----

  /** Both addresses have an owner. */
  predicate Deletable(c: Config, ep: DanmEp) {
    LeaseOf(c, ep, ep.address).Some? && LeaseOf(c, ep, ep.addressIPv6).Some?
  }

  /** The series of steps from a Pod's birth to the moment the record of its endpoint is about to be deleted. */
  function LifeOf(ep: DanmEp, leases: set<Lease>): seq<Step> {
    [Outside(PodCreated(ep.podUid, PodId(ep.namespace, ep.pod))), Outside(Attached(ep, leases)),
     Outside(PodDeleted(ep.podUid)), ByWorker(0, Begin(ep)), ByWorker(0, Release), ByWorker(0, Release)]
  }

  function AfterLife(c: Config, ep: DanmEp, leases: set<Lease>): State {
    var pods, record := map[ep.podUid := PodId(ep.namespace, ep.pod)], map[KeyOf(ep) := ep];
    State(map[], pods, record, record, map[KeyOf(ep) := leases], leases - Leases(c, ep), map[0 := Worker(ep, Deleting)])
  }

  lemma AfterOneMore(c: Config, steps: seq<Step>, step: Step)
    ensures After(c, steps + [step]) == Next(c, After(c, steps), step)
  {
    assert (steps + [step])[..|steps|] == steps;
  }

  lemma LifeBegins(c: Config, ep: DanmEp, leases: set<Lease>)
    ensures var pods, record := map[ep.podUid := PodId(ep.namespace, ep.pod)], map[KeyOf(ep) := ep];
            After(c, LifeOf(ep, leases)[..3])
            == State(map[], pods, record, record, map[KeyOf(ep) := leases], leases, map[])
  {
    var steps := LifeOf(ep, leases);
    var pods, record := map[ep.podUid := PodId(ep.namespace, ep.pod)], map[KeyOf(ep) := ep];
    assert steps[..1] == [] + [steps[0]] && steps[..2] == steps[..1] + [steps[1]] && steps[..3] == steps[..2] + [steps[2]];
    AfterOneMore(c, [], steps[0]);
    assert After(c, steps[..1]) == INIT.(pods := pods, born := pods);
    AfterOneMore(c, steps[..1], steps[1]);
    assert After(c, steps[..2]) == State(pods, pods, record, record, map[KeyOf(ep) := leases], leases, map[]);
    AfterOneMore(c, steps[..2], steps[2]);
  }

  lemma LifeReaches(c: Config, ep: DanmEp, leases: set<Lease>)
    requires Deletable(c, ep)
    ensures After(c, LifeOf(ep, leases)) == AfterLife(c, ep, leases)
  {
    var steps := LifeOf(ep, leases);
    var l4 := LeaseSet(LeaseOf(c, ep, ep.address));
    LifeBegins(c, ep, leases);
    var s := After(c, steps[..3]);
    assert steps[..4] == steps[..3] + [steps[3]] && steps[..5] == steps[..4] + [steps[4]] && steps == steps[..5] + [steps[5]];
    AfterOneMore(c, steps[..3], steps[3]);
    assert After(c, steps[..4]) == s.(workers := map[0 := Worker(ep, ReleasingV4)]);
    AfterOneMore(c, steps[..4], steps[4]);
    assert After(c, steps[..5]) == s.(leases := leases - l4, workers := map[0 := Worker(ep, ReleasingV6)]);
    AfterOneMore(c, steps[..5], steps[5]);
    assert leases - l4 - LeaseSet(LeaseOf(c, ep, ep.addressIPv6)) == leases - Leases(c, ep);
  }

  /** Some run reaches a call of a worker that deletes the record of this endpoint. */
  ghost predicate MayBeDeleted(c: Config, ep: DanmEp) {
    exists steps, w, call ::
      && CallEnabled(c, After(c, steps), w, call) && Erases(call)
      && After(c, steps).workers[w].ep == ep
  }

  /** Workers delete the record of an endpoint, in some run, exactly when both of its addresses have an owner. */
  lemma DeletedExactly(c: Config, ep: DanmEp)
    ensures MayBeDeleted(c, ep) <==> Deletable(c, ep)
  {
    if MayBeDeleted(c, ep) {
      var steps, w, call :| CallEnabled(c, After(c, steps), w, call) && Erases(call) && After(c, steps).workers[w].ep == ep;
      ConsistentOverRuns(c, steps);
      assert PhaseReached(c, After(c, steps).workers[w]);
    }
    if Deletable(c, ep) {
      LifeReaches(c, ep, {});
      assert CallEnabled(c, After(c, LifeOf(ep, {})), 0, Delete);
    }
  }

  lemma OwnerlessSurvivesCall(c: Config, s: State, w: nat, call: Call, key: Key)
    requires Consistent(c, s) && CallEnabled(c, s, w, call)
    requires key in s.records && !Deletable(c, s.records[key])
    ensures key in ApplyCall(c, s, w, call).records
  {
    if Erases(call) {
      assert PhaseReached(c, s.workers[w]);
    }
  }

  lemma OwnerlessSurvivesStep(c: Config, s: State, step: Step, key: Key)
    requires Consistent(c, s) && key in s.records && !Deletable(c, s.records[key])
    ensures key in Next(c, s, step).records <==> step != Outside(Detached(key))
  {
    match step
    case Outside(event) =>
      if event.Detached? {
        assert key in s.taken;
      }
    case ByWorker(w, call) =>
      if CallEnabled(c, s, w, call) {
        OwnerlessSurvivesCall(c, s, w, call, key);
      }
  }

  /** Over any run, a record of which an address has no owner is removed by nobody but the CNI plugin. */
  lemma OwnerlessRecordStays(c: Config, steps: seq<Step>, step: Step, key: Key)
    requires key in After(c, steps).records && !Deletable(c, After(c, steps).records[key])
    ensures key in After(c, steps + [step]).records <==> step != Outside(Detached(key))
  {
    ConsistentOverRuns(c, steps);
    OwnerlessSurvivesStep(c, After(c, steps), step, key);
    AfterOneMore(c, steps, step);
  }

  /** DANM disowns the absent second address of an endpoint with IPv4 only: its record is never deleted. */
  lemma AbsentAddressKeepsRecord(c: Config, ep: DanmEp)
    requires ep.addressIPv6 == "" && forall cidr :: !c.was("", cidr)
    ensures !MayBeDeleted(c, ep)
  {
    DeletedExactly(c, ep);
  }

  // ---- No leak ----

  /** The leases taken for the endpoint are those deletion releases, or deletion never gets that far. */
  ghost predicate Safe(c: Config, ep: DanmEp, leases: set<Lease>) {
    Deletable(c, ep) ==> leases <= Leases(c, ep)
  }

  /** DANM says that it allocated this address from one of the blocks of the endpoint's network. */
  predicate DanmClaims(c: Config, ep: DanmEp, address: string) {
    c.was(address, c.networkOf(ep).cidr) || c.was(address, c.networkOf(ep).pool6Cidr)
  }

  /** The address is there, the endpoint is on a Calico network, and DANM disowns the address. */
  predicate CalicoClaims(c: Config, ep: DanmEp, address: string) {
    address != "" && address != "none" && ep.networkType == "calico" && !DanmClaims(c, ep, address)
  }

  /** The lease is for this address, in the store of the one that claims it: for DANM the endpoint's own network. */
  predicate HeldByClaimant(c: Config, ep: DanmEp, address: string, l: Lease) {
    && l.ip == c.parseIp(address)
    && if DanmClaims(c, ep, address) then l.store == DanmStore(c.networkOf(ep).id)
       else CalicoClaims(c, ep, address) && l.store == CalicoStore
  }

  lemma LeaseOfClaimant(c: Config, ep: DanmEp, address: string)
    ensures LeaseOf(c, ep, address).Some? <==> DanmClaims(c, ep, address) || CalicoClaims(c, ep, address)
    ensures forall l :: LeaseOf(c, ep, address) == Some(l) <==> HeldByClaimant(c, ep, address, l)
  {
  }

  /** An attachment is safe exactly when each of its leases is held by the claimant of one of the addresses, or nobody
      claims one of them. */
  lemma SafeExactly(c: Config, ep: DanmEp, leases: set<Lease>)
    ensures Safe(c, ep, leases)
            <==> || (forall l :: l in leases ==>
                       HeldByClaimant(c, ep, ep.address, l) || HeldByClaimant(c, ep, ep.addressIPv6, l))
                 || (!DanmClaims(c, ep, ep.address) && !CalicoClaims(c, ep, ep.address))
                 || (!DanmClaims(c, ep, ep.addressIPv6) && !CalicoClaims(c, ep, ep.addressIPv6))
  {
    LeaseOfClaimant(c, ep, ep.address);
    LeaseOfClaimant(c, ep, ep.addressIPv6);
    forall l ensures l in Leases(c, ep) <==> HeldByClaimant(c, ep, ep.address, l) || HeldByClaimant(c, ep, ep.addressIPv6, l) {
    }
  }

  /** An endpoint both of whose addresses DANM allocated, in its own store, is safely attached. */
  lemma DanmAttachmentIsSafe(c: Config, ep: DanmEp)
    requires DanmClaims(c, ep, ep.address) && DanmClaims(c, ep, ep.addressIPv6)
    ensures var store := DanmStore(c.networkOf(ep).id);
            Safe(c, ep, {Lease(store, c.parseIp(ep.address)), Lease(store, c.parseIp(ep.addressIPv6))})
  {
    var store := DanmStore(c.networkOf(ep).id);
    SafeExactly(c, ep, {Lease(store, c.parseIp(ep.address)), Lease(store, c.parseIp(ep.addressIPv6))});
  }

  /** So is a Calico endpoint whose addresses DANM disowns, in Calico's store. */
  lemma CalicoAttachmentIsSafe(c: Config, ep: DanmEp)
    requires CalicoClaims(c, ep, ep.address) && CalicoClaims(c, ep, ep.addressIPv6)
    ensures Safe(c, ep, {Lease(CalicoStore, c.parseIp(ep.address)), Lease(CalicoStore, c.parseIp(ep.addressIPv6))})
  {
    SafeExactly(c, ep, {Lease(CalicoStore, c.parseIp(ep.address)), Lease(CalicoStore, c.parseIp(ep.addressIPv6))});
  }

  ghost predicate AttachesSafe(c: Config, s: State) {
    && s.taken.Keys == s.recorded.Keys
    && forall key :: key in s.recorded ==> Safe(c, s.recorded[key], s.taken[key])
  }

  /** The worker has released this lease and not yet deleted the record that names it. */
  ghost predicate Past(c: Config, w: Worker, l: Lease) {
    || (!w.phase.ReleasingV4? && LeaseOf(c, w.ep, w.ep.address) == Some(l))
    || (w.phase.Deleting? && LeaseOf(c, w.ep, w.ep.addressIPv6) == Some(l))
  }

  /** The lease was taken for the record under `key`, and no worker is about to delete the record on account of an
      old release. */
  ghost predicate Holds(c: Config, s: State, key: Key, l: Lease) {
    && key in s.records && key in s.taken && l in s.taken[key]
    && (Deletable(c, s.records[key]) ==>
          forall w :: w in s.workers && Past(c, s.workers[w], l) ==> KeyOf(s.workers[w].ep) != key)
  }

  ghost predicate LeasesHeld(c: Config, s: State) {
    forall l :: l in s.leases ==> exists key :: Holds(c, s, key, l)
  }

  ghost predicate Inv(c: Config, s: State) {
    Consistent(c, s) && AttachesSafe(c, s) && LeasesHeld(c, s)
  }

  /** A worker that is past a lease that is still there was past it before the call. */
  lemma PastBefore(c: Config, s: State, w: nat, call: Call, v: nat, l: Lease)
    requires CallEnabled(c, s, w, call)
    requires var s' := ApplyCall(c, s, w, call);
             l in s.leases && l in s'.leases && v in s'.workers && Past(c, s'.workers[v], l)
    ensures v in s.workers && s.workers[v].ep == ApplyCall(c, s, w, call).workers[v].ep && Past(c, s.workers[v], l)
  {
    if v == w && call.Release? {
      assert LeaseOf(c, s.workers[w].ep, Address(s.workers[w])) != Some(l);
    }
  }

  /** A worker about to erase a record is past every lease that was taken for it, so that record holds none. */
  lemma EraserIsPast(c: Config, s: State, w: nat, call: Call, key: Key, l: Lease)
    requires Consistent(c, s) && AttachesSafe(c, s) && CallEnabled(c, s, w, call) && Erases(call)
    requires Holds(c, s, key, l)
    ensures KeyOf(s.workers[w].ep) != key
  {
    assert PhaseReached(c, s.workers[w]);
    assert Safe(c, s.recorded[key], s.taken[key]);
  }

  /** A record that holds a lease survives any call the lease survives. */
  lemma HolderSurvivesCall(c: Config, s: State, w: nat, call: Call, key: Key, l: Lease)
    requires Consistent(c, s) && AttachesSafe(c, s) && CallEnabled(c, s, w, call) && Holds(c, s, key, l)
    requires l in s.leases && l in ApplyCall(c, s, w, call).leases
    ensures Holds(c, ApplyCall(c, s, w, call), key, l)
  {
    var s' := ApplyCall(c, s, w, call);
    if Erases(call) {
      EraserIsPast(c, s, w, call, key, l);
    }
    assert key in s'.records && s'.records[key] == s.records[key] && s'.taken == s.taken;
    forall v | v in s'.workers && Past(c, s'.workers[v], l) && Deletable(c, s.records[key])
      ensures KeyOf(s'.workers[v].ep) != key
    {
      PastBefore(c, s, w, call, v, l);
    }
  }

  lemma HolderSurvivesEvent(c: Config, s: State, event: Event, key: Key, l: Lease)
    requires RecordsConsistent(s) && EventEnabled(s, event) && Holds(c, s, key, l)
    requires l in s.leases && l in ApplyEvent(s, event).leases
    ensures Holds(c, ApplyEvent(s, event), key, l)
  {
    var s' := ApplyEvent(s, event);
    assert s'.workers == s.workers;
    assert key in s.recorded;
    assert key in s'.records && s'.records[key] == s.records[key] && s'.taken[key] == s.taken[key];
  }

  /** The step attaches nothing unsafe. */
  ghost predicate StepSafe(c: Config, step: Step) {
    step.Outside? && step.event.Attached? ==> Safe(c, step.event.ep, step.event.leases)
  }

  lemma EventKeepsInv(c: Config, s: State, event: Event)
    requires Inv(c, s) && EventEnabled(s, event) && StepSafe(c, Outside(event))
    ensures Inv(c, ApplyEvent(s, event))
  {
    var s' := ApplyEvent(s, event);
    EventsKeepConsistency(c, s, event);
    forall l | l in s'.leases ensures exists key :: Holds(c, s', key, l) {
      if event.Attached? && l in event.leases {
        assert Holds(c, s', KeyOf(event.ep), l);
      } else {
        var key :| Holds(c, s, key, l);
        HolderSurvivesEvent(c, s, event, key, l);
      }
    }
  }

  lemma CallKeepsInv(c: Config, s: State, w: nat, call: Call)
    requires Inv(c, s) && CallEnabled(c, s, w, call)
    ensures Inv(c, ApplyCall(c, s, w, call))
  {
    var s' := ApplyCall(c, s, w, call);
    CallsKeepConsistency(c, s, w, call);
    forall l | l in s'.leases ensures exists key :: Holds(c, s', key, l) {
      assert l in s.leases;
      var key :| Holds(c, s, key, l);
      HolderSurvivesCall(c, s, w, call, key, l);
    }
  }

  lemma {:induction false} InvOverRuns(c: Config, steps: seq<Step>)
    requires forall step :: step in steps ==> StepSafe(c, step)
    ensures Inv(c, After(c, steps))
  {
    if steps != [] {
      var n := |steps| - 1;
      var s := After(c, steps[..n]);
      InvOverRuns(c, steps[..n]);
      if Enabled(c, s, steps[n]) {
        match steps[n]
        case Outside(event) => EventKeepsInv(c, s, event);
        case ByWorker(w, call) => CallKeepsInv(c, s, w, call);
      }
    }
  }

  /** Every lease there is was taken for some endpoint that is still on record. */
  ghost predicate NothingLeaks(s: State) {
    forall l :: l in s.leases ==> exists key :: key in s.records && key in s.taken && l in s.taken[key]
  }

  /** No leak: after any interleaving of workers, failures and lost replies, every leased address still has its
      endpoint record, provided addresses are held where deletion releases them. */
  lemma NoLeak(c: Config, steps: seq<Step>)
    requires forall step :: step in steps ==> StepSafe(c, step)
    ensures NothingLeaks(After(c, steps))
  {
    InvOverRuns(c, steps);
    forall l | l in After(c, steps).leases
      ensures exists key :: key in After(c, steps).records && key in After(c, steps).taken && l in After(c, steps).taken[key]
    {
      var key :| Holds(c, After(c, steps), key, l);
    }
  }

  /** An endpoint with the leases that are taken for it. */
  datatype Attachment = Attachment(ep: DanmEp, leases: set<Lease>)

  ghost predicate AttachesOnly(steps: seq<Step>, possible: iset<Attachment>) {
    forall step :: step in steps && step.Outside? && step.event.Attached?
                   ==> Attachment(step.event.ep, step.event.leases) in possible
  }

  /** The run in which a worker deletes the record of an unsafely attached endpoint leaks. */
  lemma UnsafeLeaks(c: Config, ep: DanmEp, leases: set<Lease>)
    requires !Safe(c, ep, leases)
    ensures !NothingLeaks(After(c, LifeOf(ep, leases) + [ByWorker(0, Delete)]))
  {
    LifeReaches(c, ep, leases);
    AfterOneMore(c, LifeOf(ep, leases), ByWorker(0, Delete));
    var l :| l in leases && l !in Leases(c, ep);
    var s := After(c, LifeOf(ep, leases) + [ByWorker(0, Delete)]);
    assert l in s.leases && s.records == map[];
  }

  /** Whatever attachments there can be, no run of them leaks exactly when each is safe: the leases are held where
      deletion releases them, or an address is without owner. */
  lemma NoLeakExactly(c: Config, possible: iset<Attachment>)
    ensures (forall steps :: AttachesOnly(steps, possible) ==> NothingLeaks(After(c, steps)))
            <==> (forall a :: a in possible ==> Safe(c, a.ep, a.leases))
  {
    if forall a :: a in possible ==> Safe(c, a.ep, a.leases) {
      forall steps | AttachesOnly(steps, possible) ensures NothingLeaks(After(c, steps)) {
        forall step | step in steps ensures StepSafe(c, step) {
          if step.Outside? && step.event.Attached? {
            assert Attachment(step.event.ep, step.event.leases) in possible;
          }
        }
        NoLeak(c, steps);
      }
    } else {
      var a :| a in possible && !Safe(c, a.ep, a.leases);
      UnsafeLeaks(c, a.ep, a.leases);
      var steps := LifeOf(a.ep, a.leases) + [ByWorker(0, Delete)];
      assert AttachesOnly(steps, possible);
    }
  }

  /** DANM takes the address of a Calico endpoint, which Calico holds, for its own, and the other address has an owner:
      the lease leaks. */
  lemma MisroutedLeaks(c: Config, ep: DanmEp)
    requires ep.networkType == "calico" && DanmClaims(c, ep, ep.address) && DanmClaims(c, ep, ep.addressIPv6)
    ensures var leases := {Lease(CalicoStore, c.parseIp(ep.address))};
            !NothingLeaks(After(c, LifeOf(ep, leases) + [ByWorker(0, Delete)]))
  {
    UnsafeLeaks(c, ep, {Lease(CalicoStore, c.parseIp(ep.address))});
  }

  // ---- Dead Pods stay dead ----

  /** A Pod with this UID existed and is gone. */
  predicate Dead(s: State, uid: string) {
    uid in s.born && uid !in s.pods
  }

  /** What is dead stays dead, what was recorded stays known, and a record once gone stays gone. */
  ghost predicate Remembers(s: State, later: State) {
    && (forall uid :: Dead(s, uid) ==> Dead(later, uid))
    && (forall key :: key in s.recorded ==> key in later.recorded && later.recorded[key] == s.recorded[key])
    && (forall key :: key in s.recorded && key !in s.records ==> key !in later.records)
  }

  lemma StepRemembers(c: Config, s: State, step: Step)
    ensures Remembers(s, Next(c, s, step))
  {
    if Enabled(c, s, step) {
      match step
      case Outside(event) =>
        assert forall key :: key in ApplyEvent(s, event).records ==> key in s.records || key !in s.recorded;
      case ByWorker(w, call) =>
        var s' := ApplyCall(c, s, w, call);
        assert s'.pods == s.pods && s'.born == s.born && s'.recorded == s.recorded;
        assert s'.records.Keys <= s.records.Keys;
    }
  }

  lemma {:induction false} RunRemembers(c: Config, steps: seq<Step>, k: nat)
    requires k <= |steps|
    ensures Remembers(After(c, steps[..k]), After(c, steps))
    decreases |steps|
  {
    if k == |steps| {
      assert steps[..k] == steps;
    } else {
      var n := |steps| - 1;
      assert steps[..n][..k] == steps[..k];
      RunRemembers(c, steps[..n], k);
      StepRemembers(c, After(c, steps[..n]), steps[n]);
    }
  }

  /** The Pod an endpoint belongs to is dead once the name it was recorded under is free or taken by another UID. */
  lemma AbsentMeansDead(c: Config, s: State, ep: DanmEp)
    requires Consistent(c, s) && KeyOf(ep) in s.recorded && s.recorded[KeyOf(ep)] == ep
    requires forall uid :: uid in s.pods && s.pods[uid] == PodId(ep.namespace, ep.pod) ==> uid != ep.podUid
    ensures Dead(s, ep.podUid)
  {
  }
}
