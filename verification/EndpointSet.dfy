/** The endpoint index: endpoint records filed by label and by network, and the Pod's own endpoints. */
module EndpointSet {
  import opened PolTypes

  type EndpointBuckets = map<string, seq<DanmEp>>
  type UidCaches = map<string, set<string>>

  datatype DanmEpSet = DanmEpSet(byLabel: EndpointBuckets, byNetwork: EndpointBuckets, podEps: seq<DanmEp>)

  /** What the index is when the endpoint list could not be read. */
  const EMPTY_SET := DanmEpSet(map[], map[], [])

  /** One of the labels named in `done` files the endpoint under `key`. */
  predicate FiledBy(d: DanmEp, done: set<string>, key: string) {
    exists k | k in d.labels :: k in done && LabelKey(k, d.labels[k]) == key
  }

  predicate Filed(d: DanmEp, key: string) {
    FiledBy(d, d.labels.Keys, key)
  }

  function Uids(eps: seq<DanmEp>): set<string> {
    set d | d in eps :: d.uid
  }

  /** A scan for `key`: the endpoints filed under it, in list order, the first of each UID only. */
  function LabelBucket(eps: seq<DanmEp>, key: string): seq<DanmEp> {
    if eps == [] then
      []
    else
      var before, d := LabelBucket(eps[..|eps| - 1], key), eps[|eps| - 1];
      if Filed(d, key) && d.uid !in Uids(before) then before + [d] else before
  }

  /** The endpoints with property `keep`, in list order. */
  function Filter(eps: seq<DanmEp>, keep: DanmEp -> bool): seq<DanmEp> {
    if eps == [] then
      []
    else
      var before, d := Filter(eps[..|eps| - 1], keep), eps[|eps| - 1];
      if keep(d) then before + [d] else before
  }

  function NetworkBucket(eps: seq<DanmEp>, key: string): seq<DanmEp> {
    if eps == [] then
      []
    else
      var before, d := NetworkBucket(eps[..|eps| - 1], key), eps[|eps| - 1];
      if NetworkKey(d.networkName, d.apiType) == key then before + [d] else before
  }

  function OwnEndpoints(eps: seq<DanmEp>, podUid: string): seq<DanmEp> {
    if eps == [] then
      []
    else
      var before, d := OwnEndpoints(eps[..|eps| - 1], podUid), eps[|eps| - 1];
      if d.podUid == podUid then before + [d] else before
  }

  ghost predicate IsLabelIndex(buckets: EndpointBuckets, eps: seq<DanmEp>) {
    forall key :: Bucket(buckets, key) == LabelBucket(eps, key)
  }

  ghost predicate IsNetworkIndex(buckets: EndpointBuckets, eps: seq<DanmEp>) {
    forall key :: Bucket(buckets, key) == NetworkBucket(eps, key)
  }

  ghost predicate IsEndpointIndex(depSet: DanmEpSet, eps: seq<DanmEp>, pod: Pod) {
    && IsLabelIndex(depSet.byLabel, eps)
    && IsNetworkIndex(depSet.byNetwork, eps)
    && depSet.podEps == OwnEndpoints(eps, pod.uid)
  }

  function CacheAt(caches: UidCaches, key: string): set<string> {
    if key in caches then caches[key] else {}
  }

  /** The caches hold the UIDs of the label buckets. */
  ghost predicate CachesMatch(caches: UidCaches, buckets: EndpointBuckets) {
    forall key :: CacheAt(caches, key) == Uids(Bucket(buckets, key))
  }

  /** `buckets` is `before` with `d` appended wherever one of the labels in `done` files it for the first time. */
  ghost predicate AppendedOnce(buckets: EndpointBuckets, before: EndpointBuckets, d: DanmEp, done: set<string>) {
    forall key :: Bucket(buckets, key)
                  == Bucket(before, key) + (if FiledBy(d, done, key) && d.uid !in Uids(Bucket(before, key)) then [d] else [])
  }

  lemma AppendOneMore(
    buckets: EndpointBuckets, before: EndpointBuckets, d: DanmEp, done: set<string>, k: string,
    buckets': EndpointBuckets)
    requires AppendedOnce(buckets, before, d, done) && k in d.labels
    requires var key := LabelKey(k, d.labels[k]);
             buckets' == if d.uid in Uids(Bucket(buckets, key)) then buckets
                         else buckets[key := Bucket(buckets, key) + [d]]
    ensures AppendedOnce(buckets', before, d, done + {k})
  {
    var filedUnder := LabelKey(k, d.labels[k]);
    forall key
      ensures Bucket(buckets', key)
              == Bucket(before, key)
                 + (if FiledBy(d, done + {k}, key) && d.uid !in Uids(Bucket(before, key)) then [d] else [])
    {
      assert FiledBy(d, done + {k}, key) <==> FiledBy(d, done, key) || key == filedUnder;
      assert Bucket(buckets, key)
             == Bucket(before, key) + (if FiledBy(d, done, key) && d.uid !in Uids(Bucket(before, key)) then [d] else []);
    }
  }

  lemma CacheOneMore(caches: UidCaches, buckets: EndpointBuckets, d: DanmEp, key: string)
    requires CachesMatch(caches, buckets)
    ensures CachesMatch(caches[key := CacheAt(caches, key) + {d.uid}], buckets[key := Bucket(buckets, key) + [d]])
  {
    assert CacheAt(caches, key) == Uids(Bucket(buckets, key));
    var buckets' := buckets[key := Bucket(buckets, key) + [d]];
    var caches' := caches[key := CacheAt(caches, key) + {d.uid}];
    forall other ensures CacheAt(caches', other) == Uids(Bucket(buckets', other)) {
      assert CacheAt(caches, other) == Uids(Bucket(buckets, other));
    }
  }

  /** The inner loop: file `d` under each of its labels, unless its UID is already there. */
  method FileUnderLabels(d: DanmEp, before: EndpointBuckets, cachesBefore: UidCaches)
    returns (buckets: EndpointBuckets, caches: UidCaches)
    requires CachesMatch(cachesBefore, before)
    ensures AppendedOnce(buckets, before, d, d.labels.Keys)
    ensures CachesMatch(caches, buckets)
  {
    buckets, caches := before, cachesBefore;
    var rest := d.labels.Keys;
    while rest != {}
      invariant rest <= d.labels.Keys
      invariant AppendedOnce(buckets, before, d, d.labels.Keys - rest)
      invariant CachesMatch(caches, buckets)
    {
      var k :| k in rest;
      var key := LabelKey(k, d.labels[k]);
      ghost var was, cachesWere := buckets, caches;
      assert CacheAt(caches, key) == Uids(Bucket(buckets, key));
      if d.uid !in CacheAt(caches, key) {
        if key !in caches {
          caches := caches[key := {}];
        }
        caches := caches[key := caches[key] + {d.uid}];
        buckets := buckets[key := Bucket(buckets, key) + [d]];
        assert caches == cachesWere[key := CacheAt(cachesWere, key) + {d.uid}];
        CacheOneMore(cachesWere, was, d, key);
      }
      AppendOneMore(was, before, d, d.labels.Keys - rest, k, buckets);
      assert d.labels.Keys - (rest - {k}) == d.labels.Keys - rest + {k};
      rest := rest - {k};
    }
    assert d.labels.Keys - rest == d.labels.Keys;
  }

  lemma NetworkOneMore(byNetwork: EndpointBuckets, eps: seq<DanmEp>, d: DanmEp)
    requires IsNetworkIndex(byNetwork, eps)
    ensures var bucket := NetworkKey(d.networkName, d.apiType);
            IsNetworkIndex(byNetwork[bucket := Bucket(byNetwork, bucket) + [d]], eps + [d])
  {
    assert (eps + [d])[..|eps|] == eps;
    var bucket := NetworkKey(d.networkName, d.apiType);
    var byNetwork' := byNetwork[bucket := Bucket(byNetwork, bucket) + [d]];
    forall key ensures Bucket(byNetwork', key) == NetworkBucket(eps + [d], key) {
      assert Bucket(byNetwork, key) == NetworkBucket(eps, key);
    }
  }

  lemma LabelOneMore(byLabel': EndpointBuckets, byLabel: EndpointBuckets, eps: seq<DanmEp>, d: DanmEp)
    requires IsLabelIndex(byLabel, eps) && AppendedOnce(byLabel', byLabel, d, d.labels.Keys)
    ensures IsLabelIndex(byLabel', eps + [d])
  {
    assert (eps + [d])[..|eps|] == eps;
    forall key ensures Bucket(byLabel', key) == LabelBucket(eps + [d], key) {
      assert Bucket(byLabel, key) == LabelBucket(eps, key);
    }
  }

  method SortDeps(eps: seq<DanmEp>, pod: Pod) returns (depSet: DanmEpSet)
    ensures IsEndpointIndex(depSet, eps, pod)
  {
    var byLabel: EndpointBuckets, byNetwork: EndpointBuckets := map[], map[];
    var caches: UidCaches := map[];
    var podEps := [];
    for i := 0 to |eps|
      invariant podEps == OwnEndpoints(eps[..i], pod.uid)
      invariant IsNetworkIndex(byNetwork, eps[..i])
      invariant IsLabelIndex(byLabel, eps[..i])
      invariant CachesMatch(caches, byLabel)
    {
      var d := eps[i];
      assert eps[..i + 1] == eps[..i] + [d] && (eps[..i] + [d])[..i] == eps[..i];
      if d.podUid == pod.uid {
        podEps := podEps + [d];
      }
      var bucket := NetworkKey(d.networkName, d.apiType);
      NetworkOneMore(byNetwork, eps[..i], d);
      byNetwork := byNetwork[bucket := Bucket(byNetwork, bucket) + [d]];
      ghost var before := byLabel;
      byLabel, caches := FileUnderLabels(d, byLabel, caches);
      LabelOneMore(byLabel, before, eps[..i], d);
    }
    assert eps[..|eps|] == eps;
    depSet := DanmEpSet(byLabel, byNetwork, podEps);
  }

  /** The index a listing yields; an unreadable list gives the empty index. */
  method NewDanmEpSet(listed: Option<seq<DanmEp>>, pod: Pod) returns (depSet: DanmEpSet)
    ensures listed.None? ==> depSet == EMPTY_SET
    ensures listed.Some? ==> IsEndpointIndex(depSet, listed.value, pod)
  {
    if listed.None? {
      depSet := EMPTY_SET;
    } else {
      depSet := SortDeps(listed.value, pod);
    }
  }

  // ---- The index agrees with a scan ----

  lemma {:induction false} LabelBucketMembers(eps: seq<DanmEp>, key: string)
    ensures forall d :: d in LabelBucket(eps, key) ==> d in eps && Filed(d, key)
    ensures forall d :: d in eps && Filed(d, key) ==> d.uid in Uids(LabelBucket(eps, key))
    ensures forall i, j :: 0 <= i < j < |LabelBucket(eps, key)| ==> LabelBucket(eps, key)[i].uid != LabelBucket(eps, key)[j].uid
  {
    if eps != [] {
      var n := |eps| - 1;
      LabelBucketMembers(eps[..n], key);
      assert eps == eps[..n] + [eps[n]];
      var before := LabelBucket(eps[..n], key);
      assert Uids(before + [eps[n]]) == Uids(before) + {eps[n].uid};
    }
  }

  /** With UIDs that appear once in the list, a label bucket is the plain order-preserving filter. */
  lemma {:induction false} LabelBucketIsFilter(eps: seq<DanmEp>, key: string)
    requires forall i, j :: 0 <= i < j < |eps| ==> eps[i].uid != eps[j].uid
    ensures LabelBucket(eps, key) == Filter(eps, (d: DanmEp) => Filed(d, key))
  {
    if eps != [] {
      var n := |eps| - 1;
      LabelBucketIsFilter(eps[..n], key);
      LabelBucketMembers(eps[..n], key);
      assert eps[n].uid !in Uids(LabelBucket(eps[..n], key));
    }
  }

  lemma {:induction false} NetworkBucketMembers(eps: seq<DanmEp>, key: string, d: DanmEp)
    ensures d in NetworkBucket(eps, key) <==> d in eps && NetworkKey(d.networkName, d.apiType) == key
  {
    if eps != [] {
      var n := |eps| - 1;
      NetworkBucketMembers(eps[..n], key, d);
      assert eps == eps[..n] + [eps[n]];
    }
  }

  /** The network buckets partition the list: every record is in its own bucket as often as in the list,
      and in no other. */
  lemma {:induction false} NetworkBucketsPartition(eps: seq<DanmEp>, key: string, d: DanmEp)
    ensures multiset(NetworkBucket(eps, key))[d]
            == if key == NetworkKey(d.networkName, d.apiType) then multiset(eps)[d] else 0
  {
    if eps != [] {
      var n := |eps| - 1;
      NetworkBucketsPartition(eps[..n], key, d);
      assert eps == eps[..n] + [eps[n]];
    }
  }

  lemma {:induction false} OwnEndpointsMembers(eps: seq<DanmEp>, podUid: string)
    ensures OwnEndpoints(eps, podUid) == Filter(eps, (d: DanmEp) => d.podUid == podUid)
    ensures forall d :: d in OwnEndpoints(eps, podUid) <==> d in eps && d.podUid == podUid
  {
    if eps != [] {
      var n := |eps| - 1;
      OwnEndpointsMembers(eps[..n], podUid);
      assert eps == eps[..n] + [eps[n]];
    }
  }

  /** The first of the Pod's endpoints is the first record of the list with its UID. */
  lemma {:induction false} OwnEndpointsFirst(eps: seq<DanmEp>, podUid: string)
    ensures OwnEndpoints(eps, podUid) != [] ==>
              exists j :: 0 <= j < |eps| && eps[j].podUid == podUid && eps[j] == OwnEndpoints(eps, podUid)[0]
                          && forall k :: 0 <= k < j ==> eps[k].podUid != podUid
  {
    if eps != [] {
      var n := |eps| - 1;
      OwnEndpointsFirst(eps[..n], podUid);
      OwnEndpointsMembers(eps[..n], podUid);
      if OwnEndpoints(eps[..n], podUid) != [] {
        var j :| 0 <= j < n && eps[..n][j].podUid == podUid && eps[..n][j] == OwnEndpoints(eps[..n], podUid)[0]
                 && forall k :: 0 <= k < j ==> eps[..n][k].podUid != podUid;
        assert eps[j] == eps[..n][j] && forall k :: 0 <= k < j ==> eps[k] == eps[..n][k];
      } else if OwnEndpoints(eps, podUid) != [] {
        assert forall k :: 0 <= k < n ==> eps[k] == eps[..n][k] && eps[..n][k] in eps[..n];
        assert eps[n].podUid == podUid && eps[n] == OwnEndpoints(eps, podUid)[0];
      }
    }
  }

  /** Membership in the label index, with UIDs identifying records. */
  lemma {:induction false} LabelBucketIsScan(eps: seq<DanmEp>, key: string)
    requires EndpointsIdentified(eps)
    ensures forall d :: d in LabelBucket(eps, key) <==> d in eps && Filed(d, key)
  {
    LabelBucketMembers(eps, key);
    forall d | d in eps && Filed(d, key) ensures d in LabelBucket(eps, key) {
      var e :| e in LabelBucket(eps, key) && e.uid == d.uid;
      assert e == d;
    }
  }
}
