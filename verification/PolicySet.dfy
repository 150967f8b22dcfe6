/** The policy index: policies filed under the labels they select, and the lookup for one Pod. */
module PolicySet {
  import opened PolTypes

  type PolicyBuckets = map<string, seq<Policy>>

  /** Labels of a selector filed under `key`. */
  function LabelsFiled(labels: Labels, key: string): set<string> {
    set k | k in labels && LabelKey(k, labels[k]) == key
  }

  /** How often a policy is filed under `key`: once per label, or once in the default bucket. */
  function Copies(p: Policy, key: string): nat {
    match p.podSelector.asMap
    case None => 0
    case Some(labels) =>
      if labels == map[] then (if key == DEFAULT_BUCKET_NAME then 1 else 0) else |LabelsFiled(labels, key)|
  }

  function Repeat<T>(x: T, n: nat): (r: seq<T>)
    ensures |r| == n && forall i :: 0 <= i < n ==> r[i] == x
  {
    if n == 0 then [] else Repeat(x, n - 1) + [x]
  }

  /** What a scan of the policy list finds under `key`, in list order. */
  function PolicyBucket(pols: seq<Policy>, key: string): seq<Policy> {
    if pols == [] then
      []
    else
      var p := pols[|pols| - 1];
      PolicyBucket(pols[..|pols| - 1], key) + Repeat(p, Copies(p, key))
  }

  ghost predicate IsPolicyIndex(buckets: PolicyBuckets, pols: seq<Policy>) {
    forall key :: Bucket(buckets, key) == PolicyBucket(pols, key)
  }

  /** A policy is filed once per label of its selector, in whatever order the labels are visited. */
  method SortPoliciesIntoBuckets(netPols: seq<Policy>) returns (buckets: PolicyBuckets)
    ensures IsPolicyIndex(buckets, netPols)
  {
    buckets := map[];
    for i := 0 to |netPols|
      invariant IsPolicyIndex(buckets, netPols[..i])
    {
      var p := netPols[i];
      assert netPols[..i + 1][..i] == netPols[..i];
      if p.podSelector.asMap.None? {
        continue;
      }
      var selectors := p.podSelector.asMap.value;
      if |selectors| == 0 {
        buckets := buckets[DEFAULT_BUCKET_NAME := Bucket(buckets, DEFAULT_BUCKET_NAME) + [p]];
      } else {
        ghost var before := buckets;
        buckets := FileUnderLabels(buckets, p, selectors);
        forall key ensures Bucket(buckets, key) == PolicyBucket(netPols[..i + 1], key) {
          assert selectors.Keys * LabelsFiled(selectors, key) == LabelsFiled(selectors, key);
        }
      }
    }
    assert netPols[..|netPols|] == netPols;
  }

  /** `buckets` is `before` with `p` added once for each of the labels in `done`. */
  ghost predicate FiledUnder(
    buckets: PolicyBuckets, before: PolicyBuckets, p: Policy, selectors: Labels, done: set<string>)
  {
    forall key :: Bucket(buckets, key) == Bucket(before, key) + Repeat(p, |done * LabelsFiled(selectors, key)|)
  }

  lemma FileOneMore(
    buckets: PolicyBuckets, before: PolicyBuckets, p: Policy, selectors: Labels, done: set<string>, k: string)
    requires FiledUnder(buckets, before, p, selectors, done)
    requires k in selectors && k !in done
    ensures var bucket := LabelKey(k, selectors[k]);
            FiledUnder(buckets[bucket := Bucket(buckets, bucket) + [p]], before, p, selectors, done + {k})
  {
    var bucket := LabelKey(k, selectors[k]);
    var buckets' := buckets[bucket := Bucket(buckets, bucket) + [p]];
    forall key
      ensures Bucket(buckets', key) == Bucket(before, key) + Repeat(p, |(done + {k}) * LabelsFiled(selectors, key)|)
    {
      assert Bucket(buckets', key) == Bucket(buckets, key) + (if key == bucket then [p] else []);
      FileUnderKey(Bucket(buckets, key), Bucket(before, key), p, selectors, done, k, key);
    }
  }

  lemma FileUnderKey(
    bucket: seq<Policy>, before: seq<Policy>, p: Policy, selectors: Labels, done: set<string>, k: string, key: string)
    requires k in selectors && k !in done
    requires bucket == before + Repeat(p, |done * LabelsFiled(selectors, key)|)
    ensures bucket + (if key == LabelKey(k, selectors[k]) then [p] else [])
            == before + Repeat(p, |(done + {k}) * LabelsFiled(selectors, key)|)
  {
    FilingCount(selectors, done, k, key);
    RepeatOneMore(before, p, |done * LabelsFiled(selectors, key)|);
  }

  lemma RepeatOneMore<T>(before: seq<T>, x: T, n: nat)
    ensures before + Repeat(x, n) + [x] == before + Repeat(x, n + 1)
  {
  }

  lemma FilingCount(selectors: Labels, done: set<string>, k: string, key: string)
    requires k in selectors && k !in done
    ensures |(done + {k}) * LabelsFiled(selectors, key)|
            == |done * LabelsFiled(selectors, key)| + (if key == LabelKey(k, selectors[k]) then 1 else 0)
  {
    var filed := LabelsFiled(selectors, key);
    if key == LabelKey(k, selectors[k]) {
      assert (done + {k}) * filed == done * filed + {k};
    } else {
      assert (done + {k}) * filed == done * filed;
    }
  }

  /** The inner loop: append `p` to the bucket of each of its labels. */
  method FileUnderLabels(before: PolicyBuckets, p: Policy, selectors: Labels) returns (buckets: PolicyBuckets)
    ensures FiledUnder(buckets, before, p, selectors, selectors.Keys)
  {
    buckets := before;
    var rest := selectors.Keys;
    while rest != {}
      invariant rest <= selectors.Keys
      invariant FiledUnder(buckets, before, p, selectors, selectors.Keys - rest)
    {
      var k :| k in rest;
      var bucket := LabelKey(k, selectors[k]);
      FileOneMore(buckets, before, p, selectors, selectors.Keys - rest, k);
      assert selectors.Keys - (rest - {k}) == selectors.Keys - rest + {k};
      buckets := buckets[bucket := Bucket(buckets, bucket) + [p]];
      rest := rest - {k};
    }
    assert selectors.Keys - rest == selectors.Keys;
  }

  /** The policies a lookup visits for a Pod: those under one of its labels and the default ones. */
  ghost predicate Visited(buckets: PolicyBuckets, pod: Pod, p: Policy) {
    || p in Bucket(buckets, DEFAULT_BUCKET_NAME)
    || exists k :: k in pod.labels && p in Bucket(buckets, LabelKey(k, pod.labels[k]))
  }

  function PolicyUids(pols: seq<Policy>): set<string> {
    set p | p in pols :: p.uid
  }

  ghost predicate DistinctUids(pols: seq<Policy>) {
    forall i, j :: 0 <= i < j < |pols| ==> pols[i].uid != pols[j].uid
  }

  /** The first policy of each UID, appended to those already collected. */
  function WithoutDupes(applicable: seq<Policy>, policies: seq<Policy>): seq<Policy>
    decreases |policies|
  {
    if policies == [] then
      applicable
    else if policies[0].uid in PolicyUids(applicable) then
      WithoutDupes(applicable, policies[1..])
    else
      WithoutDupes(applicable + [policies[0]], policies[1..])
  }

  lemma {:induction false} WithoutDupesCollects(applicable: seq<Policy>, policies: seq<Policy>)
    ensures var r := WithoutDupes(applicable, policies);
            && (DistinctUids(applicable) ==> DistinctUids(r))
            && (forall p :: p in r ==> p in applicable || p in policies)
            && PolicyUids(r) == PolicyUids(applicable) + PolicyUids(policies)
    decreases |policies|
  {
    if policies != [] {
      var p := policies[0];
      assert policies == [p] + policies[1..];
      assert PolicyUids(applicable + [p]) == PolicyUids(applicable) + {p.uid};
      WithoutDupesCollects(if p.uid in PolicyUids(applicable) then applicable else applicable + [p], policies[1..]);
    }
  }

  method FilterPoliciesWithoutDupes(policies: seq<Policy>, applicable: seq<Policy>, uidCache: set<string>)
    returns (applicable': seq<Policy>, uidCache': set<string>)
    requires uidCache == PolicyUids(applicable)
    ensures applicable' == WithoutDupes(applicable, policies)
    ensures uidCache' == PolicyUids(applicable')
  {
    applicable', uidCache' := applicable, uidCache;
    for i := 0 to |policies|
      invariant uidCache' == PolicyUids(applicable')
      invariant WithoutDupes(applicable', policies[i..]) == WithoutDupes(applicable, policies)
    {
      var p := policies[i];
      assert policies[i..][1..] == policies[i + 1..];
      if p.uid !in uidCache' {
        uidCache' := uidCache' + {p.uid};
        applicable' := applicable' + [p];
        assert PolicyUids(applicable') == uidCache';
      }
    }
  }

  method FilterApplicablePolicies(buckets: PolicyBuckets, pod: Pod) returns (applicable: seq<Policy>)
    ensures DistinctUids(applicable)
    ensures forall p :: p in applicable ==> Visited(buckets, pod, p)
    ensures forall p :: Visited(buckets, pod, p) ==> p.uid in PolicyUids(applicable)
  {
    var uidCache: set<string>;
    applicable, uidCache := [], {};
    var rest := pod.labels.Keys;
    while rest != {}
      invariant rest <= pod.labels.Keys
      invariant uidCache == PolicyUids(applicable) && DistinctUids(applicable)
      invariant forall p :: p in applicable ==> Visited(buckets, pod, p)
      invariant forall k, p :: k in pod.labels.Keys - rest && p in Bucket(buckets, LabelKey(k, pod.labels[k]))
                               ==> p.uid in uidCache
    {
      var k :| k in rest;
      var key := LabelKey(k, pod.labels[k]);
      if key in buckets {
        WithoutDupesCollects(applicable, buckets[key]);
        applicable, uidCache := FilterPoliciesWithoutDupes(buckets[key], applicable, uidCache);
      }
      rest := rest - {k};
    }
    if DEFAULT_BUCKET_NAME in buckets {
      WithoutDupesCollects(applicable, buckets[DEFAULT_BUCKET_NAME]);
      applicable, uidCache := FilterPoliciesWithoutDupes(buckets[DEFAULT_BUCKET_NAME], applicable, uidCache);
    }
  }

  /** A policy applies to a Pod: its selector is readable, and is empty or meets the Pod's labels. */
  ghost predicate Applies(rd: Reading, p: Policy, pod: Pod) {
    Selects(rd, p.podSelector, pod.labels)
  }

  /** `applicable` holds one policy of every UID that a scan of `pols` selects for the Pod, and nothing else. */
  ghost predicate IsApplicable(applicable: seq<Policy>, pols: seq<Policy>, pod: Pod) {
    && DistinctUids(applicable)
    && (forall p :: p in applicable ==> p in pols && Applies(ByKey, p, pod))
    && (forall p :: p in pols && Applies(ByKey, p, pod) ==> p.uid in PolicyUids(applicable))
  }

  lemma {:induction false} PolicyBucketMembers(pols: seq<Policy>, key: string, p: Policy)
    ensures p in PolicyBucket(pols, key) <==> p in pols && Copies(p, key) > 0
  {
    if pols != [] {
      var n := |pols| - 1;
      PolicyBucketMembers(pols[..n], key, p);
      assert pols == pols[..n] + [pols[n]];
      assert p in Repeat(pols[n], Copies(pols[n], key)) <==> p == pols[n] && Copies(p, key) > 0 by {
        var copies := Repeat(pols[n], Copies(pols[n], key));
        assert |copies| > 0 ==> copies[0] == pols[n];
      }
    }
  }

  /** The index visits exactly the policies a scan selects. */
  lemma VisitedIsSelected(pols: seq<Policy>, buckets: PolicyBuckets, pod: Pod, p: Policy)
    requires IsPolicyIndex(buckets, pols)
    ensures Visited(buckets, pod, p) <==> p in pols && Applies(ByKey, p, pod)
  {
    assert p in Bucket(buckets, DEFAULT_BUCKET_NAME) <==> p in pols && Copies(p, DEFAULT_BUCKET_NAME) > 0 by {
      PolicyBucketMembers(pols, DEFAULT_BUCKET_NAME, p);
    }
    forall k | k in pod.labels
      ensures p in Bucket(buckets, LabelKey(k, pod.labels[k]))
              <==> p in pols && Copies(p, LabelKey(k, pod.labels[k])) > 0
    {
      PolicyBucketMembers(pols, LabelKey(k, pod.labels[k]), p);
    }
    CopiesMeanSelected(p, pod);
  }

  lemma CopiesMeanSelected(p: Policy, pod: Pod)
    ensures Applies(ByKey, p, pod) <==>
            || Copies(p, DEFAULT_BUCKET_NAME) > 0
            || exists k :: k in pod.labels && Copies(p, LabelKey(k, pod.labels[k])) > 0
  {
    forall k, v ensures LabelKey(k, v) != DEFAULT_BUCKET_NAME {
      LabelKeyIsNotDefault(k, v);
    }
    if p.podSelector.asMap.Some? && p.podSelector.asMap.value != map[] {
      var labels := p.podSelector.asMap.value;
      assert LabelsFiled(labels, DEFAULT_BUCKET_NAME) == {};
      if KeysMeet(labels, pod.labels) {
        var l, k :| l in labels && k in pod.labels && LabelKey(l, labels[l]) == LabelKey(k, pod.labels[k]);
        assert l in LabelsFiled(labels, LabelKey(k, pod.labels[k]));
      }
      forall k | k in pod.labels && Copies(p, LabelKey(k, pod.labels[k])) > 0
        ensures KeysMeet(labels, pod.labels)
      {
        var l :| l in LabelsFiled(labels, LabelKey(k, pod.labels[k]));
        assert LabelKey(l, labels[l]) == LabelKey(k, pod.labels[k]);
      }
    }
  }

  /** The two stages together: index the list, then look the Pod up. */
  method ApplicablePolicies(pols: seq<Policy>, pod: Pod) returns (applicable: seq<Policy>)
    ensures IsApplicable(applicable, pols, pod)
  {
    var buckets := SortPoliciesIntoBuckets(pols);
    applicable := FilterApplicablePolicies(buckets, pod);
    forall p ensures Visited(buckets, pod, p) <==> p in pols && Applies(ByKey, p, pod) {
      VisitedIsSelected(pols, buckets, pod, p);
    }
  }

  /** With UIDs identifying policies, the result is the scan's, whatever the order of visits. */
  lemma ApplicableIsScan(applicable: seq<Policy>, pols: seq<Policy>, pod: Pod)
    requires IsApplicable(applicable, pols, pod) && PoliciesIdentified(pols)
    ensures ToSet(applicable) == set p | p in pols && Applies(ByKey, p, pod)
    ensures applicable == [] <==> forall p :: p in pols ==> !Applies(ByKey, p, pod)
  {
    forall p | p in pols && Applies(ByKey, p, pod) ensures p in applicable {
      assert p.uid in PolicyUids(applicable);
      var q :| q in applicable && q.uid == p.uid;
      assert q == p;
    }
    if applicable != [] {
      assert applicable[0] in applicable;
    }
  }
}
