/** Under which keys a pod is found and what is found there, stated on the fields of
    the pod. */
module PodKeys {
  import opened Options
  import opened Strings
  import opened PodIndex

  // ---- Container references ----

  /** ref is how a runtime writes the container ID cid: "containerd://4f1c", or bare. */
  ghost predicate Refers(ref: string, cid: string) {
    || ('/' !in cid && exists runtime: string :: ref == runtime + "//" + cid)
    || (ref == cid && forall i :: 0 <= i < |ref| - 1 ==> !(ref[i] == ref[i + 1] == '/'))
  }

  lemma {:induction false} NoPair(ref: string)
    requires forall i :: 0 <= i < |ref| - 1 ==> !(ref[i] == ref[i + 1] == '/')
    ensures forall i :: 0 <= i ==> !OccursAt(ref, i, "//")
  {
    forall i | 0 <= i && i + 2 <= |ref|
      ensures !OccursAt(ref, i, "//")
    {
      assert ref[i..i + 2][0] == ref[i] && ref[i..i + 2][1] == ref[i + 1];
    }
  }

  lemma {:induction false} LastPair(runtime: string, cid: string)
    requires '/' !in cid
    ensures LastIndex(runtime + "//" + cid, "//") == Some(|runtime|)
  {
    var ref, n := runtime + "//" + cid, |runtime|;
    assert OccursAt(ref, n, "//");
    forall i | n < i <= |ref|
      ensures !OccursAt(ref, i, "//")
    {
      if i + 2 <= |ref| {
        assert ref[i..i + 2][1] == cid[i + 1 - (n + 2)];
      }
    }
  }

  /** Whatever the runtime, its prefix goes, and the container ID stays. */
  lemma {:induction false} StripLeavesId(ref: string, cid: string)
    requires Refers(ref, cid)
    ensures StripRuntimePrefix(ref) == cid
  {
    if '/' !in cid && exists runtime: string :: ref == runtime + "//" + cid {
      var runtime: string :| ref == runtime + "//" + cid;
      LastPair(runtime, cid);
    } else {
      NoPair(ref);
    }
    hide OccursAt;
  }

  /** ids are the container IDs behind the references of the pod, in order. */
  ghost predicate Names(pod: Pod, ids: seq<string>) {
    var refs := pod.containers + pod.inits;
    |ids| == |refs| && forall i :: 0 <= i < |refs| ==> Refers(refs[i], ids[i])
  }

  /** Its UID, with dashes or underscores, and each container ID, whole or cut to
      twelve characters. */
  ghost predicate KeyOf(k: string, pod: Pod, ids: seq<string>) {
    || k == pod.uid
    || k == Replace(pod.uid, '-', '_')
    || exists i :: 0 <= i < |ids| && ids[i] != "" && (k == ids[i] || (|ids[i]| >= 12 && k == ids[i][..12]))
  }

  lemma {:induction false} KeysAreThese(pod: Pod, ids: seq<string>, k: string)
    requires Names(pod, ids)
    ensures k in KeysOf(pod) <==> KeyOf(k, pod, ids)
  {
    hide Refers, StripRuntimePrefix;
    var refs := pod.containers + pod.inits;
    forall i | 0 <= i < |refs|
      ensures StripRuntimePrefix(refs[i]) == ids[i]
    {
      StripLeavesId(refs[i], ids[i]);
    }
    ContainerKeyOrigin(pod.containers, k);
    ContainerKeyOrigin(pod.inits, k);
    if i :| 0 <= i < |ids| && k in ContainerKeys(refs[i]) {
      assert refs[i] in pod.containers || refs[i] in pod.inits;
    }
    if r :| (r in pod.containers || r in pod.inits) && k in ContainerKeys(r) {
      assert r in refs;
      var i :| 0 <= i < |refs| && refs[i] == r;
      assert k in ContainerKeys(refs[i]);
    }
  }

  /** Main result: after a pod was added exactly these keys lead to it, after it was
      removed none of them leads anywhere, and no other key is touched. */
  lemma {:induction false} KeysComeAndGo(ix: Indexes, pod: Pod, ids: seq<string>, k: string)
    requires Names(pod, ids)
    ensures var added, removed := Added(ix, pod), Removed(ix, pod);
            && (k in added.cgroups <==> k in ix.cgroups || KeyOf(k, pod, ids))
            && (KeyOf(k, pod, ids) ==> added.cgroups[k] == PodInfoOf(pod))
            && (k in ix.cgroups && !KeyOf(k, pod, ids) ==> added.cgroups[k] == ix.cgroups[k])
            && (k in removed.cgroups <==> k in ix.cgroups && !KeyOf(k, pod, ids))
            && (k in removed.cgroups ==> removed.cgroups[k] == ix.cgroups[k])
            && added.uids == ix.uids[pod.uid := PodInfoOf(pod)]
            && removed.uids == ix.uids - {pod.uid}
  {
    KeysAreThese(pod, ids, k);
    hide KeysOf, KeyOf, Names, PodInfoOf;
  }

  /** So a pod is found by the ID of any container a runtime reports for it, and by its
      first twelve characters; and no longer once it is gone. */
  lemma {:induction false} FoundByContainer(ix: Indexes, pod: Pod, runtime: string, cid: string)
    requires '/' !in cid && cid != "" && runtime + "//" + cid in pod.containers + pod.inits
    ensures var added, removed := Added(ix, pod).cgroups, Removed(ix, pod).cgroups;
            && cid in added && added[cid] == PodInfoOf(pod) && cid !in removed
            && (|cid| >= 12 ==> cid[..12] in added && added[cid[..12]] == PodInfoOf(pod) && cid[..12] !in removed)
  {
    hide StripRuntimePrefix, PodInfoOf;
    var ref := runtime + "//" + cid;
    StripLeavesId(ref, cid);
    ContainerKeyOrigin(pod.containers, cid);
    ContainerKeyOrigin(pod.inits, cid);
    if |cid| >= 12 {
      ContainerKeyOrigin(pod.containers, cid[..12]);
      ContainerKeyOrigin(pod.inits, cid[..12]);
    }
  }

  // ---- What is found ----

  /** The first owner that is a ReplicaSet is number i. */
  predicate FirstReplicaSetIs(owners: seq<OwnerRef>, i: nat) {
    && i < |owners| && owners[i].kind == "ReplicaSet"
    && forall j :: 0 <= j < i ==> owners[j].kind != "ReplicaSet"
  }

  lemma {:induction false} FirstReplicaSetAt(owners: seq<OwnerRef>, i: nat)
    requires FirstReplicaSetIs(owners, i)
    ensures FirstReplicaSet(owners) == ExtractDeploymentName(owners[i].name)
  {
    hide ExtractDeploymentName;
    if i > 0 {
      FirstReplicaSetAt(owners[1..], i - 1);
    }
  }

  lemma {:induction false} NoReplicaSet(owners: seq<OwnerRef>)
    requires forall j :: 0 <= j < |owners| ==> owners[j].kind != "ReplicaSet"
    ensures FirstReplicaSet(owners) == ""
  {
    if owners != [] {
      NoReplicaSet(owners[1..]);
    }
  }

  /** The last dash and what follows it is cut off, unless nothing stands before it. */
  lemma {:induction false} HashIsCutOff(deployment: string, hash: string)
    requires '-' !in hash
    ensures ExtractDeploymentName(deployment + "-" + hash) == if deployment == "" then "-" + hash else deployment
    ensures ExtractDeploymentName(hash) == hash
  {
    var name, n := deployment + "-" + hash, |deployment|;
    assert OccursAt(name, n, "-");
    forall i | n < i <= |name|
      ensures !OccursAt(name, i, "-")
    {
      if i < |name| {
        assert name[i..i + 1][0] == hash[i - (n + 1)];
      }
    }
    assert LastIndex(name, "-") == Some(n);
    forall i | 0 <= i < |hash|
      ensures !OccursAt(hash, i, "-")
    {
      assert hash[i..i + 1][0] == hash[i];
    }
  }

  function AppLabel(pod: Pod): string {
    if "app" in pod.labels then pod.labels["app"] else ""
  }

  /** What is known of a pod is its own. Its deployment is the name of its first
      ReplicaSet without the hash; without such an owner it is the app label. */
  lemma {:induction false} InfoIsOfPod(pod: Pod, i: nat, deployment: string, hash: string)
    requires '-' !in hash
    ensures var info := PodInfoOf(pod);
            && info.name == pod.name && info.namespace == pod.namespace
            && info.node == pod.node && info.uid == pod.uid
            && (FirstReplicaSetIs(pod.owners, i) && pod.owners[i].name == deployment + "-" + hash ==>
                  info.deployment == if deployment == "" then "-" + hash else deployment)
            && (FirstReplicaSetIs(pod.owners, i) && pod.owners[i].name == hash ==>
                  info.deployment == if hash == "" then AppLabel(pod) else hash)
            && ((forall j :: 0 <= j < |pod.owners| ==> pod.owners[j].kind != "ReplicaSet") ==>
                  info.deployment == AppLabel(pod))
  {
    hide ExtractDeploymentName;
    HashIsCutOff(deployment, hash);
    if FirstReplicaSetIs(pod.owners, i) {
      FirstReplicaSetAt(pod.owners, i);
    }
    if forall j :: 0 <= j < |pod.owners| ==> pod.owners[j].kind != "ReplicaSet" {
      NoReplicaSet(pod.owners);
    }
  }
}
