/** The pod indexes of the Kubernetes adapter, kept up to date event by event. */
module PodIndex {
  import opened Options
  import opened Strings
  import opened PodPath

  datatype PodInfo = PodInfo(name: string, namespace: string, node: string, deployment: string, uid: string)

  datatype OwnerRef = OwnerRef(kind: string, name: string)

  /** containers and inits hold the runtime's references to the container IDs. */
  datatype Pod = Pod(name: string, namespace: string, uid: string, node: string, owners: seq<OwnerRef>,
                     labels: map<string, string>, containers: seq<string>, inits: seq<string>)

  /** The Deployment behind a ReplicaSet name. */
  function ExtractDeploymentName(replicaSetName: string): string {
    match LastIndex(replicaSetName, "-")
    case Some(i) => if i == 0 then replicaSetName else replicaSetName[..i]
    case None => replicaSetName
  }

  function FirstReplicaSet(owners: seq<OwnerRef>): string {
    if owners == [] then ""
    else if owners[0].kind == "ReplicaSet" then ExtractDeploymentName(owners[0].name)
    else FirstReplicaSet(owners[1..])
  }

  function PodInfoOf(pod: Pod): PodInfo {
    var owner := FirstReplicaSet(pod.owners);
    var deployment := if owner == "" && "app" in pod.labels then pod.labels["app"] else owner;
    PodInfo(pod.name, pod.namespace, pod.node, deployment, pod.uid)
  }

  function StripRuntimePrefix(ref: string): string {
    match LastIndex(ref, "//")
    case Some(i) => ref[i + 2..]
    case None => ref
  }

  // ---- The keys a pod is found under ----

  function ContainerKeys(ref: string): set<string> {
    var cid := StripRuntimePrefix(ref);
    if cid == "" then {} else {cid} + if |cid| >= 12 then {cid[..12]} else {}
  }

  function AllContainerKeys(refs: seq<string>): set<string> {
    if refs == [] then {} else AllContainerKeys(refs[..|refs| - 1]) + ContainerKeys(refs[|refs| - 1])
  }

  lemma {:induction false} OneMore(refs: seq<string>, i: nat)
    requires i < |refs|
    ensures AllContainerKeys(refs[..i + 1]) == AllContainerKeys(refs[..i]) + ContainerKeys(refs[i])
  {
    assert refs[..i + 1][..i] == refs[..i];
  }

  function Escaped(uid: string): string {
    Replace(uid, '-', '_')
  }

  function KeysOf(pod: Pod): set<string> {
    {pod.uid, Escaped(pod.uid)} + AllContainerKeys(pod.containers) + AllContainerKeys(pod.inits)
  }

  function Constant(keys: set<string>, info: PodInfo): map<string, PodInfo> {
    map k | k in keys :: info
  }

  lemma {:induction false} MoreKeys(m: map<string, PodInfo>, own: set<string>, a: set<string>, b: set<string>, info: PodInfo)
    ensures m + Constant(own + a, info) + Constant(b, info) == m + Constant(own + (a + b), info)
  {
  }

  lemma {:induction false} NoMore(own: set<string>)
    ensures own + AllContainerKeys([]) == own
  {
  }

  lemma {:induction false} OwnKeys(m: map<string, PodInfo>, uid: string, info: PodInfo)
    ensures m[uid := info][Escaped(uid) := info] == m + Constant({uid, Escaped(uid)} + AllContainerKeys([]), info)
  {
  }

  // ---- The two indexes ----

  datatype Indexes = Indexes(uids: map<string, PodInfo>, cgroups: map<string, PodInfo>)

  function Added(ix: Indexes, pod: Pod): Indexes {
    var info := PodInfoOf(pod);
    Indexes(ix.uids[pod.uid := info], ix.cgroups + Constant(KeysOf(pod), info))
  }

  function Removed(ix: Indexes, pod: Pod): Indexes {
    Indexes(ix.uids - {pod.uid}, ix.cgroups - KeysOf(pod))
  }

  class KubernetesAdapter {
    var uidIndex: map<string, PodInfo>
    var cgroupIndex: map<string, PodInfo>

    ghost function State(): Indexes
      reads this
    {
      Indexes(uidIndex, cgroupIndex)
    }

    constructor ()
      ensures State() == Indexes(map[], map[])
    {
      uidIndex, cgroupIndex := map[], map[];
    }

    method AddPod(pod: Pod)
      modifies this
      ensures State() == Added(old(State()), pod)
    {
      hide PodInfoOf, ContainerKeys, AllContainerKeys, Constant, Replace;
      var info := PodInfoOf(pod);
      ghost var before := cgroupIndex;
      uidIndex := uidIndex[pod.uid := info];
      cgroupIndex := cgroupIndex[pod.uid := info];
      cgroupIndex := cgroupIndex[Escaped(pod.uid) := info];
      ghost var own := {pod.uid, Escaped(pod.uid)};
      OwnKeys(before, pod.uid, info);
      for i := 0 to |pod.containers|
        invariant uidIndex == old(uidIndex)[pod.uid := info]
        invariant cgroupIndex == before + Constant(own + AllContainerKeys(pod.containers[..i]), info)
      {
        IndexContainerID(pod.containers[i], info);
        OneMore(pod.containers, i);
        MoreKeys(before, own, AllContainerKeys(pod.containers[..i]), ContainerKeys(pod.containers[i]), info);
      }
      assert pod.containers[..|pod.containers|] == pod.containers;
      own := own + AllContainerKeys(pod.containers);
      NoMore(own);
      for i := 0 to |pod.inits|
        invariant uidIndex == old(uidIndex)[pod.uid := info]
        invariant cgroupIndex == before + Constant(own + AllContainerKeys(pod.inits[..i]), info)
      {
        IndexContainerID(pod.inits[i], info);
        OneMore(pod.inits, i);
        MoreKeys(before, own, AllContainerKeys(pod.inits[..i]), ContainerKeys(pod.inits[i]), info);
      }
      assert pod.inits[..|pod.inits|] == pod.inits;
    }

    method IndexContainerID(ref: string, info: PodInfo)
      modifies this`cgroupIndex
      ensures cgroupIndex == old(cgroupIndex) + Constant(ContainerKeys(ref), info)
    {
      var cid := StripRuntimePrefix(ref);
      if cid == "" {
        return;
      }
      cgroupIndex := cgroupIndex[cid := info];
      if |cid| >= 12 {
        cgroupIndex := cgroupIndex[cid[..12] := info];
      }
    }

    method RemovePod(pod: Pod)
      modifies this
      ensures State() == Removed(old(State()), pod)
    {
      hide ContainerKeys;
      ghost var before := cgroupIndex;
      uidIndex := uidIndex - {pod.uid};
      cgroupIndex := cgroupIndex - {pod.uid};
      cgroupIndex := cgroupIndex - {Escaped(pod.uid)};
      ghost var own := {pod.uid, Escaped(pod.uid)};
      for i := 0 to |pod.containers|
        invariant uidIndex == old(uidIndex) - {pod.uid}
        invariant cgroupIndex == before - (own + AllContainerKeys(pod.containers[..i]))
      {
        UnindexContainerID(pod.containers[i]);
        OneMore(pod.containers, i);
      }
      assert pod.containers[..|pod.containers|] == pod.containers;
      own := own + AllContainerKeys(pod.containers);
      for i := 0 to |pod.inits|
        invariant uidIndex == old(uidIndex) - {pod.uid}
        invariant cgroupIndex == before - (own + AllContainerKeys(pod.inits[..i]))
      {
        UnindexContainerID(pod.inits[i]);
        OneMore(pod.inits, i);
      }
      assert pod.inits[..|pod.inits|] == pod.inits;
    }

    method UnindexContainerID(ref: string)
      modifies this`cgroupIndex
      ensures cgroupIndex == old(cgroupIndex) - ContainerKeys(ref)
    {
      var cid := StripRuntimePrefix(ref);
      if cid == "" {
        return;
      }
      cgroupIndex := cgroupIndex - {cid};
      if |cid| >= 12 {
        cgroupIndex := cgroupIndex - {cid[..12]};
      }
    }

    method LookupByPath(cgroupPath: string) returns (pod: string, namespace: string)
      ensures (pod, namespace) == Resolve(State(), cgroupPath)
      ensures ExtractPodUID(cgroupPath) == "" ==> pod == "" && namespace == ""
      ensures ExtractPodUID(cgroupPath) != "" && ExtractPodUID(cgroupPath) in uidIndex ==>
                pod == uidIndex[ExtractPodUID(cgroupPath)].name && namespace == uidIndex[ExtractPodUID(cgroupPath)].namespace
    {
      var uid := ExtractPodUID(cgroupPath);
      if uid == "" {
        return "", "";
      }
      if uid in uidIndex {
        return uidIndex[uid].name, uidIndex[uid].namespace;
      }
      if Escaped(uid) in cgroupIndex {
        return cgroupIndex[Escaped(uid)].name, cgroupIndex[Escaped(uid)].namespace;
      }
      return "", "";
    }
  }

  function Resolve(ix: Indexes, cgroupPath: string): (string, string) {
    var uid := ExtractPodUID(cgroupPath);
    if uid == "" then ("", "")
    else if uid in ix.uids then (ix.uids[uid].name, ix.uids[uid].namespace)
    else if Escaped(uid) in ix.cgroups then (ix.cgroups[Escaped(uid)].name, ix.cgroups[Escaped(uid)].namespace)
    else ("", "")
  }

  // ---- Against the live pods ----

  /** The live pods by UID. */
  type Live = map<string, Pod>

  /** The indexes hold exactly the keys of the live pods, each leading to a pod it
      belongs to. */
  ghost predicate Agrees(ix: Indexes, live: Live) {
    && (forall u :: u in live ==> live[u].uid == u)
    && ix.uids == (map u | u in live :: PodInfoOf(live[u]))
    && (forall u, k :: u in live && k in KeysOf(live[u]) ==> k in ix.cgroups)
    && (forall k :: k in ix.cgroups
          ==> exists u :: u in live && k in KeysOf(live[u]) && ix.cgroups[k] == PodInfoOf(live[u]))
  }

  /** No key of pod belongs to another live pod. */
  ghost predicate Alone(pod: Pod, live: Live) {
    forall u :: u in live && u != pod.uid ==> KeysOf(live[u]) !! KeysOf(pod)
  }

  lemma {:induction false} AddedAgrees(ix: Indexes, live: Live, pod: Pod)
    requires Agrees(ix, live) && pod.uid !in live
    ensures Agrees(Added(ix, pod), live[pod.uid := pod])
  {
    hide KeysOf, PodInfoOf;
    var next, all := Added(ix, pod), live[pod.uid := pod];
    assert next.uids == (map u | u in all :: PodInfoOf(all[u]));
    forall k | k in next.cgroups
      ensures exists u :: u in all && k in KeysOf(all[u]) && next.cgroups[k] == PodInfoOf(all[u])
    {
      AddedOrigin(ix, live, pod, k);
    }
    forall u, k | u in all && k in KeysOf(all[u])
      ensures k in next.cgroups
    {
      assert u == pod.uid || all[u] == live[u];
    }
  }

  lemma {:induction false} AddedOrigin(ix: Indexes, live: Live, pod: Pod, k: string)
    requires Agrees(ix, live) && pod.uid !in live && k in Added(ix, pod).cgroups
    ensures var all := live[pod.uid := pod];
            exists u :: u in all && k in KeysOf(all[u]) && Added(ix, pod).cgroups[k] == PodInfoOf(all[u])
  {
    hide KeysOf, PodInfoOf;
    var all := live[pod.uid := pod];
    if k in KeysOf(pod) {
      assert all[pod.uid] == pod;
    } else {
      var u :| u in live && k in KeysOf(live[u]) && ix.cgroups[k] == PodInfoOf(live[u]);
      assert all[u] == live[u];
    }
  }

  /** Removing a pod leaves the indexes of the others exactly when it shares no key
      with them: shared keys are deleted although their other owner lives on. */
  lemma {:induction false} RemovedAgreesIff(ix: Indexes, live: Live, pod: Pod)
    requires Agrees(ix, live) && pod.uid in live && live[pod.uid] == pod
    ensures Agrees(Removed(ix, pod), live - {pod.uid}) <==> Alone(pod, live)
  {
    hide KeysOf, PodInfoOf;
    var next, rest := Removed(ix, pod), live - {pod.uid};
    if Alone(pod, live) {
      forall k | k in next.cgroups
        ensures exists u :: u in rest && k in KeysOf(rest[u]) && next.cgroups[k] == PodInfoOf(rest[u])
      {
        var u :| u in live && k in KeysOf(live[u]) && ix.cgroups[k] == PodInfoOf(live[u]);
        assert u in rest && rest[u] == live[u];
      }
    } else {
      var u :| u in live && u != pod.uid && !(KeysOf(live[u]) !! KeysOf(pod));
      var k :| k in KeysOf(live[u]) && k in KeysOf(pod);
      assert u in rest && rest[u] == live[u] && k !in next.cgroups;
    }
  }

  // ---- A session of informer events ----

  datatype Event = Add(pod: Pod) | Update(before: Pod, after: Pod) | Delete(pod: Pod)

  function Apply(ix: Indexes, e: Event): Indexes {
    match e
    case Add(pod) => Added(ix, pod)
    case Update(before, after) => Added(Removed(ix, before), after)
    case Delete(pod) => Removed(ix, pod)
  }

  function ApplyLive(live: Live, e: Event): Live {
    match e
    case Add(pod) => live[pod.uid := pod]
    case Update(before, after) => (live - {before.uid})[after.uid := after]
    case Delete(pod) => live - {pod.uid}
  }

  function IndexesAfter(events: seq<Event>): Indexes {
    if events == [] then Indexes(map[], map[])
    else Apply(IndexesAfter(events[..|events| - 1]), events[|events| - 1])
  }

  function LiveAfter(events: seq<Event>): Live {
    if events == [] then map[]
    else ApplyLive(LiveAfter(events[..|events| - 1]), events[|events| - 1])
  }

  /** The informer tells the truth: it adds what is not there, and removes or replaces
      what is, as it last was. */
  ghost predicate Truthful(live: Live, e: Event) {
    match e
    case Add(pod) => pod.uid !in live
    case Update(before, after) => before.uid in live && live[before.uid] == before
                                  && after.uid !in live - {before.uid}
    case Delete(pod) => pod.uid in live && live[pod.uid] == pod
  }

  /** A pod that goes away or changes shares no key with the others. */
  ghost predicate Unshared(live: Live, e: Event) {
    match e
    case Add(_) => true
    case Update(before, _) => Alone(before, live)
    case Delete(pod) => Alone(pod, live)
  }

  ghost predicate Session(events: seq<Event>) {
    forall n :: 0 <= n < |events|
      ==> Truthful(LiveAfter(events[..n]), events[n]) && Unshared(LiveAfter(events[..n]), events[n])
  }

  /** Main result: after any session the incremental indexes are those of the live
      pods. */
  lemma {:induction false} SessionAgrees(events: seq<Event>)
    requires Session(events)
    ensures Agrees(IndexesAfter(events), LiveAfter(events))
  {
    if events != [] {
      var n := |events| - 1;
      var before, e := events[..n], events[n];
      assert Session(before) by {
        forall i | 0 <= i < n
          ensures Truthful(LiveAfter(before[..i]), before[i]) && Unshared(LiveAfter(before[..i]), before[i])
        {
          assert before[..i] == events[..i];
        }
      }
      SessionAgrees(before);
      var ix, live := IndexesAfter(before), LiveAfter(before);
      assert Truthful(live, e) && Unshared(live, e);
      hide Agrees, Alone, Added, Removed;
      match e
      case Add(pod) => AddedAgrees(ix, live, pod);
      case Update(was, after) =>
        RemovedAgreesIff(ix, live, was);
        AddedAgrees(Removed(ix, was), live - {was.uid}, after);
      case Delete(pod) => RemovedAgreesIff(ix, live, pod);
    }
  }

  ghost predicate AllAlone(live: Live) {
    forall u :: u in live ==> live[u].uid == u && Alone(live[u], live)
  }

  /** When no key is shared, the live pods determine the indexes. */
  lemma {:induction false} AgreesUnique(a: Indexes, b: Indexes, live: Live)
    requires Agrees(a, live) && Agrees(b, live) && AllAlone(live)
    ensures a == b
  {
    hide KeysOf, PodInfoOf;
    forall k | k in a.cgroups
      ensures k in b.cgroups && a.cgroups[k] == b.cgroups[k]
    {
      var u :| u in live && k in KeysOf(live[u]) && a.cgroups[k] == PodInfoOf(live[u]);
      var v :| v in live && k in KeysOf(live[v]) && b.cgroups[k] == PodInfoOf(live[v]);
      assert Alone(live[u], live);
    }
    assert forall k :: k in b.cgroups ==> k in a.cgroups;
  }

  /** The indexes built from nothing by adding the live pods one after the other, in
      some order. */
  ghost function Rebuilt(live: Live): Indexes
    decreases |live|
  {
    if live == map[] then Indexes(map[], map[])
    else
      var u :| u in live;
      assert |live - {u}| < |live| by {
        OneFewer(live, u);
      }
      Added(Rebuilt(live - {u}), live[u])
  }

  lemma {:induction false} OneFewer(live: Live, u: string)
    requires u in live
    ensures |live - {u}| < |live|
  {
    assert (live - {u}).Keys == live.Keys - {u};
  }

  lemma {:induction false} RebuiltAgrees(live: Live)
    requires forall u :: u in live ==> live[u].uid == u
    ensures Agrees(Rebuilt(live), live)
    decreases |live|
  {
    hide KeysOf, PodInfoOf, Added, Agrees;
    if live == map[] {
      EmptyAgrees();
    } else {
      var u :| u in live && Rebuilt(live) == Added(Rebuilt(live - {u}), live[u]);
      OneFewer(live, u);
      RebuiltAgrees(live - {u});
      AddedAgrees(Rebuilt(live - {u}), live - {u}, live[u]);
      assert (live - {u})[u := live[u]] == live;
    }
  }

  lemma {:induction false} EmptyAgrees()
    ensures Agrees(Indexes(map[], map[]), map[])
  {
  }

  /** Maintained event by event or rebuilt from the live pods: the same indexes, and no
      stale key. */
  lemma {:induction false} SameAsRebuilt(events: seq<Event>)
    requires Session(events) && AllAlone(LiveAfter(events))
    ensures IndexesAfter(events) == Rebuilt(LiveAfter(events))
  {
    SessionAgrees(events);
    RebuiltAgrees(LiveAfter(events));
    AgreesUnique(IndexesAfter(events), Rebuilt(LiveAfter(events)), LiveAfter(events));
  }

  /** And whatever the order in which the additions come. */
  lemma {:induction false} SameInAnyOrder(events: seq<Event>, additions: seq<Event>)
    requires Session(events) && Session(additions) && (forall i :: 0 <= i < |additions| ==> additions[i].Add?)
    requires LiveAfter(additions) == LiveAfter(events) && AllAlone(LiveAfter(events))
    ensures IndexesAfter(events) == IndexesAfter(additions)
  {
    SessionAgrees(events);
    SessionAgrees(additions);
    AgreesUnique(IndexesAfter(events), IndexesAfter(additions), LiveAfter(events));
  }

  // ---- Identifiers as Kubernetes and the runtimes write them ----

  predicate IsHex(c: char) {
    ('0' <= c <= '9') || ('a' <= c <= 'f')
  }

  /** Hexadecimal digits and at least one dash. */
  ghost predicate WellFormedUID(uid: string) {
    (forall c :: c in uid ==> IsHex(c) || c == '-') && '-' in uid
  }

  /** No container yet, or a hexadecimal ID of at least twelve digits. */
  ghost predicate WellFormedRef(ref: string) {
    var cid := StripRuntimePrefix(ref);
    cid == "" || (|cid| >= 12 && forall c :: c in cid ==> IsHex(c))
  }

  ghost predicate WellFormed(pod: Pod) {
    && WellFormedUID(pod.uid)
    && (forall r :: r in pod.containers + pod.inits ==> WellFormedRef(r))
  }

  function ShortId(ref: string): Option<string> {
    var cid := StripRuntimePrefix(ref);
    if |cid| >= 12 then Some(cid[..12]) else None
  }

  /** No container of p has the first twelve digits of one of q. */
  ghost predicate DistinctContainers(p: Pod, q: Pod) {
    forall r, s :: r in p.containers + p.inits && s in q.containers + q.inits && ShortId(r).Some?
      ==> ShortId(r) != ShortId(s)
  }

  lemma {:induction false} ContainerKeyOrigin(refs: seq<string>, k: string)
    ensures k in AllContainerKeys(refs) <==> exists r :: r in refs && k in ContainerKeys(r)
  {
    hide ContainerKeys;
    if refs != [] {
      var n := |refs| - 1;
      ContainerKeyOrigin(refs[..n], k);
      assert refs == refs[..n] + [refs[n]];
    }
  }

  lemma {:induction false} ContainerKeyShape(ref: string, k: string)
    requires WellFormedRef(ref) && k in ContainerKeys(ref)
    ensures |k| >= 12 && (forall c :: c in k ==> IsHex(c)) && ShortId(ref) == Some(k[..12])
  {
    var cid := StripRuntimePrefix(ref);
    assert forall i :: 0 <= i < 12 ==> cid[..12][i] in cid;
    assert cid[..12][..12] == cid[..12];
  }

  lemma {:induction false} EscapedShape(uid: string)
    requires WellFormedUID(uid)
    ensures '_' !in uid && '_' in Escaped(uid) && '-' in uid
    ensures Replace(Escaped(uid), '_', '-') == uid
  {
    var i :| 0 <= i < |uid| && uid[i] == '-';
    assert Escaped(uid)[i] == '_';
    ReplaceBack(uid, '-', '_');
  }

  /** So pods with distinct UIDs and distinct short container IDs share no key. */
  lemma {:induction false} WellFormedPodsShareNothing(p: Pod, q: Pod)
    requires WellFormed(p) && WellFormed(q) && p.uid != q.uid && DistinctContainers(p, q)
    ensures KeysOf(p) !! KeysOf(q)
  {
    EscapedShape(p.uid);
    EscapedShape(q.uid);
    forall k | k in KeysOf(p)
      ensures k !in KeysOf(q)
    {
      ContainerKeyOrigin(p.containers, k);
      ContainerKeyOrigin(p.inits, k);
      ContainerKeyOrigin(q.containers, k);
      ContainerKeyOrigin(q.inits, k);
      OriginShape(p, k);
      OriginShape(q, k);
    }
  }

  /** A key is one of the two forms of the UID or comes from a container. */
  lemma {:induction false} OriginShape(pod: Pod, k: string)
    requires WellFormed(pod)
    ensures k in KeysOf(pod) ==>
      || k == pod.uid
      || k == Escaped(pod.uid)
      || exists r :: r in pod.containers + pod.inits && k in ContainerKeys(r)
    ensures forall r :: r in pod.containers + pod.inits && k in ContainerKeys(r) ==>
      |k| >= 12 && (forall c :: c in k ==> IsHex(c)) && ShortId(r) == Some(k[..12])
  {
    ContainerKeyOrigin(pod.containers, k);
    ContainerKeyOrigin(pod.inits, k);
    forall r | r in pod.containers + pod.inits && k in ContainerKeys(r)
      ensures |k| >= 12 && (forall c :: c in k ==> IsHex(c)) && ShortId(r) == Some(k[..12])
    {
      ContainerKeyShape(r, k);
    }
  }

  /** Well-formed pods, no two of which share a short container ID. */
  ghost predicate Distinct(live: Live) {
    && (forall u :: u in live ==> WellFormed(live[u]))
    && (forall u, v :: u in live && v in live && u != v ==> DistinctContainers(live[u], live[v]))
  }

  /** What the API server delivers: the truth, about pods with identifiers of their own. */
  ghost predicate Delivered(events: seq<Event>) {
    && (forall n :: 0 <= n < |events| ==> Truthful(LiveAfter(events[..n]), events[n]))
    && (forall n :: 0 <= n <= |events| ==> Distinct(LiveAfter(events[..n])))
  }

  ghost predicate ByUID(live: Live) {
    forall u :: u in live ==> live[u].uid == u
  }

  lemma {:induction false} DistinctAreAlone(live: Live, u: string)
    requires Distinct(live) && ByUID(live) && u in live
    ensures Alone(live[u], live)
  {
    hide KeysOf, WellFormed, DistinctContainers;
    forall v | v in live && v != u
      ensures KeysOf(live[v]) !! KeysOf(live[u])
    {
      WellFormedPodsShareNothing(live[v], live[u]);
    }
  }

  lemma {:induction false} LiveByUID(events: seq<Event>)
    ensures ByUID(LiveAfter(events))
  {
    if events != [] {
      LiveByUID(events[..|events| - 1]);
    }
  }

  lemma {:induction false} DeliveredIsSession(events: seq<Event>)
    requires Delivered(events)
    ensures Session(events) && AllAlone(LiveAfter(events))
  {
    hide Alone, Distinct;
    forall n | 0 <= n <= |events|
      ensures AllAlone(LiveAfter(events[..n]))
    {
      var live := LiveAfter(events[..n]);
      LiveByUID(events[..n]);
      forall u | u in live
        ensures live[u].uid == u && Alone(live[u], live)
      {
        DistinctAreAlone(live, u);
      }
    }
    assert events[..|events|] == events;
    forall n | 0 <= n < |events|
      ensures Unshared(LiveAfter(events[..n]), events[n])
    {
      assert Truthful(LiveAfter(events[..n]), events[n]);
    }
  }

  /** Main result: with identifiers as Kubernetes and the runtimes write them, after any
      history of adds, updates and deletes both indexes are those rebuilt from the live
      pods. */
  lemma {:induction false} IndexesAreRebuilt(events: seq<Event>)
    requires Delivered(events)
    ensures Agrees(IndexesAfter(events), LiveAfter(events))
    ensures IndexesAfter(events) == Rebuilt(LiveAfter(events))
  {
    hide *;
    DeliveredIsSession(events);
    SessionAgrees(events);
    SameAsRebuilt(events);
  }

  // ---- Lookups ----

  /** After any session, either path of a live pod leads to that pod. */
  lemma {:induction false} PathsResolve(events: seq<Event>, pod: Pod, prefix: string, suffix: string)
    requires Session(events) && pod.uid in LiveAfter(events) && LiveAfter(events)[pod.uid] == pod
    requires IsUIDLike(pod.uid)
    ensures (suffix == "" || suffix[0] == '/')
      && (forall i :: 0 <= i < |prefix| ==> !OccursAt(PlainPath(prefix, pod.uid, suffix), i, "/pod"))
      ==> Resolve(IndexesAfter(events), PlainPath(prefix, pod.uid, suffix)) == (pod.name, pod.namespace)
    ensures '_' !in pod.uid
      && !IsUIDLike(PlainCandidate(SlicePath(prefix, pod.uid, suffix)))
      && (forall i :: 0 <= i < |prefix| ==> !OccursAt(SlicePath(prefix, pod.uid, suffix), i, "-pod"))
      ==> Resolve(IndexesAfter(events), SlicePath(prefix, pod.uid, suffix)) == (pod.name, pod.namespace)
  {
    hide PlainPath, SlicePath, ExtractPodUID, KeysOf;
    SessionAgrees(events);
    if (suffix == "" || suffix[0] == '/')
      && (forall i :: 0 <= i < |prefix| ==> !OccursAt(PlainPath(prefix, pod.uid, suffix), i, "/pod")) {
      PlainRoundTrip(prefix, pod.uid, suffix);
    }
    if '_' !in pod.uid
      && !IsUIDLike(PlainCandidate(SlicePath(prefix, pod.uid, suffix)))
      && (forall i :: 0 <= i < |prefix| ==> !OccursAt(SlicePath(prefix, pod.uid, suffix), i, "-pod")) {
      SliceRoundTrip(prefix, pod.uid, suffix);
    }
  }
}
