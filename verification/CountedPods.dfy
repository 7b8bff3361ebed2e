/** Which of the pods listed on a node count for draining: those whose pool label agrees with their pod
    group's. Pods are grouped by the group's name alone, and the group is looked up in the namespace of the
    first pod listed under that name. */
module CountedPods {
  import opened Wrappers

  /** A pod bound to a node: its pod group's name and its pool label, where it has them. */
  datatype Pod = Pod(node: string, namespace: string, group: Option<string>, pool: Option<string>)

  /** Namespace and name of each pod group, with its pool label. */
  type PodGroups = map<(string, string), Option<string>>

  /** The listed pods of a group, in listing order. */
  function OfGroup(pods: seq<Pod>, group: string): seq<Pod> {
    if pods == [] then []
    else
      var rest, last := pods[..|pods| - 1], pods[|pods| - 1];
      OfGroup(rest, group) + if last.group == Some(group) then [last] else []
  }

  lemma {:induction false} OfGroupAre(pods: seq<Pod>, group: string, pod: Pod)
    ensures pod in OfGroup(pods, group) <==> pod in pods && pod.group == Some(group)
  {
    if pods != [] {
      var rest, last := pods[..|pods| - 1], pods[|pods| - 1];
      OfGroupAre(rest, group, pod);
      assert pods == rest + [last];
    }
  }

  /** The pod's pool label is the one of the group found for it. */
  predicate Kept(pods: seq<Pod>, groups: PodGroups, pod: Pod) {
    && pod.group.Some?
    && var found := OfGroup(pods, pod.group.value);
       found != [] && Agrees(groups, found[0].namespace, pod.group.value, pod)
  }

  predicate Agrees(groups: PodGroups, namespace: string, group: string, pod: Pod) {
    (namespace, group) in groups && groups[(namespace, group)] == pod.pool
  }

  /** The pod's pool label is the one of its own group. */
  predicate Counted(groups: PodGroups, pod: Pod) {
    pod.group.Some? && Agrees(groups, pod.namespace, pod.group.value, pod)
  }

  method GroupPods(pods: seq<Pod>) returns (byGroup: map<string, seq<Pod>>)
    ensures forall g :: g in byGroup <==> OfGroup(pods, g) != []
    ensures forall g :: g in byGroup ==> byGroup[g] == OfGroup(pods, g)
  {
    byGroup := map[];
    for i := 0 to |pods|
      invariant forall g :: g in byGroup <==> OfGroup(pods[..i], g) != []
      invariant forall g :: g in byGroup ==> byGroup[g] == OfGroup(pods[..i], g)
    {
      assert pods[..i + 1][..i] == pods[..i];
      var pod := pods[i];
      if pod.group.Some? {
        var group := pod.group.value;
        byGroup := byGroup[group := (if group in byGroup then byGroup[group] else []) + [pod]];
      }
    }
    assert pods[..|pods|] == pods;
  }

  method FilterGroup(found: seq<Pod>, groups: PodGroups, group: string) returns (kept: seq<Pod>)
    requires found != []
    ensures forall pod :: pod in kept <==> pod in found && Agrees(groups, found[0].namespace, group, pod)
  {
    kept := [];
    var namespace := found[0].namespace;
    if (namespace, group) !in groups {
      return;
    }
    for i := 0 to |found|
      invariant forall pod :: pod in kept <==> pod in found[..i] && Agrees(groups, namespace, group, pod)
    {
      assert found[..i + 1] == found[..i] + [found[i]];
      if groups[(namespace, group)] == found[i].pool {
        kept := kept + [found[i]];
      }
    }
    assert found[..|found|] == found;
  }

  /** The pods kept are exactly those whose label is the one of the group found for them. */
  method FilterPods(pods: seq<Pod>, groups: PodGroups) returns (kept: seq<Pod>)
    ensures forall pod :: pod in kept <==> pod in pods && Kept(pods, groups, pod)
  {
    var byGroup := GroupPods(pods);
    kept := [];
    var rest := byGroup.Keys;
    while rest != {}
      invariant rest <= byGroup.Keys
      invariant forall pod :: pod in kept <==> InSome(pods, byGroup.Keys - rest, groups, pod)
      decreases rest
    {
      var group :| group in rest;
      var some := FilterGroup(byGroup[group], groups, group);
      ghost var before := byGroup.Keys - rest;
      rest := rest - {group};
      assert byGroup.Keys - rest == before + {group};
      forall pod
        ensures pod in some <==> InSome(pods, {group}, groups, pod)
      {
        OfGroupAre(pods, group, pod);
      }
      kept := kept + some;
    }
    forall pod
      ensures InSome(pods, byGroup.Keys, groups, pod) <==> pod in pods && Kept(pods, groups, pod)
    {
      if pod.group.Some? {
        OfGroupAre(pods, pod.group.value, pod);
      }
    }
  }

  /** The pod is kept, and its group is one of these. */
  ghost predicate InSome(pods: seq<Pod>, some: set<string>, groups: PodGroups, pod: Pod) {
    pod in pods && Kept(pods, groups, pod) && pod.group.value in some
  }

  /** The pod is judged by its own group, whatever groups there are, exactly when the first pod listed under
      the group's name is of the pod's own namespace. */
  lemma KeptIsCounted(pods: seq<Pod>, pod: Pod)
    requires pod in pods && pod.group.Some?
    ensures OfGroup(pods, pod.group.value) != []
    ensures (forall groups :: Kept(pods, groups, pod) <==> Counted(groups, pod))
       <==> OfGroup(pods, pod.group.value)[0].namespace == pod.namespace
  {
    OfGroupAre(pods, pod.group.value, pod);
    if OfGroup(pods, pod.group.value)[0].namespace != pod.namespace {
      var own: PodGroups := map[(pod.namespace, pod.group.value) := pod.pool];
      assert Counted(own, pod) && !Kept(pods, own, pod);
    }
  }

  // ------------------------------------------------ what the filter's answer is worth

  ghost predicate AnyKept(pods: seq<Pod>, groups: PodGroups) {
    exists pod :: pod in pods && Kept(pods, groups, pod)
  }

  ghost predicate AnyCounted(pods: seq<Pod>, groups: PodGroups) {
    exists pod :: pod in pods && Counted(groups, pod)
  }

  /** Pods that share a group name share a namespace. */
  ghost predicate Local(pods: seq<Pod>) {
    forall p, q :: p in pods && q in pods && SameGroupName(p, q) ==> p.namespace == q.namespace
  }

  predicate SameGroupName(p: Pod, q: Pod) { p.group.Some? && p.group == q.group }

  lemma LocalIsJudgedByOwnGroup(pods: seq<Pod>, groups: PodGroups, pod: Pod)
    requires Local(pods) && pod in pods
    ensures Kept(pods, groups, pod) <==> Counted(groups, pod)
  {
    if pod.group.Some? {
      var found := OfGroup(pods, pod.group.value);
      OfGroupAre(pods, pod.group.value, pod);
      OfGroupAre(pods, pod.group.value, found[0]);
      assert SameGroupName(pod, found[0]);
    }
  }

  /** Two namespaces under one group name: some pod groups make the filter miss a pod that counts. */
  lemma ForeignFirstMisses(pods: seq<Pod>, pod: Pod) returns (groups: PodGroups)
    requires pod in pods && pod.group.Some? && OfGroup(pods, pod.group.value) != []
    requires OfGroup(pods, pod.group.value)[0].namespace != pod.namespace
    ensures Counted(groups, pod) && !AnyKept(pods, groups)
  {
    groups := map[(pod.namespace, pod.group.value) := pod.pool];
  }

  /** Whether the filter leaves any pod is whether any pod counts, whatever pod groups there are, exactly when
      listed pods that share a group name share a namespace. */
  lemma AnswerIsExactIff(pods: seq<Pod>)
    ensures (forall groups :: AnyKept(pods, groups) <==> AnyCounted(pods, groups)) <==> Local(pods)
  {
    if Local(pods) {
      forall groups, pod | pod in pods
        ensures Kept(pods, groups, pod) <==> Counted(groups, pod)
      {
        LocalIsJudgedByOwnGroup(pods, groups, pod);
      }
    } else {
      var p, q :| p in pods && q in pods && SameGroupName(p, q) && p.namespace != q.namespace;
      OfGroupAre(pods, p.group.value, p);
      var first := OfGroup(pods, p.group.value)[0];
      var other := if first.namespace != p.namespace then p else q;
      var groups := ForeignFirstMisses(pods, other);
      assert AnyCounted(pods, groups);
    }
  }
}
