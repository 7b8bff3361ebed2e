/** What the cordon of a draining node is worth, and what is true once a pool's finalizer is dropped. */
module PoolDeletion {
  import opened CountedPods
  import opened Nodes
  import opened NodeDrain
  import opened Wrappers

  // ------------------------------------------------ cordons

  /** The node pool controller has nothing to move: the node matches the available pool it is in, or it is
      in the default pool and matches none. */
  ghost predicate InRightPool(s: Settings, w: World, node: Node) {
    || (exists i :: 0 <= i < |w.pools| && OfAvailablePool(s, node, w.pools[i]))
    || (PoolLabel(s, node).None? && HasDefaultPool(s, w) &&
        FindMatching(s, AvailablePools(w.pools), node.labels) == s.defaultPool)
  }

  predicate OfAvailablePool(s: Settings, node: Node, pool: Pool) {
    !pool.deleting && pool.name != s.defaultPool && PoolLabel(s, node) == Some(pool.name) &&
        PairMatches(pool, node.labels)
  }

  /** A node cordoned by the controllers that still holds a pod that counts. */
  ghost predicate Draining(s: Settings, c: Cluster, n: string) {
    n in c.nodes && c.nodes[n].unschedulable && s.cordonLabel in c.nodes[n].labels && !EmptyNode(c, n)
  }

  /** What the drain results ask of a cluster and a listing of its pods. */
  ghost predicate Orderly(s: Settings, c: Cluster, order: seq<string>) {
    ProperSettings(s) && Drained(s, c) && LocalNames(c) && Lists(order, c.pods)
  }

  lemma StepKeepsCordon(s: Settings, w: World, c: Cluster, order: seq<string>, n: string, step: SubStep)
    requires Orderly(s, c, order) && Draining(s, c, n)
    requires Allowed(s, w, step) && !InRightPool(s, w, c.nodes[n])
    ensures SteppedIn(s, w, BoundIn(c, order), n, c.nodes[n], step).unschedulable
  {
    var pool := OldPool(s, c.nodes[n], step);
    if Selects(s, pool, PoolLabel(s, c.nodes[n])) {
      NotFoundIsEmpty(s, c, order, n, pool);
    }
    if step.InPlace? {
      var i :| 0 <= i < |w.pools| && w.pools[i] == step.pool;
      assert !OfAvailablePool(s, c.nodes[n], w.pools[i]);
    }
  }

  lemma RightPoolUncordons(s: Settings, w: World, c: Cluster, order: seq<string>, n: string) returns (step: SubStep)
    requires Orderly(s, c, order) && Draining(s, c, n) && InRightPool(s, w, c.nodes[n])
    ensures Allowed(s, w, step) && !SteppedIn(s, w, BoundIn(c, order), n, c.nodes[n], step).unschedulable
  {
    if i :| 0 <= i < |w.pools| && OfAvailablePool(s, c.nodes[n], w.pools[i]) {
      NotFoundIsEmpty(s, c, order, n, w.pools[i].name);
      step := InPlace(w.pools[i]);
    } else {
      NotFoundIsEmpty(s, c, order, n, s.defaultPool);
      step := InDefault;
    }
  }

  /** The cordon of a draining node outlives every step either controller may take, exactly when the
      node pool controller itself wants the node to move. */
  lemma CordonHoldsIff(s: Settings, w: World, c: Cluster, order: seq<string>, n: string)
    requires Orderly(s, c, order) && Draining(s, c, n)
    ensures (forall step :: Allowed(s, w, step) ==>
                              SteppedIn(s, w, BoundIn(c, order), n, c.nodes[n], step).unschedulable)
       <==> !InRightPool(s, w, c.nodes[n])
  {
    if InRightPool(s, w, c.nodes[n]) {
      var step := RightPoolUncordons(s, w, c, order, n);
    } else {
      forall step | Allowed(s, w, step)
        ensures SteppedIn(s, w, BoundIn(c, order), n, c.nodes[n], step).unschedulable
      {
        StepKeepsCordon(s, w, c, order, n, step);
      }
    }
  }

  lemma ManagedThenInPlace(s: Settings, w: World, node: Node, pool: Pool, all: bool)
    requires ProperSettings(s) && OfAvailablePool(s, node, pool)
    requires pool.labelKey != s.cordonLabel && pool.labelKey != s.excludeLabel
    requires pool.name != s.excludedPool && pool.name !in w.unmanaged && !w.included(node.labels)
    ensures var waiting := Stepped(s, w, node, Managed(all), true, false);
            var again := Stepped(s, w, waiting, InPlace(pool), true, false);
            && waiting.unschedulable && PoolLabel(s, waiting) == Some(pool.name)
            && !again.unschedulable && PoolLabel(s, again) == Some(pool.name)
  {
    var waiting := Stepped(s, w, node, Managed(all), true, false);
    assert waiting == Marked(s, Cordoned(s, node), true);
    assert PairMatches(pool, waiting.labels);
  }

  /** So a node that is only to be excluded from the managed set does not stay cordoned: its own pool's
      reconcile puts it back, still in the pool, and the scheduler may bind to it again. */
  lemma ExclusionCordonIsUndone(s: Settings, w: World, c: Cluster, order: seq<string>, n: string, pool: Pool, all: bool)
    requires Orderly(s, c, order) && ProperWorld(w) && n in c.nodes && !EmptyNode(c, n)
    requires pool in w.pools && OfAvailablePool(s, c.nodes[n], pool)
    requires pool.labelKey != s.cordonLabel && pool.labelKey != s.excludeLabel
    requires pool.name != s.excludedPool && pool.name !in w.unmanaged && !w.included(c.nodes[n].labels)
    ensures var waiting := Next(s, c, Reconcile(w, Managed(all), order));
            var again := Next(s, waiting, Reconcile(w, InPlace(pool), order));
            && waiting.nodes[n].unschedulable
            && forall name, pod: Pod :: name !in c.pods && pod.node == n && pod.pool == Some(pool.name) ==>
                                     Happens(s, again, Bind(name, pod))
  {
    ManagedThenInPlace(s, w, c.nodes[n], pool, all);
    BusyNodeAfter(s, w, c, order, n, Managed(all));
    var waiting := Next(s, c, Reconcile(w, Managed(all), order));
    BusyNodeAfter(s, w, waiting, order, n, InPlace(pool));
  }

  /** A step on a node that holds a pod that counts, and is asked about its own pool. */
  lemma BusyNodeAfter(s: Settings, w: World, c: Cluster, order: seq<string>, n: string, step: SubStep)
    requires Orderly(s, c, order) && Happens(s, c, Reconcile(w, step, order)) && n in c.nodes && !EmptyNode(c, n)
    requires Selects(s, OldPool(s, c.nodes[n], step), PoolLabel(s, c.nodes[n]))
    ensures var after := Next(s, c, Reconcile(w, step, order));
            && after.nodes[n] == Stepped(s, w, c.nodes[n], step, true, false) && !EmptyNode(after, n)
            && Orderly(s, after, order) && after.pods == c.pods
  {
    NotFoundIsEmpty(s, c, order, n, OldPool(s, c.nodes[n], step));
    ReconcileKeepsDrained(s, c, Reconcile(w, step, order));
    var after := Next(s, c, Reconcile(w, step, order));
    forall m ensures LocalOn(after, m) {
      assert LocalOn(c, m);
    }
  }

  // ------------------------------------------------ dropping the finalizer

  lemma {:induction false} FoundIsListed(s: Settings, pools: seq<Pool>, labels: map<string, string>)
    ensures FindMatching(s, pools, labels) == s.defaultPool ||
            exists p :: p in pools && p.name == FindMatching(s, pools, labels)
  {
    if pools != [] {
      if PairMatches(pools[0], labels) {
        assert pools[0] in pools;
      } else {
        FoundIsListed(s, pools[1..], labels);
      }
    }
  }

  /** What a node of the pool looks like after the eviction. */
  lemma EvictedLeaves(s: Settings, w: World, node: Node, pool: Pool, busy: bool, different: bool)
    requires ProperSettings(s) && pool.name != s.defaultPool && PoolLabel(s, node) == Some(pool.name)
    ensures var after := Stepped(s, w, node, Evicted(pool), busy, different);
            && (PoolLabel(s, after) == Some(pool.name) <==> busy)
            && (IsReady(after) <==> !busy && node.ready && (node.unschedulable ==> s.cordonLabel in node.labels))
  {
    var others := OtherPools(AvailablePools(w.pools), pool.name);
    var free := Uncordoned(s, node);
    FoundIsListed(s, others, free.labels);
    var found := FindMatching(s, others, free.labels);
    if p :| p in others && p.name == found {
      OthersAre(AvailablePools(w.pools), pool.name, p);
    }
  }

  /** A node the pool can let go of: no counted pod, healthy, and not cordoned by someone else. */
  predicate CanLeave(s: Settings, c: Cluster, n: string)
    requires n in c.nodes
  {
    EmptyNode(c, n) && c.nodes[n].ready && (c.nodes[n].unschedulable ==> s.cordonLabel in c.nodes[n].labels)
  }

  predicate Unused(s: Settings, pool: string, c: Cluster) {
    forall n :: n in c.nodes ==> PoolLabel(s, c.nodes[n]) != Some(pool)
  }

  lemma EvictedNode(s: Settings, w: World, c: Cluster, order: seq<string>, pool: Pool, n: string)
    requires Orderly(s, c, order) && pool.name != s.defaultPool
    requires n in c.nodes && PoolLabel(s, c.nodes[n]) == Some(pool.name)
    ensures var after := SteppedIn(s, w, BoundIn(c, order), n, c.nodes[n], Evicted(pool));
            && (IsReady(after) <==> CanLeave(s, c, n))
            && (PoolLabel(s, after) == Some(pool.name) <==> !EmptyNode(c, n))
  {
    var bound := BoundIn(c, order);
    NotFoundIsEmpty(s, c, order, n, pool.name);
    EvictedLeaves(s, w, c.nodes[n], pool, HasSame(s, bound, n, pool.name), HasDifferent(s, bound, n, pool.name));
  }

  /** When the finalizer is dropped, nothing uses the pool any more: no node carries its name and no project
      holds a queue for it. This holds on every cluster, however its pods are labelled and grouped. */
  lemma DroppedMeansUnused(s: Settings, w: World, c: Cluster, order: seq<string>, pool: Pool,
                           projects: map<string, seq<string>>)
    requires ProperSettings(s) && Happens(s, c, Reconcile(w, Evicted(pool), order))
    requires var after := Next(s, c, Reconcile(w, Evicted(pool), order));
             AllReady(s, pool.name, c.nodes, after.nodes) && !Referenced(pool.name, projects)
    ensures Unused(s, pool.name, Next(s, c, Reconcile(w, Evicted(pool), order)))
    ensures forall p :: p in projects ==> pool.name !in projects[p]
  {
    var bound := BoundIn(c, order);
    forall n | n in c.nodes && PoolLabel(s, c.nodes[n]) == Some(pool.name)
      ensures PoolLabel(s, SteppedIn(s, w, bound, n, c.nodes[n], Evicted(pool))) != Some(pool.name)
    {
      var same, different := HasSame(s, bound, n, pool.name), HasDifferent(s, bound, n, pool.name);
      EvictedLeaves(s, w, c.nodes[n], pool, same, different);
      assert IsReady(Next(s, c, Reconcile(w, Evicted(pool), order)).nodes[n]);
    }
  }

  /** The finalizer is dropped exactly when every node of the pool could leave and no project holds a queue
      for it. */
  lemma DroppedIff(s: Settings, w: World, c: Cluster, order: seq<string>, pool: Pool,
                   projects: map<string, seq<string>>)
    requires Orderly(s, c, order) && Happens(s, c, Reconcile(w, Evicted(pool), order))
    ensures var after := Next(s, c, Reconcile(w, Evicted(pool), order));
            AllReady(s, pool.name, c.nodes, after.nodes) && !Referenced(pool.name, projects) <==>
            && !Referenced(pool.name, projects)
            && forall n :: n in c.nodes && PoolLabel(s, c.nodes[n]) == Some(pool.name) ==> CanLeave(s, c, n)
  {
    forall n | n in c.nodes && PoolLabel(s, c.nodes[n]) == Some(pool.name)
      ensures IsReady(SteppedIn(s, w, BoundIn(c, order), n, c.nodes[n], Evicted(pool))) <==> CanLeave(s, c, n)
    {
      EvictedNode(s, w, c, order, pool, n);
    }
  }

  /** Why a pod group must not come back to the pool of a bound pod. A group moves on while a pod of it is
      bound, so the pod stops counting; its node is then free to leave the pool; when the group comes back,
      the pod counts on a node of another pool. */
  lemma GroupComingBackBreaksDrain(s: Settings, w: World, c: Cluster, order: seq<string>, pool: Pool, name: string,
                                   other: Option<string>)
    requires Orderly(s, c, order) && Allowed(s, w, Evicted(pool)) && ProperWorld(w)
    requires name in c.pods && Counted(c.groups, c.pods[name]) && c.pods[name].pool == Some(pool.name)
    requires var group := GroupOf(c.pods[name]);
             && (forall p :: p in c.pods && OfPodGroup(c.pods[p], group) ==> c.pods[p].pool != other)
             && (forall p :: p in c.pods && c.pods[p].node == c.pods[name].node && Counted(c.groups, c.pods[p]) ==>
                               OfPodGroup(c.pods[p], group))
    ensures var group := GroupOf(c.pods[name]);
            var moved := Next(s, c, SetGroup(group, other));
            var left := Next(s, moved, Reconcile(w, Evicted(pool), order));
            Drained(s, left) && !Drained(s, Next(s, left, SetGroup(group, Some(pool.name))))
  {
    var pod, n := c.pods[name], c.pods[name].node;
    var group := GroupOf(pod);
    assert InOwnPool(s, c, pod);
    var moved := Next(s, c, SetGroup(group, other));
    StepKeepsDrained(s, c, SetGroup(group, other));
    forall m ensures LocalOn(moved, m) {
      assert LocalOn(c, m);
    }
    assert EmptyNode(moved, n);
    var left := Next(s, moved, Reconcile(w, Evicted(pool), order));
    StepKeepsDrained(s, moved, Reconcile(w, Evicted(pool), order));
    EvictedNode(s, w, moved, order, pool, n);
    assert left.pods[name] == pod && !InOwnPool(s, left, pod);
    SetGroupIsSafeIff(s, left, group, Some(pool.name));
  }

  function GroupOf(pod: Pod): (string, string)
    requires pod.group.Some?
  {
    (pod.namespace, pod.group.value)
  }

  // ------------------------------------------------ why group names must be local

  /** Every bound pod, whether it counts or not, is on a node of its own pool. */
  ghost predicate AllInOwnPool(s: Settings, c: Cluster) {
    && (forall n :: n in c.nodes ==> ProperLabel(s, PoolLabel(s, c.nodes[n])))
    && (forall p :: p in c.pods ==> InOwnPool(s, c, c.pods[p]))
  }

  /** The eviction keeps the invariant, whatever pod groups there are and however the pods are listed. */
  ghost predicate EvictionIsSafe(s: Settings, w: World, c: Cluster, pool: Pool)
    requires Allowed(s, w, Evicted(pool)) && ProperWorld(w)
  {
    forall groups, order :: Lists(order, c.pods) ==>
        Drained(s, Next(s, c.(groups := groups), Reconcile(w, Evicted(pool), order)))
  }

  lemma LocalEvictionIsSafe(s: Settings, w: World, c: Cluster, pool: Pool, groups: PodGroups, order: seq<string>)
    requires ProperSettings(s) && Allowed(s, w, Evicted(pool)) && ProperWorld(w) && AllInOwnPool(s, c) &&
             Lists(order, c.pods)
    requires forall n :: n in c.nodes && PoolLabel(s, c.nodes[n]) == Some(pool.name) ==> LocalOn(c, n)
    ensures Drained(s, Next(s, c.(groups := groups), Reconcile(w, Evicted(pool), order)))
  {
    var d := c.(groups := groups);
    forall n | n in d.nodes
      ensures var after := PoolLabel(s, SteppedIn(s, w, BoundIn(d, order), n, d.nodes[n], Evicted(pool)));
              ProperLabel(s, after) && (after != PoolLabel(s, d.nodes[n]) ==> EmptyNode(d, n))
    {
      if PoolLabel(s, d.nodes[n]) == Some(pool.name) {
        assert LocalOn(c, n);
        assert LocalOn(d, n);
        NodeMovesOnlyWhenEmpty(s, d, w, Evicted(pool), order, n);
      }
    }
    var after := Next(s, d, Reconcile(w, Evicted(pool), order));
    forall p | p in d.pods && Counted(d.groups, d.pods[p])
      ensures InOwnPool(s, after, d.pods[p])
    {
      assert InOwnPool(s, c, d.pods[p]);
    }
  }

  /** Two pods of the pool on one node, in different namespaces, name the same group. In any listing the first
      of that name is foreign to one of them, and with a group for that one only, the filter drops both: the
      node leaves the pool under a pod that counts. */
  lemma ForeignNameBreaksDrain(s: Settings, w: World, c: Cluster, pool: Pool, order: seq<string>, n: string)
    returns (groups: PodGroups)
    requires ProperSettings(s) && Allowed(s, w, Evicted(pool)) && ProperWorld(w) && AllInOwnPool(s, c) &&
             Lists(order, c.pods)
    requires n in c.nodes && PoolLabel(s, c.nodes[n]) == Some(pool.name) && !LocalOn(c, n)
    ensures var d := c.(groups := groups);
            Drained(s, d) && !Drained(s, Next(s, d, Reconcile(w, Evicted(pool), order)))
  {
    var p, q :| p in c.pods && q in c.pods && TogetherOn(c.pods[p], c.pods[q], n)
                && c.pods[p].namespace != c.pods[q].namespace;
    var listed := ListedOn(s, ListedIn(order, c.pods), n, pool.name, true);
    OfThePoolIsListed(s, c, order, n, pool.name, p);
    OfThePoolIsListed(s, c, order, n, pool.name, q);
    OfGroupAre(listed, c.pods[p].group.value, c.pods[p]);
    var first := OfGroup(listed, c.pods[p].group.value)[0];
    var missed := if first.namespace != c.pods[p].namespace then p else q;
    groups := ForeignFirstMisses(listed, c.pods[missed]);
    LeavesUnderCounted(s, w, c.(groups := groups), pool, order, n, missed);
  }

  lemma OfThePoolIsListed(s: Settings, c: Cluster, order: seq<string>, n: string, pool: string, p: string)
    requires Lists(order, c.pods) && p in c.pods && c.pods[p].node == n && Selects(s, pool, c.pods[p].pool)
    ensures c.pods[p] in ListedOn(s, ListedIn(order, c.pods), n, pool, true)
  {
    ListedInAre(order, c.pods, c.pods[p]);
    ListedOnAre(s, ListedIn(order, c.pods), n, pool, true, c.pods[p]);
  }

  lemma LeavesUnderCounted(s: Settings, w: World, d: Cluster, pool: Pool, order: seq<string>, n: string, missed: string)
    requires ProperSettings(s) && Allowed(s, w, Evicted(pool)) && ProperWorld(w) && AllInOwnPool(s, d) &&
             Lists(order, d.pods)
    requires n in d.nodes && PoolLabel(s, d.nodes[n]) == Some(pool.name)
    requires missed in d.pods && d.pods[missed].node == n && Counted(d.groups, d.pods[missed])
    requires !HasSame(s, BoundIn(d, order), n, pool.name)
    ensures !Drained(s, Next(s, d, Reconcile(w, Evicted(pool), order)))
  {
    EvictedLeaves(s, w, d.nodes[n], pool, false, HasDifferent(s, BoundIn(d, order), n, pool.name));
    assert !InOwnPool(s, Next(s, d, Reconcile(w, Evicted(pool), order)), d.pods[missed]);
  }

  /** While every bound pod is in its own pool, evicting a pool is safe, whatever pod groups there are and
      however the pods are listed, exactly when on each of its nodes pods that share a group name share a
      namespace. */
  lemma EvictionIsSafeIff(s: Settings, w: World, c: Cluster, pool: Pool)
    requires ProperSettings(s) && Allowed(s, w, Evicted(pool)) && ProperWorld(w) && AllInOwnPool(s, c)
    ensures EvictionIsSafe(s, w, c, pool)
       <==> forall n :: n in c.nodes && PoolLabel(s, c.nodes[n]) == Some(pool.name) ==> LocalOn(c, n)
  {
    if forall n :: n in c.nodes && PoolLabel(s, c.nodes[n]) == Some(pool.name) ==> LocalOn(c, n) {
      forall groups, order | Lists(order, c.pods)
        ensures Drained(s, Next(s, c.(groups := groups), Reconcile(w, Evicted(pool), order)))
      {
        LocalEvictionIsSafe(s, w, c, pool, groups, order);
      }
    } else {
      var n :| n in c.nodes && PoolLabel(s, c.nodes[n]) == Some(pool.name) && !LocalOn(c, n);
      var order := SomeOrder(c.pods.Keys);
      assert Lists(order, c.pods);
      var groups := ForeignNameBreaksDrain(s, w, c, pool, order, n);
    }
  }

  lemma SomeOrder(names: set<string>) returns (order: seq<string>)
    ensures forall p :: p in order <==> p in names
    decreases names
  {
    if names == {} {
      order := [];
    } else {
      var p :| p in names;
      var rest := SomeOrder(names - {p});
      order := [p] + rest;
    }
  }

  // ------------------------------------------------ and it stays unused

  /** No available pool has the name: it is being deleted, or gone. */
  predicate NotOffered(w: World, pool: string) {
    forall i :: 0 <= i < |w.pools| ==> w.pools[i].name == pool ==> w.pools[i].deleting
  }

  lemma FoundIsOffered(s: Settings, w: World, name: string, labels: map<string, string>, pool: string)
    requires NotOffered(w, pool) && pool != s.defaultPool
    ensures FindMatching(s, AvailablePools(w.pools), labels) != pool
    ensures FindMatching(s, OtherPools(AvailablePools(w.pools), name), labels) != pool
  {
    FoundIsListed(s, AvailablePools(w.pools), labels);
    FoundIsListed(s, OtherPools(AvailablePools(w.pools), name), labels);
    forall p | p in AvailablePools(w.pools)
      ensures p.name != pool
    {
      AvailableAre(w.pools, p);
    }
    forall p | p in OtherPools(AvailablePools(w.pools), name)
      ensures p.name != pool
    {
      OthersAre(AvailablePools(w.pools), name, p);
    }
  }

  lemma StepOffersNoDeletedPool(s: Settings, w: World, node: Node, step: SubStep, pool: string)
    requires ProperSettings(s) && Allowed(s, w, step) && ProperWorld(w) && NotOffered(w, pool)
    requires pool != s.defaultPool && pool != s.excludedPool
    ensures Target(s, w, node, step) != Some(pool)
  {
    FoundIsOffered(s, w, "", node.labels, pool);
    FoundIsOffered(s, w, if step.Evicted? then step.pool.name else "", Uncordoned(s, node).labels, pool);
  }

  /** Until a pool of that name is offered again, no run brings a node back to it. */
  lemma {:induction false} StaysUnused(s: Settings, c: Cluster, events: seq<Event>, pool: string)
    requires ProperSettings(s) && Unused(s, pool, c) && pool != s.defaultPool && pool != s.excludedPool
    requires forall i :: 0 <= i < |events| ==> KeepsAway(s, events[i], pool)
    ensures Unused(s, pool, Run(s, c, events))
    decreases |events|
  {
    if events != [] {
      assert KeepsAway(s, events[0], pool);
      if Happens(s, c, events[0]) {
        EventKeepsUnused(s, c, events[0], pool);
        StaysUnused(s, Next(s, c, events[0]), events[1..], pool);
      } else {
        StaysUnused(s, c, events[1..], pool);
      }
    }
  }

  predicate KeepsAway(s: Settings, e: Event, pool: string) {
    match e
    case Reconcile(w, _, _) => NotOffered(w, pool)
    case Edit(_, value) => PoolLabel(s, value) != Some(pool)
    case _ => true
  }

  lemma EventKeepsUnused(s: Settings, c: Cluster, e: Event, pool: string)
    requires ProperSettings(s) && Unused(s, pool, c) && pool != s.defaultPool && pool != s.excludedPool
    requires Happens(s, c, e) && KeepsAway(s, e, pool)
    ensures Unused(s, pool, Next(s, c, e))
  {
    if e.Reconcile? {
      var bound := BoundIn(c, e.order);
      forall n | n in c.nodes
        ensures PoolLabel(s, SteppedIn(s, e.world, bound, n, c.nodes[n], e.step)) != Some(pool)
      {
        var from := OldPool(s, c.nodes[n], e.step);
        SteppedLabel(s, e.world, c.nodes[n], e.step, HasSame(s, bound, n, from), HasDifferent(s, bound, n, from));
        StepOffersNoDeletedPool(s, e.world, c.nodes[n], e.step, pool);
      }
    }
  }
}
