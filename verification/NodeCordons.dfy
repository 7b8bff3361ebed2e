/** What a step of either controller leaves of a node besides its pool label: whether it may be scheduled on, and
    the labels that say why. Nothing here assumes that pods are where they belong. */
module NodeCordons {
  import opened CountedPods
  import opened Nodes
  import opened NodeDrain
  import opened Wrappers

  /** Cordoned by someone other than the controllers. */
  predicate CordonedByOthers(s: Settings, node: Node) { node.unschedulable && s.cordonLabel !in node.labels }

  /** The node as the controllers leave it when they want it cordoned, or not: a cordon of theirs is marked, and
      where they want none only one of someone else remains. */
  predicate LeftCordoned(s: Settings, before: Node, after: Node, cordon: bool) {
    && (cordon ==> after.unschedulable && s.cordonLabel in after.labels)
    && (!cordon ==> after.unschedulable == CordonedByOthers(s, before) && s.cordonLabel !in after.labels)
    && after.ready == before.ready
  }

  /** All labels but these are as they were. */
  ghost predicate LabelsKeptBut(before: Node, after: Node, keys: set<string>) {
    forall k :: k !in keys ==> LabelOf(after.labels, k) == LabelOf(before.labels, k)
  }

  lemma ChangedCordons(s: Settings, node: Node, busy: bool, target: string, pools: seq<Pool>)
    requires ProperSettings(s)
    ensures var after := Changed(s, node, busy, target, pools);
            LeftCordoned(s, node, after, busy) && LabelsKeptBut(node, after, {s.cordonLabel, s.poolLabel})
  {
  }

  /** A step of the node pool controller that wants to move the node cordons it exactly while pods of its old
      pool were found. */
  lemma MoveCordons(s: Settings, w: World, node: Node, step: SubStep, same: bool, different: bool)
    requires ProperSettings(s) && Target(s, w, node, step).Some? && !step.Managed?
    ensures var after := Stepped(s, w, node, step, same, different);
            LeftCordoned(s, node, after, same) && LabelsKeptBut(node, after, {s.cordonLabel, s.poolLabel})
  {
    var available := AvailablePools(w.pools);
    match step {
      case Misplaced(_) => ChangedCordons(s, node, same, "", available);
      case Unclaimed(pool) => ChangedCordons(s, node, same, pool.name, []);
      case InDefault => ChangedCordons(s, node, same, FindMatching(s, available, node.labels), []);
      case NotInDefault => ChangedCordons(s, node, same, "", available);
      case Evicted(pool) => ChangedCordons(s, node, same, "", OtherPools(available, pool.name));
    }
  }

  lemma MarkSays(s: Settings, node: Node, waiting: bool)
    requires ProperSettings(s)
    ensures var after := Marked(s, node, waiting);
            && (s.excludeLabel in after.labels <==> waiting)
            && LabelsKeptBut(node, after, {s.excludeLabel}) && after.ready == node.ready
            && after.unschedulable == node.unschedulable &&
                (s.cordonLabel in after.labels <==> s.cordonLabel in node.labels)
  {
  }

  lemma ChangedAndMarked(s: Settings, node: Node, busy: bool, target: string, waiting: bool)
    requires ProperSettings(s)
    ensures var after := Marked(s, ChangedTo(s, node, busy, target), waiting);
            && LeftCordoned(s, node, after, busy) && (s.excludeLabel in after.labels <==> waiting)
            && LabelsKeptBut(node, after, {s.cordonLabel, s.poolLabel, s.excludeLabel})
  {
    ChangedCordons(s, node, busy, target, []);
    MarkSays(s, ChangedTo(s, node, busy, target), waiting);
  }

  /** The managed nodes controller does the same, and marks the node as waiting exactly when it is to be excluded
      and cannot be yet. */
  lemma ManagedMoveCordons(s: Settings, w: World, node: Node, all: bool, same: bool, different: bool)
    requires ProperSettings(s) && ProperWorld(w) && Target(s, w, node, Managed(all)).Some?
    ensures var after := Stepped(s, w, node, Managed(all), same, different);
            && LeftCordoned(s, node, after, same)
            && LabelsKeptBut(node, after, {s.cordonLabel, s.poolLabel, s.excludeLabel})
            && (s.excludeLabel in after.labels <==> same && !w.included(node.labels))
  {
    ChangedAndMarked(s, node, same, s.defaultPool, false);
    ChangedAndMarked(s, node, same, s.excludedPool, same);
  }

  /** A node it does not move it leaves as it is, but for the mark of an included node, which goes when all nodes
      are reconciled. */
  lemma ManagedStayUnmarks(s: Settings, w: World, node: Node, all: bool, same: bool, different: bool)
    requires ProperSettings(s) && ProperWorld(w) && Target(s, w, node, Managed(all)).None?
    ensures var after, pool := Stepped(s, w, node, Managed(all), same, different), PoolLabel(s, node);
            var unmarks := all && w.included(node.labels) && !(pool.Some? && pool.value in w.unmanaged);
            && (!unmarks ==> after == node)
            && (unmarks ==> after.unschedulable == node.unschedulable && after.ready == node.ready)
            && (unmarks ==> LabelsKeptBut(node, after, {s.excludeLabel}) && s.excludeLabel !in after.labels)
  {
    MarkSays(s, node, false);
  }

  /** The node is in the pool and carries its label pair. */
  predicate InMatchingPool(s: Settings, node: Node, pool: Pool) {
    && s.poolLabel in node.labels && node.labels[s.poolLabel] == pool.name
    && pool.labelKey in node.labels && node.labels[pool.labelKey] == pool.labelValue
  }

  /** The node is in the default pool, and no available pool's label pair is on it. */
  predicate InDefaultForGood(s: Settings, w: World, node: Node) {
    && s.poolLabel !in node.labels
    && forall i :: 0 <= i < |w.pools| && !w.pools[i].deleting ==>
                     LabelOf(node.labels, w.pools[i].labelKey) != Some(w.pools[i].labelValue)
  }

  lemma UnmatchedIsDefault(s: Settings, w: World, node: Node)
    requires InDefaultForGood(s, w, node)
    ensures FindMatching(s, AvailablePools(w.pools), node.labels) == s.defaultPool
  {
    NoneAvailableMatches(s, w.pools, node.labels);
  }

  lemma {:induction false} NoneAvailableMatches(s: Settings, pools: seq<Pool>, labels: map<string, string>)
    requires forall i :: 0 <= i < |pools| && !pools[i].deleting ==>
             LabelOf(labels, pools[i].labelKey) != Some(pools[i].labelValue)
    ensures FindMatching(s, AvailablePools(pools), labels) == s.defaultPool
  {
    if pools != [] {
      NoneAvailableMatches(s, pools[1..], labels);
    }
  }

  predicate Offers(pool: Pool, labels: map<string, string>) {
    !pool.deleting && LabelOf(labels, pool.labelKey) == Some(pool.labelValue)
  }

  /** The search for a pool takes the first listed one that is not being deleted and whose label pair the node
      carries. */
  lemma {:induction false} FirstAvailableIsFound(s: Settings, pools: seq<Pool>, labels: map<string, string>, i: nat)
    requires i < |pools| && Offers(pools[i], labels) && forall j :: 0 <= j < i ==> !Offers(pools[j], labels)
    ensures FindMatching(s, AvailablePools(pools), labels) == pools[i].name
  {
    if i > 0 {
      FirstAvailableIsFound(s, pools[1..], labels, i - 1);
    }
  }

  /** And the first other one, for a node of a pool that is being deleted. */
  lemma {:induction false} FirstOtherIsFound(s: Settings, pools: seq<Pool>, name: string, labels: map<string, string>,
                                             i: nat)
    requires i < |pools| && Offers(pools[i], labels) && pools[i].name != name
    requires forall j :: 0 <= j < i ==> pools[j].name == name || !Offers(pools[j], labels)
    ensures FindMatching(s, OtherPools(AvailablePools(pools), name), labels) == pools[i].name
  {
    if i > 0 {
      FirstOtherIsFound(s, pools[1..], name, labels, i - 1);
    }
  }

  // ------------------------------------------------ on the cluster

  /** A node in its matching pool is cordoned while a pod that counts of another pool runs on it; else only a
      cordon of someone else remains. */
  lemma InPlaceCordons(s: Settings, w: World, c: Cluster, order: seq<string>, pool: Pool, n: string)
    requires ProperSettings(s) && Happens(s, c, Reconcile(w, InPlace(pool), order)) && n in c.nodes && LocalOn(c, n)
    ensures var node, after := c.nodes[n], Next(s, c, Reconcile(w, InPlace(pool), order)).nodes[n];
            if InMatchingPool(s, node, pool) then
              && LeftCordoned(s, node, after, HoldsCounted(s, c, n, pool.name, false))
              && LabelsKeptBut(node, after, {s.cordonLabel})
            else after == node
  {
    SearchIsExact(s, c, order, n, pool.name, false);
  }

  /** So is a node of the default pool that no other pool claims. */
  lemma InDefaultCordons(s: Settings, w: World, c: Cluster, order: seq<string>, n: string)
    requires ProperSettings(s) && Happens(s, c, Reconcile(w, InDefault, order)) && n in c.nodes && LocalOn(c, n)
    ensures var node, after := c.nodes[n], Next(s, c, Reconcile(w, InDefault, order)).nodes[n];
            && (InDefaultForGood(s, w, node) ==>
                  LeftCordoned(s, node, after, HoldsCounted(s, c, n, s.defaultPool, false)))
            && (InDefaultForGood(s, w, node) ==> LabelsKeptBut(node, after, {s.cordonLabel}))
            && (s.poolLabel in node.labels ==> after == node)
  {
    SearchIsExact(s, c, order, n, s.defaultPool, false);
    var bound := BoundIn(c, order);
    InDefaultStepCordons(s, w, c.nodes[n], HasSame(s, bound, n, s.defaultPool),
        HasDifferent(s, bound, n, s.defaultPool));
  }

  lemma InDefaultStepCordons(s: Settings, w: World, node: Node, same: bool, different: bool)
    requires ProperSettings(s)
    ensures var after := Stepped(s, w, node, InDefault, same, different);
            && (InDefaultForGood(s, w, node) ==> LeftCordoned(s, node, after, different))
            && (InDefaultForGood(s, w, node) ==> LabelsKeptBut(node, after, {s.cordonLabel}))
            && (s.poolLabel in node.labels ==> after == node)
  {
    if InDefaultForGood(s, w, node) {
      UnmatchedIsDefault(s, w, node);
    }
  }

  /** A node that a step of the node pool controller wants to move is cordoned, and keeps its pool, exactly while
      a pod that counts of the pool it is asked about runs on it; a node that none of these steps concerns is
      left as it is. */
  lemma MovesCordonWhileBusy(s: Settings, w: World, c: Cluster, order: seq<string>, step: SubStep, n: string)
    requires ProperSettings(s) && Happens(s, c, Reconcile(w, step, order)) && n in c.nodes && LocalOn(c, n)
    requires !step.Managed? && !step.InPlace?
    ensures var node, after := c.nodes[n], Next(s, c, Reconcile(w, step, order)).nodes[n];
            var moves, busy := Target(s, w, node, step), HoldsCounted(s, c, n, OldPool(s, node, step), true);
            && (moves.Some? ==> LeftCordoned(s, node, after, busy))
            && (moves.Some? ==> PoolLabel(s, after) == Moved(s, node, moves, busy))
            && (moves.Some? ==> LabelsKeptBut(node, after, {s.cordonLabel, s.poolLabel}))
            && (moves.None? && !step.InDefault? ==> after == node)
  {
    var node, pool, bound := c.nodes[n], OldPool(s, c.nodes[n], step), BoundIn(c, order);
    SearchIsExact(s, c, order, n, pool, true);
    SteppedLabel(s, w, node, step, HasSame(s, bound, n, pool), HasDifferent(s, bound, n, pool));
    if Target(s, w, node, step).Some? {
      MoveCordons(s, w, node, step, HasSame(s, bound, n, pool), HasDifferent(s, bound, n, pool));
    }
  }
}
