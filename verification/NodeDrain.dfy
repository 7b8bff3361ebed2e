/** Draining over whole runs: schedulers bind pods and pods end while both controllers relabel and cordon
    nodes. Every counted pod stays on a node of its own pool, and a node changes pool only when empty. */
module NodeDrain {
  import opened CountedPods
  import opened Nodes
  import opened Wrappers

  datatype Cluster = Cluster(nodes: map<string, Node>, pods: map<string, Pod>, groups: PodGroups)

  datatype Event =
    /** A controller takes a sub-step, with the pools and criteria of the moment and the pods listed in
        some order. */
    | Reconcile(world: World, step: SubStep, order: seq<string>)
    /** A scheduler binds a pod. */
    | Bind(name: string, pod: Pod)
    /** A pod ends. */
    | Finish(name: string)
    /** A pod group is created, or its pool label changes. */
    | SetGroup(group: (string, string), pool: Option<string>)
    | DropGroup(group: (string, string))
    /** The pool label of a bound pod changes. */
    | SetPool(name: string, pool: Option<string>)
    /** Anyone else changes a node, or adds one. */
    | Edit(node: string, value: Node)

  /** The pool label never spells out the default pool: its absence does that. */
  predicate ProperLabel(s: Settings, mark: Option<string>) {
    mark != Some("") && mark != Some(s.defaultPool)
  }

  /** Pools and partitions have names. */
  predicate ProperWorld(w: World) {
    "" !in w.unmanaged && forall i :: 0 <= i < |w.pools| ==> w.pools[i].name != ""
  }

  /** The order lists every pod. */
  ghost predicate Lists(order: seq<string>, pods: map<string, Pod>) {
    forall p :: p in order <==> p in pods
  }

  function ListedIn(order: seq<string>, pods: map<string, Pod>): (r: seq<Pod>)
    requires forall p :: p in order ==> p in pods
  {
    seq(|order|, i requires 0 <= i < |order| => assert order[i] in order; pods[order[i]])
  }

  function BoundIn(c: Cluster, order: seq<string>): Bound
    requires forall p :: p in order ==> p in c.pods
  {
    Bound(ListedIn(order, c.pods), c.groups)
  }

  /** Schedulers bind only to uncordoned nodes of the pod's own pool; all else is left open. */
  ghost predicate Happens(s: Settings, c: Cluster, e: Event) {
    match e
    case Reconcile(w, step, order) => Allowed(s, w, step) && ProperWorld(w) && Lists(order, c.pods)
    case Bind(name, pod) => name !in c.pods && InOwnPool(s, c, pod) && !c.nodes[pod.node].unschedulable
    case Finish(name) => name in c.pods
    case SetPool(name, _) => name in c.pods
    case _ => true
  }

  predicate OfPodGroup(pod: Pod, group: (string, string)) {
    pod.group.Some? && (pod.namespace, pod.group.value) == group
  }

  ghost function Next(s: Settings, c: Cluster, e: Event): Cluster
    requires Happens(s, c, e)
  {
    match e
    case Reconcile(w, step, order) => c.(nodes := AllStepped(s, w, c.nodes, BoundIn(c, order), step))
    case Bind(name, pod) => c.(pods := c.pods[name := pod])
    case Finish(name) => c.(pods := c.pods - {name})
    case SetGroup(group, pool) => c.(groups := c.groups[group := pool])
    case DropGroup(group) => c.(groups := c.groups - {group})
    case SetPool(name, pool) => c.(pods := c.pods[name := c.pods[name].(pool := pool)])
    case Edit(node, value) => c.(nodes := c.nodes[node := value])
  }

  /** The cluster after a run; events that cannot happen are passed over. */
  ghost function Run(s: Settings, c: Cluster, events: seq<Event>): Cluster
    decreases |events|
  {
    if events == [] then c
    else if Happens(s, c, events[0]) then Run(s, Next(s, c, events[0]), events[1..])
    else Run(s, c, events[1..])
  }

  /** Every pod that counts, its pool label being that of its pod group, runs on a node of its own pool. */
  ghost predicate Drained(s: Settings, c: Cluster) {
    && (forall n :: n in c.nodes ==> ProperLabel(s, PoolLabel(s, c.nodes[n])))
    && (forall p :: p in c.pods && Counted(c.groups, c.pods[p]) ==> InOwnPool(s, c, c.pods[p]))
  }

  predicate InOwnPool(s: Settings, c: Cluster, pod: Pod) {
    pod.node in c.nodes && PoolLabel(s, c.nodes[pod.node]) == pod.pool
  }

  /** No pod on the node counts. */
  predicate EmptyNode(c: Cluster, node: string) {
    forall p :: p in c.pods && c.pods[p].node == node ==> !Counted(c.groups, c.pods[p])
  }

  /** Pods on the node that share a group name share a namespace. */
  ghost predicate LocalOn(c: Cluster, node: string) {
    forall p, q :: p in c.pods && q in c.pods && TogetherOn(c.pods[p], c.pods[q], node) ==>
                     c.pods[p].namespace == c.pods[q].namespace
  }

  predicate TogetherOn(p: Pod, q: Pod, node: string) { p.node == q.node == node && SameGroupName(p, q) }

  ghost predicate LocalNames(c: Cluster) {
    forall n :: LocalOn(c, n)
  }

  /** And so it is all along a run. */
  ghost predicate LocalThroughout(s: Settings, c: Cluster, events: seq<Event>)
    decreases |events|
  {
    && LocalNames(c)
    && (events != [] ==> LocalThroughout(s, if Happens(s, c, events[0]) then Next(s, c, events[0]) else c, events[1..]))
  }

  // ------------------------------------------------ what a search for pods finds

  lemma {:induction false} ListedOnAre(s: Settings, pods: seq<Pod>, node: string, pool: string, samePool: bool,
                                       pod: Pod)
    ensures pod in ListedOn(s, pods, node, pool, samePool) <==>
            pod in pods && pod.node == node && Selects(s, pool, pod.pool) == samePool
  {
    if pods != [] {
      var rest, last := pods[..|pods| - 1], pods[|pods| - 1];
      ListedOnAre(s, rest, node, pool, samePool, pod);
      assert pods == rest + [last];
    }
  }

  lemma ListedInAre(order: seq<string>, pods: map<string, Pod>, pod: Pod)
    requires Lists(order, pods)
    ensures pod in ListedIn(order, pods) <==> exists p :: p in pods && pods[p] == pod
  {
    var listed := ListedIn(order, pods);
    if pod in listed {
      var i :| 0 <= i < |listed| && listed[i] == pod;
      assert order[i] in order;
    }
    if p :| p in pods && pods[p] == pod {
      var i :| 0 <= i < |order| && order[i] == p;
      assert listed[i] == pod;
    }
  }

  /** Some pod on the node that counts is of the pool, or is not. */
  ghost predicate HoldsCounted(s: Settings, c: Cluster, node: string, pool: string, samePool: bool) {
    exists p :: p in c.pods && OnNode(s, c.pods[p], node, pool, samePool) && Counted(c.groups, c.pods[p])
  }

  predicate OnNode(s: Settings, pod: Pod, node: string, pool: string, samePool: bool) {
    pod.node == node && Selects(s, pool, pod.pool) == samePool
  }

  /** Where group names are local to a node, a search there finds pods exactly when some pod that counts is
      there, whatever the listing order. */
  lemma SearchIsExact(s: Settings, c: Cluster, order: seq<string>, node: string, pool: string, samePool: bool)
    requires LocalOn(c, node) && Lists(order, c.pods)
    ensures AnyKept(ListedOn(s, ListedIn(order, c.pods), node, pool, samePool), c.groups)
       <==> HoldsCounted(s, c, node, pool, samePool)
  {
    var listed := ListedOn(s, ListedIn(order, c.pods), node, pool, samePool);
    forall pod
      ensures pod in listed <==> exists p :: p in c.pods && c.pods[p] == pod && OnNode(s, pod, node, pool, samePool)
    {
      ListedOnAre(s, ListedIn(order, c.pods), node, pool, samePool, pod);
      ListedInAre(order, c.pods, pod);
    }
    assert Local(listed);
    AnswerIsExactIff(listed);
    assert AnyKept(listed, c.groups) <==> AnyCounted(listed, c.groups);
    if HoldsCounted(s, c, node, pool, samePool) {
      var p :| p in c.pods && OnNode(s, c.pods[p], node, pool, samePool) && Counted(c.groups, c.pods[p]);
      assert c.pods[p] in listed;
    }
  }

  // ------------------------------------------------ one node

  lemma {:induction false} FoundIsNamed(s: Settings, pools: seq<Pool>, labels: map<string, string>)
    requires s.defaultPool != "" && forall i :: 0 <= i < |pools| ==> pools[i].name != ""
    ensures FindMatching(s, pools, labels) != ""
  {
    if pools != [] && !PairMatches(pools[0], labels) {
      FoundIsNamed(s, pools[1..], labels);
    }
  }

  lemma {:induction false} AvailableAre(pools: seq<Pool>, pool: Pool)
    ensures pool in AvailablePools(pools) <==> pool in pools && !pool.deleting
  {
    if pools != [] {
      AvailableAre(pools[1..], pool);
      assert pool in pools <==> pool == pools[0] || pool in pools[1..];
    }
  }

  lemma {:induction false} OthersAre(pools: seq<Pool>, name: string, pool: Pool)
    ensures pool in OtherPools(pools, name) <==> pool in pools && pool.name != name
  {
    if pools != [] {
      OthersAre(pools[1..], name, pool);
      assert pool in pools <==> pool == pools[0] || pool in pools[1..];
    }
  }

  lemma CordonKeepsPool(s: Settings, node: Node)
    requires ProperSettings(s)
    ensures PoolLabel(s, Cordoned(s, node)) == PoolLabel(s, node)
    ensures PoolLabel(s, Uncordoned(s, node)) == PoolLabel(s, node)
  {
  }

  lemma MarkKeepsPool(s: Settings, node: Node, waiting: bool)
    requires ProperSettings(s)
    ensures PoolLabel(s, Marked(s, node, waiting)) == PoolLabel(s, node)
  {
  }

  function LabelFor(s: Settings, pool: string): Option<string> {
    if pool == s.defaultPool then None else Some(pool)
  }

  /** The pool a sub-step wants a node to move to, if any. */
  function Target(s: Settings, w: World, node: Node, step: SubStep): Option<string> {
    var mark, available, free := PoolLabel(s, node), AvailablePools(w.pools), Uncordoned(s, node).labels;
    match step
    case Misplaced(pool) =>
      if mark == Some(pool.name) && !PairMatches(pool, node.labels) then Some(FindMatching(s, available, free))
          else None
    case Unclaimed(pool) => if mark.None? && PairMatches(pool, node.labels) then Some(pool.name) else None
    case InPlace(_) => None
    case InDefault =>
      var found := FindMatching(s, available, node.labels);
      if mark.None? && found != s.defaultPool then Some(found) else None
    case NotInDefault =>
      if mark.Some? && !KnownPool(s, w, PoolOf(s, mark)) then Some(FindMatching(s, available, free)) else None
    case Evicted(pool) =>
      if mark == Some(pool.name) then Some(FindMatching(s, OtherPools(available, pool.name), free)) else None
    case Managed(_) =>
      if mark.Some? && mark.value in w.unmanaged then None
      else if mark == Some(s.excludedPool) then if w.included(node.labels) then Some(s.defaultPool) else None
      else if w.included(node.labels) then None else Some(s.excludedPool)
  }

  /** A move happens at once, unless pods of the old pool were found. */
  function Moved(s: Settings, node: Node, target: Option<string>, same: bool): Option<string> {
    if target.None? || same then PoolLabel(s, node) else LabelFor(s, target.value)
  }

  lemma ChangedLabel(s: Settings, node: Node, busy: bool, target: string, pools: seq<Pool>)
    requires ProperSettings(s)
    ensures var pool := if target == "" then FindMatching(s, pools, Uncordoned(s, node).labels) else target;
            PoolLabel(s, Changed(s, node, busy, target, pools)) == if busy then PoolLabel(s, node)
                else LabelFor(s, pool)
  {
    CordonKeepsPool(s, node);
  }

  lemma ManagedLabel(s: Settings, w: World, node: Node, same: bool, all: bool)
    requires ProperSettings(s) && "" !in w.unmanaged
    ensures PoolLabel(s, ManagedStep(s, w, node, same, all)) == Moved(s, node, Target(s, w, node, Managed(all)), same)
  {
    var back, out := ChangedTo(s, node, same, s.defaultPool), ChangedTo(s, node, same, s.excludedPool);
    ChangedLabel(s, node, same, s.defaultPool, []);
    ChangedLabel(s, node, same, s.excludedPool, []);
    MarkKeepsPool(s, node, false);
    MarkKeepsPool(s, back, false);
    MarkKeepsPool(s, out, same);
  }

  /** Where every sub-step takes the pool label of a node. */
  lemma SteppedLabel(s: Settings, w: World, node: Node, step: SubStep, same: bool, different: bool)
    requires ProperSettings(s) && ProperWorld(w) && Allowed(s, w, step)
    ensures PoolLabel(s, Stepped(s, w, node, step, same, different)) == Moved(s, node, Target(s, w, node, step), same)
  {
    var available := AvailablePools(w.pools);
    CordonKeepsPool(s, node);
    match step {
      case Misplaced(_) => ChangedLabel(s, node, same, "", available);
      case Unclaimed(pool) => ChangedLabel(s, node, same, pool.name, []);
      case InPlace(_) =>
      case InDefault =>
        NamedAfterFilters(w, "");
        FoundIsNamed(s, available, node.labels);
        ChangedLabel(s, node, same, FindMatching(s, available, node.labels), []);
      case NotInDefault => ChangedLabel(s, node, same, "", available);
      case Evicted(pool) => ChangedLabel(s, node, same, "", OtherPools(available, pool.name));
      case Managed(all) => ManagedLabel(s, w, node, same, all);
    }
  }

  lemma NamedAfterFilters(w: World, name: string)
    requires ProperWorld(w)
    ensures forall i :: 0 <= i < |AvailablePools(w.pools)| ==> AvailablePools(w.pools)[i].name != ""
    ensures forall i :: 0 <= i < |OtherPools(AvailablePools(w.pools), name)| ==>
            OtherPools(AvailablePools(w.pools), name)[i].name != ""
  {
    forall p | p in AvailablePools(w.pools)
      ensures p.name != ""
    {
      AvailableAre(w.pools, p);
    }
    forall p | p in OtherPools(AvailablePools(w.pools), name)
      ensures p.name != ""
    {
      OthersAre(AvailablePools(w.pools), name, p);
    }
  }

  lemma TargetIsNamed(s: Settings, w: World, node: Node, step: SubStep)
    requires ProperSettings(s) && ProperWorld(w) && Allowed(s, w, step)
    ensures Target(s, w, node, step) != Some("")
  {
    var available, free := AvailablePools(w.pools), Uncordoned(s, node).labels;
    NamedAfterFilters(w, if step.Evicted? then step.pool.name else "");
    FoundIsNamed(s, available, free);
    FoundIsNamed(s, available, node.labels);
    if step.Evicted? {
      FoundIsNamed(s, OtherPools(available, step.pool.name), free);
    }
  }

  /** Every sub-step that moves a node asks for pods of the very pool the node is in. */
  lemma AsksAboutItsPool(s: Settings, w: World, node: Node, step: SubStep)
    requires ProperSettings(s) && Allowed(s, w, step) && ProperLabel(s, PoolLabel(s, node))
    requires Target(s, w, node, step).Some?
    ensures Selects(s, OldPool(s, node, step), PoolLabel(s, node))
  {
  }

  // ------------------------------------------------ every run

  lemma NodeMovesOnlyWhenEmpty(s: Settings, c: Cluster, w: World, step: SubStep, order: seq<string>, n: string)
    requires ProperSettings(s) && Drained(s, c) && LocalOn(c, n) && n in c.nodes
    requires Happens(s, c, Reconcile(w, step, order))
    ensures var after := PoolLabel(s, SteppedIn(s, w, BoundIn(c, order), n, c.nodes[n], step));
            ProperLabel(s, after) && (after != PoolLabel(s, c.nodes[n]) ==> EmptyNode(c, n))
  {
    var pool, bound := OldPool(s, c.nodes[n], step), BoundIn(c, order);
    SteppedLabel(s, w, c.nodes[n], step, HasSame(s, bound, n, pool), HasDifferent(s, bound, n, pool));
    TargetIsNamed(s, w, c.nodes[n], step);
    if Target(s, w, c.nodes[n], step).Some? {
      AsksAboutItsPool(s, w, c.nodes[n], step);
      NotFoundIsEmpty(s, c, order, n, pool);
    }
  }

  lemma NotFoundIsEmpty(s: Settings, c: Cluster, order: seq<string>, n: string, pool: string)
    requires Drained(s, c) && LocalOn(c, n) && Lists(order, c.pods) && n in c.nodes
    requires Selects(s, pool, PoolLabel(s, c.nodes[n]))
    ensures HasSame(s, BoundIn(c, order), n, pool) <==> !EmptyNode(c, n)
    ensures !HasDifferent(s, BoundIn(c, order), n, pool)
  {
    SearchIsExact(s, c, order, n, pool, true);
    SearchIsExact(s, c, order, n, pool, false);
    forall p | p in c.pods && c.pods[p].node == n && Counted(c.groups, c.pods[p])
      ensures OnNode(s, c.pods[p], n, pool, true)
    {
      assert InOwnPool(s, c, c.pods[p]);
    }
  }

  lemma ReconcileKeepsDrained(s: Settings, c: Cluster, e: Event)
    requires ProperSettings(s) && Drained(s, c) && LocalNames(c) && e.Reconcile? && Happens(s, c, e)
    ensures Drained(s, Next(s, c, e))
    ensures forall n :: n in c.nodes && PoolLabel(s, Next(s, c, e).nodes[n]) != PoolLabel(s, c.nodes[n]) ==>
            EmptyNode(c, n)
  {
    forall n | n in c.nodes
      ensures var after := PoolLabel(s, Next(s, c, e).nodes[n]);
              ProperLabel(s, after) && (after != PoolLabel(s, c.nodes[n]) ==> EmptyNode(c, n))
    {
      NodeMovesOnlyWhenEmpty(s, c, e.world, e.step, e.order, n);
    }
  }

  /** The event makes no pod count away from its own pool: a pod group is not given the label of a bound pod of
      it that is elsewhere, a pod is not given its group's label while elsewhere, and nobody else takes a node
      away from under pods that count. Steps of the controllers, binds and ends always are. */
  ghost predicate Harmless(s: Settings, c: Cluster, e: Event)
    requires Happens(s, c, e)
  {
    match e
    case SetGroup(group, pool) =>
      forall p :: p in c.pods && OfPodGroup(c.pods[p], group) && c.pods[p].pool == pool ==> InOwnPool(s, c, c.pods[p])
    case SetPool(name, pool) =>
      Counted(c.groups, c.pods[name].(pool := pool)) ==> InOwnPool(s, c, c.pods[name].(pool := pool))
    case Edit(node, value) =>
      && ProperLabel(s, PoolLabel(s, value))
      && forall p :: p in c.pods && c.pods[p].node == node && Counted(c.groups, c.pods[p]) ==>
                       c.pods[p].pool == PoolLabel(s, value)
    case _ => true
  }

  lemma SetGroupIsSafeIff(s: Settings, c: Cluster, group: (string, string), pool: Option<string>)
    requires Drained(s, c)
    ensures Drained(s, Next(s, c, SetGroup(group, pool))) <==> Harmless(s, c, SetGroup(group, pool))
  {
    var after := Next(s, c, SetGroup(group, pool));
    forall p | p in c.pods
      ensures Counted(after.groups, c.pods[p]) <==>
              if OfPodGroup(c.pods[p], group) then c.pods[p].pool == pool else Counted(c.groups, c.pods[p])
      ensures InOwnPool(s, after, c.pods[p]) == InOwnPool(s, c, c.pods[p])
    {
    }
  }

  lemma SetPoolIsSafeIff(s: Settings, c: Cluster, name: string, pool: Option<string>)
    requires Drained(s, c) && name in c.pods
    ensures Drained(s, Next(s, c, SetPool(name, pool))) <==> Harmless(s, c, SetPool(name, pool))
  {
    var after := Next(s, c, SetPool(name, pool));
    assert after.pods[name] == c.pods[name].(pool := pool);
    forall p | p in after.pods
      ensures InOwnPool(s, after, after.pods[p]) == InOwnPool(s, c, after.pods[p])
      ensures p != name ==> after.pods[p] == c.pods[p]
    {
    }
  }

  lemma EditIsSafeIff(s: Settings, c: Cluster, node: string, value: Node)
    requires Drained(s, c)
    ensures Drained(s, Next(s, c, Edit(node, value))) <==> Harmless(s, c, Edit(node, value))
  {
    var after := Next(s, c, Edit(node, value));
    assert node in after.nodes && after.nodes[node] == value;
    forall p | p in c.pods
      ensures InOwnPool(s, after, c.pods[p]) <==>
              if c.pods[p].node == node then c.pods[p].pool == PoolLabel(s, value) else InOwnPool(s, c, c.pods[p])
    {
    }
  }

  /** One event, whoever causes it, keeps every pod that counts in its own pool exactly when it is harmless. */
  lemma StepKeepsDrained(s: Settings, c: Cluster, e: Event)
    requires ProperSettings(s) && Drained(s, c) && LocalNames(c) && Happens(s, c, e)
    ensures Drained(s, Next(s, c, e)) <==> Harmless(s, c, e)
  {
    match e {
      case Reconcile(_, _, _) => ReconcileKeepsDrained(s, c, e);
      case SetGroup(group, pool) => SetGroupIsSafeIff(s, c, group, pool);
      case SetPool(name, pool) => SetPoolIsSafeIff(s, c, name, pool);
      case Edit(node, value) => EditIsSafeIff(s, c, node, value);
      case Bind(_, _) =>
      case Finish(_) =>
      case DropGroup(_) =>
    }
  }

  ghost predicate AllHarmless(s: Settings, c: Cluster, events: seq<Event>)
    decreases |events|
  {
    if events == [] then true
    else if Happens(s, c, events[0]) then
      Harmless(s, c, events[0]) && AllHarmless(s, Next(s, c, events[0]), events[1..])
    else AllHarmless(s, c, events[1..])
  }

  ghost predicate DrainedThroughout(s: Settings, c: Cluster, events: seq<Event>)
    decreases |events|
  {
    && Drained(s, c)
    && (events != [] ==> DrainedThroughout(s, if Happens(s, c, events[0]) then Next(s, c, events[0])
        else c, events[1..]))
  }

  /** Over every run in which group names stay local, every pod that counts is on a node of its own pool at
      every point, exactly when every event is harmless. */
  lemma {:induction false} DrainedIffHarmless(s: Settings, c: Cluster, events: seq<Event>)
    requires ProperSettings(s) && Drained(s, c) && LocalThroughout(s, c, events)
    ensures DrainedThroughout(s, c, events) <==> AllHarmless(s, c, events)
    decreases |events|
  {
    if events != [] {
      if Happens(s, c, events[0]) {
        StepKeepsDrained(s, c, events[0]);
        if Harmless(s, c, events[0]) {
          DrainedIffHarmless(s, Next(s, c, events[0]), events[1..]);
        }
      } else {
        DrainedIffHarmless(s, c, events[1..]);
      }
    }
  }

  lemma {:induction false} DrainedAtTheEnd(s: Settings, c: Cluster, events: seq<Event>)
    requires DrainedThroughout(s, c, events)
    ensures Drained(s, Run(s, c, events))
    decreases |events|
  {
    if events != [] {
      DrainedAtTheEnd(s, if Happens(s, c, events[0]) then Next(s, c, events[0]) else c, events[1..]);
    }
  }

  /** So after every run of harmless events with local group names. */
  lemma AlwaysDrained(s: Settings, c: Cluster, events: seq<Event>)
    requires ProperSettings(s) && Drained(s, c) && LocalThroughout(s, c, events) && AllHarmless(s, c, events)
    ensures Drained(s, Run(s, c, events))
  {
    DrainedIffHarmless(s, c, events);
    DrainedAtTheEnd(s, c, events);
  }

  // ------------------------------------------------ one pod

  /** The event leaves the pod, its pod group and its node's pool label alone, unless a controller takes it. */
  predicate LeavesAlone(s: Settings, e: Event, name: string, pod: Pod) {
    match e
    case Finish(other) => other != name
    case SetGroup(group, _) => !OfPodGroup(pod, group)
    case DropGroup(group) => !OfPodGroup(pod, group)
    case SetPool(other, _) => other != name
    case Edit(node, value) => node == pod.node ==> PoolLabel(s, value) == pod.pool
    case _ => true
  }

  /** The pod counts, in its own pool. */
  ghost predicate AtHome(s: Settings, c: Cluster, name: string, pod: Pod) {
    name in c.pods && c.pods[name] == pod && Counted(c.groups, pod) && InOwnPool(s, c, pod)
  }

  lemma ReconcileKeepsHome(s: Settings, c: Cluster, e: Event, name: string, pod: Pod)
    requires ProperSettings(s) && e.Reconcile? && Happens(s, c, e) && LocalOn(c, pod.node)
    requires AtHome(s, c, name, pod) && ProperLabel(s, pod.pool)
    ensures AtHome(s, Next(s, c, e), name, pod)
  {
    var n, bound := pod.node, BoundIn(c, e.order);
    var pool := OldPool(s, c.nodes[n], e.step);
    SteppedLabel(s, e.world, c.nodes[n], e.step, HasSame(s, bound, n, pool), HasDifferent(s, bound, n, pool));
    if Target(s, e.world, c.nodes[n], e.step).Some? {
      AsksAboutItsPool(s, e.world, c.nodes[n], e.step);
      SearchIsExact(s, c, e.order, n, pool, true);
      assert OnNode(s, c.pods[name], n, pool, true);
    }
  }

  /** While a pod that counts in its own pool stays, its node never changes pool, whatever happens to all other
      pods, pod groups and nodes. */
  lemma {:induction false} PodPinsPool(s: Settings, c: Cluster, events: seq<Event>, name: string, pod: Pod)
    requires ProperSettings(s) && LocalThroughout(s, c, events)
    requires AtHome(s, c, name, pod) && ProperLabel(s, pod.pool)
    requires forall i :: 0 <= i < |events| ==> LeavesAlone(s, events[i], name, pod)
    ensures AtHome(s, Run(s, c, events), name, pod)
    decreases |events|
  {
    if events != [] {
      assert LeavesAlone(s, events[0], name, pod);
      if Happens(s, c, events[0]) {
        if events[0].Reconcile? {
          assert LocalOn(c, pod.node);
          ReconcileKeepsHome(s, c, events[0], name, pod);
        }
        PodPinsPool(s, Next(s, c, events[0]), events[1..], name, pod);
      } else {
        PodPinsPool(s, c, events[1..], name, pod);
      }
    }
  }

  // ------------------------------------------------ between the two patches

  /** The first patch of a move, made once no pods were found: the node is put back into scheduling. */
  function PutBack(s: Settings, c: Cluster, n: string): Cluster
    requires n in c.nodes
  {
    c.(nodes := c.nodes[n := Uncordoned(s, c.nodes[n])])
  }

  /** The second patch: the pool label. */
  function Labelled(s: Settings, c: Cluster, n: string, pool: string): Cluster
    requires n in c.nodes
  {
    c.(nodes := c.nodes[n := Relabelled(s, c.nodes[n], pool)])
  }

  /** A move of one node is the two patches, if nothing happens in between. */
  lemma MoveIsTwoPatches(s: Settings, c: Cluster, n: string, target: string)
    requires n in c.nodes && target != ""
    ensures Labelled(s, PutBack(s, c, n), n, target).nodes == c.nodes[n := ChangedTo(s, c.nodes[n], false, target)]
  {
  }

  /** Whatever happened since the pods were looked for, the label patch keeps the invariant exactly when the
      node holds no pod that counts at that moment. */
  lemma LabelPatchIsSafeIff(s: Settings, c: Cluster, n: string, pool: string)
    requires ProperSettings(s) && Drained(s, c) && n in c.nodes && pool != "" &&
             LabelFor(s, pool) != PoolLabel(s, c.nodes[n])
    ensures Drained(s, Labelled(s, c, n, pool)) <==> EmptyNode(c, n)
  {
    var after := Labelled(s, c, n, pool);
    assert PoolLabel(s, after.nodes[n]) == LabelFor(s, pool);
    if !EmptyNode(c, n) {
      var p :| p in c.pods && c.pods[p].node == n && Counted(c.groups, c.pods[p]);
      assert InOwnPool(s, c, c.pods[p]) && !InOwnPool(s, after, c.pods[p]);
    } else {
      assert forall p :: p in c.pods && Counted(c.groups, c.pods[p]) ==> InOwnPool(s, c, c.pods[p]);
    }
  }

  /** So a scheduler that binds a pod of the old pool between the two patches breaks it. */
  lemma BindBetweenPatchesBreaksDrain(s: Settings, c: Cluster, n: string, pool: string, name: string, pod: Pod)
    requires ProperSettings(s) && Drained(s, c) && n in c.nodes && pool != "" &&
             LabelFor(s, pool) != PoolLabel(s, c.nodes[n])
    requires !Uncordoned(s, c.nodes[n]).unschedulable && name !in c.pods
    requires pod.node == n && pod.pool == PoolLabel(s, c.nodes[n]) && Counted(c.groups, pod)
    ensures Happens(s, PutBack(s, c, n), Bind(name, pod))
    ensures !Drained(s, Labelled(s, Next(s, PutBack(s, c, n), Bind(name, pod)), n, pool))
  {
    var back := PutBack(s, c, n);
    CordonKeepsPool(s, c.nodes[n]);
    assert Drained(s, back) by {
      assert forall p :: p in c.pods && Counted(c.groups, c.pods[p]) ==> InOwnPool(s, c, c.pods[p]);
    }
    var bound := Next(s, back, Bind(name, pod));
    assert bound.pods[name] == pod;
    LabelPatchIsSafeIff(s, bound, n, pool);
  }
}
