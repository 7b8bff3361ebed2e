/** Nodes as the node pool controller and the managed nodes controller change them: the pool label,
    the cordon, and the labels that record why. */
module Nodes {
  import opened CountedPods
  import opened Wrappers

  datatype Settings = Settings(poolLabel: string, cordonLabel: string, excludeLabel: string, defaultPool: string,
      excludedPool: string)

  /** The three labels the controllers write are different, and so are the two special pools. */
  predicate ProperSettings(s: Settings) {
    && s.poolLabel != s.cordonLabel && s.poolLabel != s.excludeLabel && s.cordonLabel != s.excludeLabel
    && s.defaultPool != s.excludedPool && s.defaultPool != "" && s.excludedPool != ""
  }

  datatype Node = Node(labels: map<string, string>, unschedulable: bool, ready: bool)

  datatype Pool = Pool(name: string, labelKey: string, labelValue: string, deleting: bool)

  /** The bound pods our scheduler runs, in the order they are listed, and the pod groups. */
  datatype Bound = Bound(pods: seq<Pod>, groups: PodGroups)

  /** What a reconcile reads: the pools in listing order, the partitions left to other schedulers, and
      which nodes are to be included. */
  datatype World = World(pools: seq<Pool>, unmanaged: set<string>, included: map<string, string> -> bool)

  function LabelOf(labels: map<string, string>, key: string): Option<string> {
    if key in labels then Some(labels[key]) else None
  }

  function PoolLabel(s: Settings, node: Node): Option<string> { LabelOf(node.labels, s.poolLabel) }

  /** The pool a label stands for; a missing or empty one stands for the default pool. */
  function PoolOf(s: Settings, mark: Option<string>): string {
    if mark.Some? && mark.value != "" then mark.value else s.defaultPool
  }

  /** The label selector of a pool: absence for the default pool. */
  predicate Selects(s: Settings, pool: string, mark: Option<string>) {
    if pool == s.defaultPool then mark.None? else mark == Some(pool)
  }

  /** A merge patch on labels: what is removed goes, whatever was to be added under that key. */
  function Patched(labels: map<string, string>, adds: map<string, string>,
                   removes: set<string>): (r: map<string, string>)
    ensures forall k :: k in r <==> (k in labels || k in adds) && k !in removes
    ensures forall k :: k in r ==> r[k] == if k in adds then adds[k] else labels[k]
  {
    (labels + adds) - removes
  }

  // ------------------------------------------------ cordoning

  /** Taken out of scheduling, and marked as done by us; a node cordoned by someone else is marked too. */
  function Cordoned(s: Settings, node: Node): Node {
    if node.unschedulable && s.cordonLabel in node.labels then node
    else node.(unschedulable := true, labels := Patched(node.labels, map[s.cordonLabel := "true"], {}))
  }

  /** Put back into scheduling, unless someone else took it out. */
  function Uncordoned(s: Settings, node: Node): Node {
    if node.unschedulable && s.cordonLabel !in node.labels then node
    else node.(unschedulable := false, labels := Patched(node.labels, map[], {s.cordonLabel}))
  }

  method UpdateUnschedulable(s: Settings, node: Node, unschedulable: bool) returns (r: Node)
    ensures r == if unschedulable then Cordoned(s, node) else Uncordoned(s, node)
  {
    if node.unschedulable == unschedulable {
      if unschedulable {
        if s.cordonLabel in node.labels {
          return node;
        }
        return node.(labels := Patched(node.labels, map[s.cordonLabel := "true"], {}));
      }
      if s.cordonLabel !in node.labels {
        assert Patched(node.labels, map[], {s.cordonLabel}) == node.labels;
        return node;
      }
      return node.(labels := Patched(node.labels, map[], {s.cordonLabel}));
    }
    if !unschedulable && s.cordonLabel !in node.labels {
      return node;
    }
    var labels := if unschedulable then Patched(node.labels, map[s.cordonLabel := "true"], {})
                  else Patched(node.labels, map[], {s.cordonLabel});
    return node.(unschedulable := unschedulable, labels := labels);
  }

  // ------------------------------------------------ changing the pool of a node

  function Relabelled(s: Settings, node: Node, pool: string): Node {
    node.(labels := if pool == s.defaultPool then Patched(node.labels, map[], {s.poolLabel})
                    else Patched(node.labels, map[s.poolLabel := pool], {}))
  }

  /** Patches the pool label, unless it already says so. */
  method UpdatePoolLabel(s: Settings, node: Node, pool: string) returns (r: Node)
    ensures r == Relabelled(s, node, pool)
  {
    if pool == s.defaultPool {
      if s.poolLabel !in node.labels {
        assert Patched(node.labels, map[], {s.poolLabel}) == node.labels;
        return node;
      }
      return node.(labels := Patched(node.labels, map[], {s.poolLabel}));
    }
    if PoolLabel(s, node) == Some(pool) {
      assert Patched(node.labels, map[s.poolLabel := pool], {}) == node.labels;
      return node;
    }
    return node.(labels := Patched(node.labels, map[s.poolLabel := pool], {}));
  }

  predicate PairMatches(pool: Pool, labels: map<string, string>) {
    pool.labelKey in labels && labels[pool.labelKey] == pool.labelValue
  }

  /** The first listed pool whose label pair the node carries, else the default pool. */
  function FindMatching(s: Settings, pools: seq<Pool>, labels: map<string, string>): string {
    if pools == [] then s.defaultPool
    else if PairMatches(pools[0], labels) then pools[0].name
    else FindMatching(s, pools[1..], labels)
  }

  function AvailablePools(pools: seq<Pool>): seq<Pool> {
    if pools == [] then []
    else if pools[0].deleting then AvailablePools(pools[1..])
    else [pools[0]] + AvailablePools(pools[1..])
  }

  function OtherPools(pools: seq<Pool>, name: string): seq<Pool> {
    if pools == [] then []
    else if pools[0].name == name then OtherPools(pools[1..], name)
    else [pools[0]] + OtherPools(pools[1..], name)
  }

  /** Moves a node to a pool, or cordons it while pods of its old pool still run on it. An empty target
      means the pool the node matches, looked up after the node was put back into scheduling. */
  function Changed(s: Settings, node: Node, busy: bool, target: string, pools: seq<Pool>): Node {
    if busy then Cordoned(s, node)
    else
      var free := Uncordoned(s, node);
      Relabelled(s, free, if target == "" then FindMatching(s, pools, free.labels) else target)
  }

  function ChangedTo(s: Settings, node: Node, busy: bool, pool: string): Node { Changed(s, node, busy, pool, []) }

  function ChangedToMatching(s: Settings, node: Node, busy: bool, pools: seq<Pool>): Node {
    Changed(s, node, busy, "", pools)
  }

  /** The pods listed on a node, of the pool or of other pools. */
  function ListedOn(s: Settings, pods: seq<Pod>, node: string, pool: string, samePool: bool): seq<Pod> {
    if pods == [] then []
    else
      var rest, last := pods[..|pods| - 1], pods[|pods| - 1];
      ListedOn(s, rest, node, pool, samePool)
      + if last.node == node && Selects(s, pool, last.pool) == samePool then [last] else []
  }

  /** Pods of the pool are found on the node: listed there, and left by the filter. */
  ghost predicate HasSame(s: Settings, bound: Bound, node: string, pool: string) {
    AnyKept(ListedOn(s, bound.pods, node, pool, true), bound.groups)
  }

  /** Pods of some other pool are found on the node. */
  ghost predicate HasDifferent(s: Settings, bound: Bound, node: string, pool: string) {
    AnyKept(ListedOn(s, bound.pods, node, pool, false), bound.groups)
  }

  // ------------------------------------------------ what each sub-step does to one node

  datatype SubStep =
    /** Nodes labelled with the pool that do not match it. */
    | Misplaced(pool: Pool)
    /** Unlabelled nodes that match the pool. */
    | Unclaimed(pool: Pool)
    /** Nodes labelled with the pool that match it. */
    | InPlace(pool: Pool)
    /** Unlabelled nodes, when the default pool is reconciled. */
    | InDefault
    /** Labelled nodes, when the default pool is reconciled. */
    | NotInDefault
    /** Nodes of a pool that is being deleted. */
    | Evicted(pool: Pool)
    /** When the managed nodes are reconciled: all of them, or a single one. Only the former also unmarks
        nodes that are to stay. */
    | Managed(all: bool)

  /** The node pool a sub-step asks about when it looks for running pods. */
  function OldPool(s: Settings, node: Node, step: SubStep): string {
    match step
    case Misplaced(pool) => pool.name
    case Unclaimed(_) => s.defaultPool
    case InPlace(pool) => pool.name
    case InDefault => s.defaultPool
    case Evicted(pool) => pool.name
    case _ => PoolOf(s, PoolLabel(s, node))
  }

  predicate KnownPool(s: Settings, w: World, name: string) {
    || name == s.excludedPool
    || name in w.unmanaged
    || exists i :: 0 <= i < |w.pools| && !w.pools[i].deleting && w.pools[i].name == name
  }

  function Marked(s: Settings, node: Node, waiting: bool): Node {
    node.(labels := if waiting then Patched(node.labels, map[s.excludeLabel := "true"], {})
                    else Patched(node.labels, map[], {s.excludeLabel}))
  }

  /** The managed nodes controller on one node: out of the managed set, back in, or only a mark. */
  function ManagedStep(s: Settings, w: World, node: Node, same: bool, all: bool): Node {
    var mark := if s.poolLabel in node.labels then node.labels[s.poolLabel] else "";
    if mark in w.unmanaged then node
    else if mark == s.excludedPool then
      if w.included(node.labels) then Marked(s, ChangedTo(s, node, same, s.defaultPool), false) else node
    else if w.included(node.labels) then if all then Marked(s, node, false) else node
    else Marked(s, ChangedTo(s, node, same, s.excludedPool), same)
  }

  /** One sub-step on one node. `same`: pods of the node's old pool were found on it; `different`:
      pods of other pools were. */
  function Stepped(s: Settings, w: World, node: Node, step: SubStep, same: bool, different: bool): Node {
    var mark := PoolLabel(s, node);
    match step
    case Misplaced(pool) =>
      if mark == Some(pool.name) && !PairMatches(pool, node.labels)
      then ChangedToMatching(s, node, same, AvailablePools(w.pools)) else node
    case Unclaimed(pool) =>
      if mark.None? && PairMatches(pool, node.labels) then ChangedTo(s, node, same, pool.name) else node
    case InPlace(pool) =>
      if mark == Some(pool.name) && PairMatches(pool, node.labels)
      then if different then Cordoned(s, node) else Uncordoned(s, node)
      else node
    case InDefault =>
      if mark.Some? then node
      else
        var found := FindMatching(s, AvailablePools(w.pools), node.labels);
        if found != s.defaultPool then ChangedTo(s, node, same, found)
        else if different then Cordoned(s, node) else Uncordoned(s, node)
    case NotInDefault =>
      if mark.None? || KnownPool(s, w, PoolOf(s, mark)) then node
      else ChangedToMatching(s, node, same, AvailablePools(w.pools))
    case Evicted(pool) =>
      if mark == Some(pool.name)
      then ChangedToMatching(s, node, same, OtherPools(AvailablePools(w.pools), pool.name)) else node
    case Managed(all) => ManagedStep(s, w, node, same, all)
  }

  /** The sub-step on the node called `name`, with the pods that run in the cluster. */
  ghost function SteppedIn(s: Settings, w: World, bound: Bound, name: string, node: Node, step: SubStep): Node {
    Stepped(s, w, node, step, HasSame(s, bound, name, OldPool(s, node, step)),
        HasDifferent(s, bound, name, OldPool(s, node, step)))
  }

  /** Every node takes the sub-step; nodes do not affect each other. */
  ghost function AllStepped(s: Settings, w: World, nodes: map<string, Node>, bound: Bound,
                            step: SubStep): map<string, Node> {
    map n | n in nodes :: SteppedIn(s, w, bound, n, nodes[n], step)
  }

  /** The sub-steps the reconciler may take for a pool: eviction only while it is being deleted, the
      others only while it is not. */
  predicate Allowed(s: Settings, w: World, step: SubStep) {
    match step
    case Misplaced(pool) => pool in w.pools && !pool.deleting && pool.name != s.defaultPool
    case Unclaimed(pool) => pool in w.pools && !pool.deleting && pool.name != s.defaultPool
    case InPlace(pool) => pool in w.pools && !pool.deleting && pool.name != s.defaultPool
    case Evicted(pool) => pool in w.pools && pool.deleting && pool.name != s.defaultPool
    case InDefault => HasDefaultPool(s, w)
    case NotInDefault => HasDefaultPool(s, w)
    case Managed(_) => true
  }

  predicate HasDefaultPool(s: Settings, w: World) {
    exists i :: 0 <= i < |w.pools| && w.pools[i].name == s.defaultPool && !w.pools[i].deleting
  }

  // ------------------------------------------------ deleting a pool

  predicate IsReady(node: Node) { !node.unschedulable && node.ready }

  /** Every node that was in the pool is ready now. */
  ghost predicate AllReady(s: Settings, pool: string, before: map<string, Node>, after: map<string, Node>)
    requires before.Keys == after.Keys
  {
    forall n :: n in before && PoolLabel(s, before[n]) == Some(pool) ==> IsReady(after[n])
  }

  /** Some project holds a queue for the pool. */
  ghost predicate Referenced(pool: string, projects: map<string, seq<string>>) {
    exists p :: p in projects && pool in projects[p]
  }

  method References(pool: string, projects: map<string, seq<string>>) returns (r: bool)
    ensures r <==> Referenced(pool, projects)
  {
    r := false;
    var rest := projects.Keys;
    while rest != {}
      invariant rest <= projects.Keys
      invariant r <==> exists p :: p in projects && p !in rest && pool in projects[p]
      decreases rest
    {
      var p :| p in rest;
      rest := rest - {p};
      r := r || pool in projects[p];
    }
  }

  // ------------------------------------------------ the controllers on the cluster

  class Controller {
    const settings: Settings
    var nodes: map<string, Node>
    var bound: Bound

    constructor (settings: Settings, nodes: map<string, Node>, bound: Bound)
      requires ProperSettings(settings)
      ensures this.settings == settings && this.nodes == nodes && this.bound == bound
    {
      this.settings, this.nodes, this.bound := settings, nodes, bound;
    }

    /** Lists the pods on a node and looks whether the filter leaves any. */
    method RunsPods(node: string, pool: string, samePool: bool) returns (r: bool)
      ensures r <==> if samePool then HasSame(settings, bound, node, pool)
              else HasDifferent(settings, bound, node, pool)
    {
      var listed := ListedOn(settings, bound.pods, node, pool, samePool);
      var kept := FilterPods(listed, bound.groups);
      assert kept != [] ==> kept[0] in kept;
      return kept != [];
    }

    /** Moves one node, or cordons it; an empty target means the pool it matches. */
    method ChangeNodePool(name: string, target: string, oldPool: string, available: seq<Pool>) returns (moved: bool)
      requires name in nodes
      modifies this`nodes
      ensures var same := HasSame(settings, bound, name, oldPool);
              && moved == !same
              && nodes == old(nodes)[name := Changed(settings, old(nodes)[name], same, target, available)]
    {
      var same := RunsPods(name, oldPool, true);
      var node := UpdateUnschedulable(settings, nodes[name], same);
      nodes := nodes[name := node];
      moved := !same;
      if moved {
        var pool := if target == "" then FindMatching(settings, available, node.labels) else target;
        var changed := UpdatePoolLabel(settings, node, pool);
        nodes := nodes[name := changed];
      }
    }

    /** Keeps a node in its pool cordoned while pods of other pools run on it. */
    method ValidateInPool(name: string, pool: string)
      requires name in nodes
      modifies this`nodes
      ensures nodes == old(nodes)[name := if HasDifferent(settings, bound, name, pool)
              then Cordoned(settings, old(nodes)[name])
                                          else Uncordoned(settings, old(nodes)[name])]
    {
      var different := RunsPods(name, pool, false);
      var node := UpdateUnschedulable(settings, nodes[name], different);
      nodes := nodes[name := node];
    }

    /** One sub-step over all nodes, in whatever order they are listed. */
    method TakeStep(w: World, step: SubStep)
      requires ProperSettings(settings)
      modifies this`nodes
      ensures nodes == AllStepped(settings, w, old(nodes), bound, step)
    {
      var rest := nodes.Keys;
      while rest != {}
        invariant nodes.Keys == old(nodes).Keys && rest <= nodes.Keys
        invariant forall n :: n in nodes ==>
                  nodes[n] == if n in rest then old(nodes)[n] else SteppedIn(settings, w, bound, n, old(nodes)[n], step)
        decreases rest
      {
        var name :| name in rest;
        TakeStepOnNode(w, step, name);
        rest := rest - {name};
      }
    }

    /** Finalizes a pool that is being deleted: moves its nodes elsewhere, and drops the finalizer only when
        each of them is ready and no project holds a queue for the pool. */
    method Finalize(w: World, pool: Pool, projects: map<string, seq<string>>) returns (dropped: bool)
      requires ProperSettings(settings)
      modifies this`nodes
      ensures nodes == AllStepped(settings, w, old(nodes), bound, Evicted(pool))
      ensures dropped <==> AllReady(settings, pool.name, old(nodes), nodes) && !Referenced(pool.name, projects)
    {
      ghost var before := nodes;
      var left := set n | n in nodes && PoolLabel(settings, nodes[n]) == Some(pool.name);
      TakeStep(w, Evicted(pool));
      dropped := true;
      while left != {}
        invariant forall n :: n in left ==> n in before && PoolLabel(settings, before[n]) == Some(pool.name)
        invariant dropped <==>
                  forall n :: n in before && n !in left && PoolLabel(settings, before[n]) == Some(pool.name) ==>
                                IsReady(nodes[n])
        decreases left
      {
        var n :| n in left;
        left := left - {n};
        dropped := dropped && IsReady(nodes[n]);
      }
      var referenced := References(pool.name, projects);
      dropped := dropped && !referenced;
    }

    method TakeStepOnNode(w: World, step: SubStep, name: string)
      requires ProperSettings(settings)
      requires name in nodes
      modifies this`nodes
      ensures nodes == old(nodes)[name := SteppedIn(settings, w, bound, name, old(nodes)[name], step)]
    {
      var s := settings;
      var node := nodes[name];
      var mark := PoolLabel(s, node);
      match step {
        case Misplaced(pool) =>
          if mark == Some(pool.name) && !PairMatches(pool, node.labels) {
            var _ := ChangeNodePool(name, "", pool.name, AvailablePools(w.pools));
          }
        case Unclaimed(pool) =>
          if mark.None? && PairMatches(pool, node.labels) {
            var _ := ChangeNodePool(name, pool.name, s.defaultPool, []);
          }
        case InPlace(pool) =>
          if mark == Some(pool.name) && PairMatches(pool, node.labels) {
            ValidateInPool(name, pool.name);
          }
        case InDefault =>
          if mark.None? {
            var found := FindMatching(s, AvailablePools(w.pools), node.labels);
            if found == s.defaultPool {
              ValidateInPool(name, s.defaultPool);
            } else {
              var _ := ChangeNodePool(name, found, s.defaultPool, []);
            }
          }
        case NotInDefault =>
          if mark.Some? && !KnownPool(s, w, PoolOf(s, mark)) {
            var _ := ChangeNodePool(name, "", PoolOf(s, mark), AvailablePools(w.pools));
          }
        case Evicted(pool) =>
          if mark == Some(pool.name) {
            var _ := ChangeNodePool(name, "", pool.name, OtherPools(AvailablePools(w.pools), pool.name));
          }
        case Managed(all) => ManageNode(w, name, all);
      }
    }

    /** Takes a node out of the managed set, or marks it as waiting while its pods run. */
    method ExcludeNode(name: string, oldPool: string)
      requires name in nodes
      modifies this`nodes
      ensures var same := HasSame(settings, bound, name, oldPool);
              nodes == old(nodes)[name := Marked(settings,
                  ChangedTo(settings, old(nodes)[name], same, settings.excludedPool), same)]
    {
      var moved := ChangeNodePool(name, settings.excludedPool, oldPool, []);
      SetExcludeMark(name, !moved);
    }

    /** Takes a node back into the managed set. */
    method IncludeNode(name: string)
      requires name in nodes
      modifies this`nodes
      ensures var same := HasSame(settings, bound, name, settings.excludedPool);
              nodes == old(nodes)[name := Marked(settings,
                  ChangedTo(settings, old(nodes)[name], same, settings.defaultPool), false)]
    {
      var _ := ChangeNodePool(name, settings.defaultPool, settings.excludedPool, []);
      SetExcludeMark(name, false);
    }

    /** The managed nodes controller on one node. */
    method ManageNode(w: World, name: string, all: bool)
      requires ProperSettings(settings)
      requires name in nodes
      modifies this`nodes
      ensures nodes == old(nodes)[name := SteppedIn(settings, w, bound, name, old(nodes)[name], Managed(all))]
    {
      var s := settings;
      var node := nodes[name];
      var pool := if s.poolLabel in node.labels then node.labels[s.poolLabel] else "";
      if pool in w.unmanaged {
        return;
      }
      var included := w.included(node.labels);
      if pool == s.excludedPool {
        if included {
          IncludeNode(name);
        }
      } else if !included {
        ExcludeNode(name, PoolOf(s, PoolLabel(s, node)));
      } else if all {
        SetExcludeMark(name, false);
      }
    }

    /** Marks a node as waiting to be excluded, or removes that mark. */
    method SetExcludeMark(name: string, waiting: bool)
      requires name in nodes
      modifies this`nodes
      ensures nodes == old(nodes)[name := Marked(settings, old(nodes)[name], waiting)]
    {
      nodes := nodes[name := Marked(settings, nodes[name], waiting)];
    }
  }
}
