/** Queues, who owns them, and the tree their parent links form. */
module Queues {
  import opened Forest
  import opened Wrappers

  datatype Settings = Settings(
    defaultPool: string,
    poolKey: string,
    departmentKey: string,
    projectKey: string,
    projectIdKey: string,
    overrideKey: string,
    allowExternal: bool)

  const DEPARTMENT_KIND := "Department"
  const PROJECT_KIND := "Project"
  const DEFAULT_PRIORITY := 100

  datatype OwnerRef = OwnerRef(kind: string, name: string, uid: string)

  datatype Resource = Resource(quota: real, overQuotaWeight: real, limit: real)

  datatype Resources = Resources(gpu: Resource, cpu: Resource, memory: Resource)

  const NO_RESOURCES := Resources(Resource(0.0, 0.0, 0.0), Resource(0.0, 0.0, 0.0), Resource(0.0, 0.0, 0.0))

  datatype QueueSpec = QueueSpec(displayName: string, parentQueue: string, resources: Resources, priority: int)

  datatype Queue = Queue(labels: map<string, string>, owners: seq<OwnerRef>, spec: QueueSpec)

  type QueueMap = q: map<string, Queue> | "" !in q witness map[]

  /** What a department or project asks of its queue for one node pool. */
  datatype QueueConfig = QueueConfig(name: string, nodepool: string, resources: Option<Resources>,
      priority: Option<int>)

  datatype Department = Department(uid: string, parent: string, queues: seq<QueueConfig>)

  type DepartmentMap = d: map<string, Department> | "" !in d witness map[]

  predicate OwnedByUid(owners: seq<OwnerRef>, uid: string) {
    exists i :: 0 <= i < |owners| && owners[i].uid == uid
  }

  predicate OwnedByKind(owners: seq<OwnerRef>, kind: string) {
    exists i :: 0 <= i < |owners| && owners[i].kind == kind
  }

  /** Belongs to someone other than `uid`, so must never be adopted, updated or deleted by it. */
  predicate IsExternal(s: Settings, queue: Queue, uid: string) {
    s.allowExternal && !OwnedByUid(queue.owners, uid)
  }

  function QueueName(s: Settings, config: QueueConfig, owner: string): (name: string)
    ensures owner != "" ==> name != ""
  {
    if config.name != "" then config.name
    else if config.nodepool == s.defaultPool then owner
    else owner + "-" + config.nodepool
  }

  function SpecOf(config: QueueConfig, displayName: string, parentQueue: string): QueueSpec {
    QueueSpec(
      displayName,
      parentQueue,
      match config.resources case None => NO_RESOURCES case Some(r) => r,
      match config.priority case None => DEFAULT_PRIORITY case Some(p) => p)
  }

  function WithPool(s: Settings, labels: map<string, string>, pool: string): map<string, string> {
    if pool != s.defaultPool then labels[s.poolKey := pool] else labels
  }

  /** The default pool is told by the absence of the label. */
  predicate InPool(s: Settings, queue: Queue, pool: string) {
    if pool == s.defaultPool then s.poolKey !in queue.labels
    else s.poolKey in queue.labels && queue.labels[s.poolKey] == pool
  }

  predicate HasLabel(queue: Queue, key: string, value: string) {
    key in queue.labels && queue.labels[key] == value
  }

  /** The tree that the parent links of the queues form. */
  function Placement(queues: QueueMap): (t: Parents)
    ensures t.Keys == queues.Keys
  {
    map name | name in queues :: queues[name].spec.parentQueue
  }

  /** The first queue of `pool` owned by `uid`, in the order the API lists them; "" if there is none. */
  function OwnedQueue(s: Settings, queues: QueueMap, order: seq<string>, pool: string, uid: string): (name: string)
    ensures name != "" ==> name in queues && InPool(s, queues[name], pool) && OwnedByUid(queues[name].owners, uid)
    decreases |order|
  {
    if order == [] then ""
    else if order[0] in queues && InPool(s, queues[order[0]], pool) &&
        OwnedByUid(queues[order[0]].owners, uid) then order[0]
    else OwnedQueue(s, queues, order[1..], pool, uid)
  }

  lemma {:induction false} OwnedQueueMissesNone(s: Settings, queues: QueueMap, order: seq<string>, pool: string,
                                                uid: string, n: string)
    requires n in order && n in queues && InPool(s, queues[n], pool) && OwnedByUid(queues[n].owners, uid)
    ensures OwnedQueue(s, queues, order, pool, uid) != ""
    decreases |order|
  {
    if order[0] != n {
      OwnedQueueMissesNone(s, queues, order[1..], pool, uid, n);
    }
  }

  ghost predicate IsOwnedFor(s: Settings, queues: QueueMap, name: string, pool: string, uid: string) {
    name in queues && InPool(s, queues[name], pool) && OwnedByUid(queues[name].owners, uid)
  }

  /** No queue listed before the one found would have done. */
  lemma {:induction false} OwnedQueueIsFirst(s: Settings, queues: QueueMap, order: seq<string>, pool: string,
                                             uid: string,
                                             i: nat)
    requires i < |order| && IsOwnedFor(s, queues, order[i], pool, uid)
    requires forall j :: 0 <= j < i ==> !IsOwnedFor(s, queues, order[j], pool, uid)
    ensures OwnedQueue(s, queues, order, pool, uid) == order[i]
    decreases |order|
  {
    if i > 0 {
      assert !IsOwnedFor(s, queues, order[0], pool, uid);
      forall j | 0 <= j < i - 1 ensures !IsOwnedFor(s, queues, order[1..][j], pool, uid) {
        assert order[1..][j] == order[j + 1];
      }
      OwnedQueueIsFirst(s, queues, order[1..], pool, uid, i - 1);
    }
  }

  /** Where in the list the first entry for `pool` is; past the end if there is none. */
  function EntryFor(configs: seq<QueueConfig>, pool: string): (i: nat)
    ensures i <= |configs|
    ensures i < |configs| ==> configs[i].nodepool == pool
  {
    if configs == [] then 0
    else if configs[0].nodepool == pool then 0
    else 1 + EntryFor(configs[1..], pool)
  }

  lemma {:induction false} EntryForIsFirst(configs: seq<QueueConfig>, pool: string, j: nat)
    requires j < |configs| && configs[j].nodepool == pool
    ensures EntryFor(configs, pool) <= j
  {
    if configs[0].nodepool != pool {
      EntryForIsFirst(configs[1..], pool, j - 1);
    }
  }

  /** The queue of the named department for `pool`, for something to sit under; "" if there is none. */
  function DepartmentQueue(s: Settings, departments: DepartmentMap, queues: QueueMap, order: seq<string>,
                           name: string, pool: string): (queue: string)
  {
    if name !in departments then ""
    else
      var d := departments[name];
      var i := EntryFor(d.queues, pool);
      if i == |d.queues| then ""
      else
        var candidate := QueueName(s, d.queues[i], name);
        if candidate in queues && OwnedByUid(queues[candidate].owners, d.uid) then candidate
        else OwnedQueue(s, queues, order, pool, d.uid)
  }

  /** Walks up from `parentQueue` looking for `name`. It stops at a queue seen before or missing,
      so it ends on every graph, loops and dangling parents included. */
  method WouldCloseLoop(queues: QueueMap, name: string, parentQueue: string) returns (loop: bool)
    requires name != ""
    ensures loop <==> AtOrAbove(Placement(queues), name, parentQueue)
    ensures loop <==> OnLoop(Placement(queues)[name := parentQueue], name)
  {
    ghost var t := Placement(queues);
    PlacementLoops(t, name, parentQueue);
    var seen: set<string> := {};
    var at := parentQueue;
    ghost var steps: nat := 0;
    while at != ""
      invariant at == Walk(t, parentQueue, steps)
      invariant seen <= queues.Keys
      invariant forall k: nat :: k < steps ==> Walk(t, parentQueue, k) != name
      invariant forall x :: x in seen ==> exists k: nat :: k < steps && Walk(t, parentQueue, k) == x
      decreases queues.Keys - seen
    {
      if at == name {
        return true;
      }
      if at in seen {
        ghost var k: nat :| k < steps && Walk(t, parentQueue, k) == at;
        forall n: nat ensures Walk(t, parentQueue, n) != name {
          NeverMet(t, parentQueue, name, k, steps, n);
        }
        return false;
      }
      if at !in queues {
        assert Walk(t, parentQueue, steps) !in t;
        forall n: nat ensures Walk(t, parentQueue, n) != name {
          if n > steps { LeftForGood(t, parentQueue, steps, n); }
        }
        return false;
      }
      seen := seen + {at};
      WalkAdd(t, parentQueue, steps, 1);
      assert Walk(t, at, 1) == Up(t, at);
      at := queues[at].spec.parentQueue;
      steps := steps + 1;
    }
    forall n: nat ensures Walk(t, parentQueue, n) != name {
      if n >= steps {
        WalkAdd(t, parentQueue, steps, n - steps);
        WalkFromNowhere(t, n - steps);
      }
    }
    return false;
  }

  /** Once a walk repeats, it meets nothing new. */
  lemma {:induction false} NeverMet(t: Parents, from: string, name: string, k: nat, m: nat, n: nat)
    requires k < m && Walk(t, from, k) == Walk(t, from, m)
    requires forall i: nat :: i < m ==> Walk(t, from, i) != name
    ensures Walk(t, from, n) != name
    decreases n
  {
    if n >= m {
      WalkAdd(t, from, m, n - m);
      WalkAdd(t, from, k, n - m);
      NeverMet(t, from, name, k, m, k + (n - m));
    }
  }

  /** A queue the acting resource owns by kind and label but did not just reconcile. */
  predicate Unnecessary(s: Settings, queue: Queue, name: string, reconciled: set<string>, uid: string,
                        key: string, value: string, kind: string)
  {
    && HasLabel(queue, key, value)
    && OwnedByKind(queue.owners, kind)
    && name !in reconciled
    && !IsExternal(s, queue, uid)
  }

  function Pruned(s: Settings, queues: QueueMap, reconciled: set<string>, uid: string,
                  key: string, value: string, kind: string): QueueMap
  {
    map n | n in queues && !Unnecessary(s, queues[n], n, reconciled, uid, key, value, kind) :: queues[n]
  }

  /** Deletes, one by one and in no particular order, the queues the spec no longer asks for. */
  method DeleteUnnecessary(s: Settings, queues: QueueMap, reconciled: set<string>, uid: string,
                           key: string, value: string, kind: string)
    returns (left: QueueMap)
    ensures left == Pruned(s, queues, reconciled, uid, key, value, kind)
  {
    left := queues;
    var rest := set n | n in queues && HasLabel(queues[n], key, value);
    while rest != {}
      invariant rest <= left.Keys <= queues.Keys
      invariant forall n :: n in left ==> left[n] == queues[n]
      invariant forall n :: n in rest ==> HasLabel(queues[n], key, value)
      invariant forall n :: n in queues && n !in rest ==>
                  (n in left <==> !Unnecessary(s, queues[n], n, reconciled, uid, key, value, kind))
      decreases rest
    {
      var name :| name in rest;
      rest := rest - {name};
      var queue := queues[name];
      if OwnedByKind(queue.owners, kind) && name !in reconciled && !IsExternal(s, queue, uid) {
        left := left - {name};
      }
    }
  }
}
