/** The assigner as it runs: it remembers the requested list of each pod group, and may forget it
    at any time. */
module PodGroupAssigner {
  import A = AssignmentParams
  import G = PodGroups
  import N = NodePoolNames
  import R = PoolRoundTrip
  import opened Wrappers

  /** What the pods of a group and the node pools say; a pod group has no project source. */
  datatype World = World(ids: N.Identifiers, queueKey: string, pools: seq<N.NodePool>, sources: R.Sources)

  function SettingsOf(w: World): G.Settings {
    G.Settings(w.ids.poolKey, w.queueKey, w.ids.defaultPool, w.ids.sentinel)
  }

  function RequestedBy(w: World, labels: map<string, string>): (r: N.Result<seq<string>>)
    ensures r.Ok? ==> r.value != []
  {
    R.Requested(w.ids, w.pools, labels, w.sources)
  }

  /** One reconcile with the list worked out afresh. */
  function Afresh(w: World, pg: G.PodGroup, env: G.Env): G.PodGroup {
    match RequestedBy(w, pg.labels)
    case Failed => pg
    case Ok(list) => G.Reconciled(SettingsOf(w), pg, list, env)
  }

  /** Gets as far as needing the list. */
  predicate Asks(w: World, pg: G.PodGroup, env: G.Env) {
    G.EligibilityOf(SettingsOf(w), pg, env.phases).Eligible? && env.waiting
  }

  class PodGroupObject {
    var labels: map<string, string>
    var mark: Option<bool>
    var backoff: Option<int>
    var queue: string
    var conditions: seq<G.Condition>

    constructor (pg: G.PodGroup)
      ensures Value() == pg
    {
      labels, mark, backoff, queue, conditions := pg.labels, pg.mark, pg.backoff, pg.queue, pg.conditions;
    }

    ghost function Value(): G.PodGroup
      reads this
    {
      G.PodGroup(labels, mark, backoff, queue, conditions)
    }

    method RemoveOnPoolConditions()
      modifies this`conditions
      ensures conditions == G.WithoutOnPool(old(conditions))
    {
      var all := conditions;
      var left: seq<G.Condition> := [];
      for i := 0 to |all|
        invariant left + G.WithoutOnPool(all[i..]) == G.WithoutOnPool(all)
      {
        assert all[i..][1..] == all[i + 1..];
        if all[i].kind != G.ON_POOL {
          left := left + [all[i]];
        }
      }
      conditions := left;
    }
  }

  class Assigner {
    const world: World
    /** The requested list of each pod group seen, by UID. */
    var lists: map<string, seq<string>>

    constructor (world: World)
      ensures this.world == world && lists == map[]
    {
      this.world, lists := world, map[];
    }

    /** Every remembered list is usable. */
    ghost predicate Valid()
      reads this
    {
      forall uid :: uid in lists ==> lists[uid] != []
    }

    method Forget()
      modifies this`lists
      ensures lists == map[] && Valid()
    {
      lists := map[];
    }

    method RequestedFor(uid: string, labels: map<string, string>) returns (r: N.Result<seq<string>>)
      requires Valid()
      modifies this`lists
      ensures Valid()
      ensures r == if uid in old(lists) then N.Ok(old(lists)[uid]) else RequestedBy(world, labels)
      ensures lists == if uid !in old(lists) && r.Ok? then old(lists)[uid := r.value] else old(lists)
      ensures r.Ok? ==> r.value != []
    {
      if uid in lists {
        return N.Ok(lists[uid]);
      }
      r := RequestedBy(world, labels);
      if r.Ok? {
        lists := lists[uid := r.value];
      }
    }

    method Update(pg: PodGroupObject, params: A.Params, queue: string)
      modifies pg
      ensures pg.Value() == G.AssignedTo(SettingsOf(world), old(pg.Value()), params, queue)
    {
      var s := SettingsOf(world);
      if params.removeCondition {
        pg.RemoveOnPoolConditions();
      }
      if && G.PoolOf(s, pg.labels) == params.pool && A.MarkValue(pg.mark) == params.mark
         && G.BackoffValue(pg.backoff) == params.backoff && pg.queue == queue {
        return;
      }
      pg.mark, pg.backoff, pg.queue := Some(params.mark), Some(params.backoff), queue;
      pg.labels := pg.labels[s.queueKey := queue];
      if params.pool == s.defaultPool {
        pg.labels := pg.labels - {s.poolKey};
      } else {
        pg.labels := pg.labels[s.poolKey := params.pool];
      }
    }

    /** One reconcile of one pod group. */
    method Run(uid: string, pg: PodGroupObject, env: G.Env)
      requires Valid()
      modifies this`lists, pg
      ensures Valid()
      ensures var was := old(pg.Value());
              var memo := if uid in old(lists) then Some(old(lists)[uid]) else None;
              && Memo(pg.Value(), if uid in lists then Some(lists[uid]) else None) ==
                  Remembering(world, Memo(was, memo), env)
              && forall other :: other != uid ==>
                  (other in lists <==> other in old(lists)) && (other in lists ==> lists[other] == old(lists)[other])
    {
      var s := SettingsOf(world);
      var last: Option<string> := None;
      if G.BackoffValue(pg.backoff) == A.NO_BACKOFF {
        return;
      }
      if pg.conditions != [] {
        last := Some(pg.conditions[|pg.conditions| - 1].pool);
        var pool := G.PoolOf(s, pg.labels);
        if last.value != pool && !A.StatusOf(env.phases, pool).Unavailable? {
          return;
        }
      }
      assert G.EligibilityOf(s, pg.Value(), env.phases) == G.Eligible(last);
      if !env.waiting {
        return;
      }
      var requested := RequestedFor(uid, pg.labels);
      if requested.Failed? {
        return;
      }
      var result := A.GetParams(pg.mark, last, G.PoolOf(s, pg.labels), requested.value, env.phases);
      if !result.Assigned? || result.params.pool !in env.queueOf {
        return;
      }
      Update(pg, result.params, env.queueOf[result.params.pool]);
    }
  }

  // ------------------------------------------------ forgetting changes nothing

  /** A pod group and the list remembered for it, if any. */
  datatype Memo = Memo(pg: G.PodGroup, list: Option<seq<string>>)

  /** One reconcile that uses the remembered list, or works it out and remembers it. */
  function Remembering(w: World, m: Memo, env: G.Env): Memo {
    if !Asks(w, m.pg, env) then m
    else
      var requested := if m.list.Some? then N.Ok(m.list.value) else RequestedBy(w, m.pg.labels);
      match requested
      case Failed => m
      case Ok(list) => if list == [] then m else Memo(G.Reconciled(SettingsOf(w), m.pg, list, env), Some(list))
  }

  datatype Step = Reconcile(env: G.Env) | Fail(kind: string) | Forget

  function Next(w: World, m: Memo, step: Step): Memo {
    match step
    case Reconcile(env) => Remembering(w, m, env)
    case Fail(kind) => m.(pg := G.Failed(SettingsOf(w), m.pg, kind))
    case Forget => m.(list := None)
  }

  /** The same step for an assigner that remembers nothing. */
  function NextAfresh(w: World, pg: G.PodGroup, step: Step): G.PodGroup {
    match step
    case Reconcile(env) => Afresh(w, pg, env)
    case Fail(kind) => G.Failed(SettingsOf(w), pg, kind)
    case Forget => pg
  }

  function Run(w: World, m: Memo, steps: seq<Step>): Memo
    decreases |steps|
  {
    if steps == [] then m else Run(w, Next(w, m, steps[0]), steps[1..])
  }

  function RunAfresh(w: World, pg: G.PodGroup, steps: seq<Step>): G.PodGroup
    decreases |steps|
  {
    if steps == [] then pg else RunAfresh(w, NextAfresh(w, pg, steps[0]), steps[1..])
  }

  /** The list does not depend on the pool label at all. */
  predicate FromPods(w: World) {
    var notes := w.sources.annotations;
    || (w.ids.annotationKey in notes && notes[w.ids.annotationKey] != "")
    || (w.sources.affinity.Some? &&
        var c := N.Converted(w.ids, w.pools, w.sources.affinity);
        (c.Ok? && c.value != []) || (c.Failed? && !w.sources.ignoreConversionErrors))
  }

  /** A pool label, where there is one, is not empty. */
  predicate LabelGiven(w: World, labels: map<string, string>) {
    FromPods(w) || w.ids.poolKey !in labels || labels[w.ids.poolKey] != ""
  }

  /** Assigning a group to a pool of its own list leaves that list what it was. */
  lemma AssigningKeepsList(w: World, pg: G.PodGroup, params: A.Params, queue: string)
    requires w.sources.projectDefaults.None? && LabelGiven(w, pg.labels)
    requires RequestedBy(w, pg.labels).Ok? && params.pool in RequestedBy(w, pg.labels).value
    ensures var after := G.AssignedTo(SettingsOf(w), pg, params, queue);
            RequestedBy(w, after.labels) == RequestedBy(w, pg.labels) && LabelGiven(w, after.labels)
  {
  }

  lemma ReconcileKeepsList(w: World, pg: G.PodGroup, env: G.Env)
    requires w.sources.projectDefaults.None? && LabelGiven(w, pg.labels)
    ensures RequestedBy(w, Afresh(w, pg, env).labels) == RequestedBy(w, pg.labels)
    ensures LabelGiven(w, Afresh(w, pg, env).labels)
  {
    var r := RequestedBy(w, pg.labels);
    var s := SettingsOf(w);
    var e := G.EligibilityOf(s, pg, env.phases);
    if r.Ok? && e.Eligible? {
      A.DecisionIsListed(pg.mark, e.last, G.PoolOf(s, pg.labels), r.value, env.phases);
      var d := A.Decision(pg.mark, e.last, G.PoolOf(s, pg.labels), r.value, env.phases);
      if d.Assigned? && d.params.pool in env.queueOf {
        AssigningKeepsList(w, pg, d.params, env.queueOf[d.params.pool]);
      }
    }
  }

  /** With the pods and pools unchanged, the list worked out after any run is the first one. */
  lemma {:induction false} ListNeverChanges(w: World, pg: G.PodGroup, steps: seq<Step>)
    requires w.sources.projectDefaults.None? && LabelGiven(w, pg.labels)
    ensures RequestedBy(w, RunAfresh(w, pg, steps).labels) == RequestedBy(w, pg.labels)
    decreases |steps|
  {
    if steps != [] {
      if steps[0].Reconcile? {
        ReconcileKeepsList(w, pg, steps[0].env);
      }
      ListNeverChanges(w, NextAfresh(w, pg, steps[0]), steps[1..]);
    }
  }

  /** Remembering the list, and forgetting it at any point of a run, never changes a decision: the
      pod group goes through exactly the states it would go through without a memory. */
  lemma {:induction false} ForgettingIsSafe(w: World, m: Memo, steps: seq<Step>)
    requires w.sources.projectDefaults.None? && LabelGiven(w, m.pg.labels)
    requires m.list.Some? ==> RequestedBy(w, m.pg.labels) == N.Ok(m.list.value)
    ensures Run(w, m, steps).pg == RunAfresh(w, m.pg, steps)
    decreases |steps|
  {
    if steps != [] {
      if steps[0].Reconcile? {
        ReconcileKeepsList(w, m.pg, steps[0].env);
      }
      ForgettingIsSafe(w, Next(w, m, steps[0]), steps[1..]);
    }
  }
}
