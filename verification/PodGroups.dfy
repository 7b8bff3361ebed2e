/** A pod group going round its requested node pools: the assigner's reconcile steps interleaved
    with schedulers that report failures. */
module PodGroups {
  import opened AssignmentParams
  import opened Wrappers

  datatype Settings = Settings(poolKey: string, queueKey: string, defaultPool: string, sentinel: string)

  const ON_POOL := "UnschedulableOnNodePool"

  datatype Condition = Condition(pool: string, kind: string)

  datatype PodGroup = PodGroup(
    labels: map<string, string>,
    mark: Option<bool>,
    backoff: Option<int>,
    queue: string,
    conditions: seq<Condition>)

  /** The pool the labels stand for; no label, or an empty one, stands for the default pool. */
  function PoolOf(s: Settings, labels: map<string, string>): string {
    if s.poolKey in labels && labels[s.poolKey] != "" then labels[s.poolKey] else s.defaultPool
  }

  function BackoffValue(backoff: Option<int>): int {
    match backoff case None => NO_BACKOFF case Some(b) => b
  }

  function LastPool(pg: PodGroup): Option<string> {
    if pg.conditions == [] then None else Some(pg.conditions[|pg.conditions| - 1].pool)
  }

  /** What admission makes of a new pod group: silent, eligible, and on no real pool unless it
      already carries a pool label. */
  function Mutated(s: Settings, pg: PodGroup): PodGroup {
    pg.(mark := Some(false), backoff := Some(SINGLE_BACKOFF),
        labels := if s.poolKey in pg.labels then pg.labels else pg.labels[s.poolKey := s.sentinel])
  }

  function WithPool(s: Settings, labels: map<string, string>, pool: string): map<string, string> {
    if pool == s.defaultPool then labels - {s.poolKey} else labels[s.poolKey := pool]
  }

  lemma PoolOfWithPool(s: Settings, labels: map<string, string>, pool: string)
    requires pool != ""
    ensures PoolOf(s, WithPool(s, labels, pool)) == pool
  {
  }

  /** What a reconcile reads: pool phases, the queue of the project for each pool, and whether some
      pod of the group is not bound to a node yet. */
  datatype Env = Env(phases: map<string, string>, queueOf: map<string, string>, waiting: bool)

  datatype Eligibility = Eligible(last: Option<string>) | NotEligible | ReadFailed

  /** Up for assignment: nothing failed yet, or the current pool failed it, or the current pool
      cannot take it. */
  function EligibilityOf(s: Settings, pg: PodGroup, phases: map<string, string>): Eligibility {
    if BackoffValue(pg.backoff) == NO_BACKOFF then NotEligible
    else if pg.conditions == [] then Eligible(None)
    else if LastPool(pg).value != PoolOf(s, pg.labels) then
      match StatusOf(phases, PoolOf(s, pg.labels))
      case Unknown => ReadFailed
      case Unavailable => Eligible(LastPool(pg))
      case Available => NotEligible
    else Eligible(LastPool(pg))
  }

  function WithoutOnPool(conditions: seq<Condition>): seq<Condition> {
    if conditions == [] then []
    else if conditions[0].kind == ON_POOL then WithoutOnPool(conditions[1..])
    else [conditions[0]] + WithoutOnPool(conditions[1..])
  }

  /** The pod group after an assignment; one that is already as wanted is not written. */
  function AssignedTo(s: Settings, pg: PodGroup, params: Params, queue: string): PodGroup {
    var cleared := if params.removeCondition then pg.(conditions := WithoutOnPool(pg.conditions)) else pg;
    if && PoolOf(s, pg.labels) == params.pool && MarkValue(pg.mark) == params.mark
       && BackoffValue(pg.backoff) == params.backoff && pg.queue == queue
    then cleared
    else
      cleared.(mark := Some(params.mark), backoff := Some(params.backoff), queue := queue,
               labels := WithPool(s, pg.labels[s.queueKey := queue], params.pool))
  }

  /** What an assignment writes: the chosen pool, as its label or as no label for the default pool; the queue of that
      pool, in the group and in its label where anything had to be written; and the decided mark and backoff. Only
      failure reports of kind `UnschedulableOnNodePool` go, and only when the decision says so. */
  lemma AssignmentWrites(s: Settings, pg: PodGroup, params: Params, queue: string)
    ensures var r := AssignedTo(s, pg, params, queue);
            && (params.pool != "" ==> PoolOf(s, r.labels) == params.pool) && r.queue == queue
            && MarkValue(r.mark) == params.mark && BackoffValue(r.backoff) == params.backoff
            && (forall k :: k != s.poolKey && k != s.queueKey ==>
                  (k in r.labels <==> k in pg.labels) && (k in r.labels ==> r.labels[k] == pg.labels[k]))
            && (s.queueKey != s.poolKey && (pg.queue != queue || PoolOf(s, pg.labels) != params.pool) ==>
                  s.queueKey in r.labels && r.labels[s.queueKey] == queue)
            && (!params.removeCondition ==> r.conditions == pg.conditions)
            && (params.removeCondition ==>
                  forall c :: c in r.conditions <==> c in pg.conditions && c.kind != "UnschedulableOnNodePool")
  {
    forall c ensures c in WithoutOnPool(pg.conditions) <==> c in pg.conditions && c.kind != "UnschedulableOnNodePool" {
      WithoutOnPoolHas(pg.conditions, c);
    }
    var labels := pg.labels[s.queueKey := queue];
    if params.pool != "" {
      PoolOfWithPool(s, labels, params.pool);
    }
  }

  lemma {:induction false} WithoutOnPoolHas(conditions: seq<Condition>, c: Condition)
    ensures c in WithoutOnPool(conditions) <==> c in conditions && c.kind != "UnschedulableOnNodePool"
  {
    if conditions != [] {
      WithoutOnPoolHas(conditions[1..], c);
    }
  }

  /** A group is up for assignment exactly when it may still be retried and either nothing failed it, or its last
      failure is on its own pool, or its own pool cannot take it. */
  lemma EligibleIff(s: Settings, pg: PodGroup, phases: map<string, string>)
    ensures var own, n := PoolOf(s, pg.labels), |pg.conditions|;
            EligibilityOf(s, pg, phases).Eligible? <==>
            && (pg.backoff.Some? && pg.backoff.value != -1)
            && (n == 0 || pg.conditions[n - 1].pool == own || StatusOf(phases, own).Unavailable?)
  {
  }

  /** One reconcile by the assigner, for a given list of requested pools. Errors leave it as it is. */
  function Reconciled(s: Settings, pg: PodGroup, requested: seq<string>, env: Env): PodGroup
    requires requested != []
  {
    match EligibilityOf(s, pg, env.phases)
    case NotEligible => pg
    case ReadFailed => pg
    case Eligible(last) =>
      if !env.waiting then pg
      else
        match Decision(pg.mark, last, PoolOf(s, pg.labels), requested, env.phases)
        case Assigned(params) =>
          if params.pool in env.queueOf then AssignedTo(s, pg, params, env.queueOf[params.pool]) else pg
        case _ => pg
  }

  predicate UpForScheduler(s: Settings, pg: PodGroup) {
    BackoffValue(pg.backoff) == NO_BACKOFF || pg.conditions == [] || LastPool(pg) != Some(PoolOf(s, pg.labels))
  }

  /** The scheduler of the current pool reports a failure. No scheduler serves the sentinel. */
  predicate MayFail(s: Settings, pg: PodGroup) {
    UpForScheduler(s, pg) && PoolOf(s, pg.labels) != s.sentinel
  }

  function Failed(s: Settings, pg: PodGroup, kind: string): PodGroup {
    if MayFail(s, pg) then pg.(conditions := pg.conditions + [Condition(PoolOf(s, pg.labels), kind)]) else pg
  }

  datatype Step = Reconcile(env: Env) | Fail(kind: string)

  function Next(s: Settings, pg: PodGroup, requested: seq<string>, step: Step): PodGroup
    requires requested != []
  {
    match step
    case Reconcile(env) => Reconciled(s, pg, requested, env)
    case Fail(kind) => Failed(s, pg, kind)
  }

  function Run(s: Settings, pg: PodGroup, requested: seq<string>, steps: seq<Step>): PodGroup
    requires requested != []
    decreases |steps|
  {
    if steps == [] then pg else Run(s, Next(s, pg, requested, steps[0]), requested, steps[1..])
  }

  // ------------------------------------------------ attempts before failure becomes visible

  /** The list positions of the pools that failed the group while failure was still kept silent. */
  function SilentFailures(s: Settings, pg: PodGroup, requested: seq<string>, steps: seq<Step>): seq<int>
    requires requested != []
    decreases |steps|
  {
    if steps == [] then []
    else
      (if steps[0].Fail? && MayFail(s, pg) && !MarkValue(pg.mark)
       then [IndexOf(requested, PoolOf(s, pg.labels))] else [])
      + SilentFailures(s, Next(s, pg, requested, steps[0]), requested, steps[1..])
  }

  predicate Increasing(xs: seq<int>) {
    forall i, j :: 0 <= i < j < |xs| ==> xs[i] < xs[j]
  }

  function LastOf(requested: seq<string>): string
    requires requested != []
  {
    requested[|requested| - 1]
  }

  /** What holds while failure is silent: the group is not on the last pool, and it sits on the pool
      that failed it last or on one further down the list. */
  ghost predicate Quiet(s: Settings, pg: PodGroup, requested: seq<string>)
    requires requested != []
  {
    && pg.backoff == Some(SINGLE_BACKOFF)
    && PoolOf(s, pg.labels) != LastOf(requested)
    && (pg.conditions != [] ==>
          var last := LastPool(pg).value;
          && last != LastOf(requested)
          && (PoolOf(s, pg.labels) == last || IndexOf(requested, PoolOf(s, pg.labels)) > IndexOf(requested, last)))
  }

  ghost predicate Inv(s: Settings, pg: PodGroup, requested: seq<string>)
    requires requested != []
  {
    pg.mark.Some? && (!pg.mark.value ==> Quiet(s, pg, requested))
  }

  lemma LastIndex(requested: seq<string>, pool: string)
    requires requested != [] && Distinct(requested) && pool != LastOf(requested)
    ensures IndexOf(requested, pool) < |requested| - 1
  {
  }

  /** The first candidate of a silent decision is down the list from the failed pool, and not its end. */
  lemma SilentCandidate(last: Option<string>, current: string, requested: seq<string>)
    requires requested != [] && Distinct(requested)
    requires last.None? ==> current != LastOf(requested)
    requires last.Some? ==> last.value != LastOf(requested)
    ensures var p := Initial(Some(false), last, current, requested);
            && p.pool in requested
            && (!p.mark ==> |requested| > 1 && p.pool != LastOf(requested))
            && (last.Some? ==> IndexOf(requested, p.pool) == IndexOf(requested, last.value) + 1)
  {
    IndexOfElement(requested, 0);
    IndexOfElement(requested, |requested| - 1);
    if last.Some? {
      LastIndex(requested, last.value);
      IndexOfElement(requested, IndexOf(requested, last.value) + 1);
    }
  }

  /** A search that stays silent went further down the list, and not to its end. */
  lemma SilentSearch(params: Params, requested: seq<string>, phases: map<string, string>)
    requires requested != [] && Distinct(requested)
    ensures var r := NextFound(requested, phases, params);
            r.Assigned? && !r.params.mark ==>
              && !params.mark && r.params.backoff == params.backoff
              && r.params.pool in requested && r.params.pool != LastOf(requested)
              && IndexOf(requested, r.params.pool) >= IndexOf(requested, params.pool)
  {
    var previous := IndexOf(requested, params.pool);
    IndexOfElement(requested, |requested| - 1);
    if FirstStop(requested, phases, previous, 1, |requested|) < |requested| {
      IndexOfElement(requested, Round(previous + FirstStop(requested, phases, previous, 1, |requested|), |requested|));
    }
  }

  /** A silent decision moves down the list, and never to its end. */
  lemma SilentDecision(mark: Option<bool>, last: Option<string>, current: string, requested: seq<string>,
                       phases: map<string, string>)
    requires requested != [] && Distinct(requested) && mark == Some(false)
    requires last.None? ==> current != LastOf(requested)
    requires last.Some? ==> last.value != LastOf(requested)
    ensures var d := Decision(mark, last, current, requested, phases);
            d.Assigned? && !d.params.mark ==>
              && d.params.backoff == SINGLE_BACKOFF && !d.params.removeCondition
              && d.params.pool in requested && d.params.pool != LastOf(requested)
              && (last.Some? ==> IndexOf(requested, d.params.pool) > IndexOf(requested, last.value))
  {
    SilentCandidate(last, current, requested);
    SilentSearch(Initial(mark, last, current, requested), requested, phases);
  }

  /** Writing a silent decision keeps the group quiet. */
  lemma SilentWriteIsQuiet(s: Settings, pg: PodGroup, requested: seq<string>, params: Params, queue: string)
    requires requested != [] && "" !in requested && Quiet(s, pg, requested)
    requires params.backoff == SINGLE_BACKOFF && !params.removeCondition
    requires params.pool in requested && params.pool != LastOf(requested)
    requires pg.conditions != [] ==> IndexOf(requested, params.pool) > IndexOf(requested, LastPool(pg).value)
    ensures Quiet(s, AssignedTo(s, pg, params, queue), requested)
  {
    PoolOfWithPool(s, pg.labels[s.queueKey := queue], params.pool);
  }

  lemma SilentReconcileKeepsInv(s: Settings, pg: PodGroup, requested: seq<string>, env: Env)
    requires requested != [] && Distinct(requested) && "" !in requested && Quiet(s, pg, requested) &&
             pg.mark == Some(false)
    ensures Inv(s, Reconciled(s, pg, requested, env), requested)
  {
    var e := EligibilityOf(s, pg, env.phases);
    if e.Eligible? {
      var d := Decision(pg.mark, e.last, PoolOf(s, pg.labels), requested, env.phases);
      SilentDecision(pg.mark, e.last, PoolOf(s, pg.labels), requested, env.phases);
      if d.Assigned? && !d.params.mark && d.params.pool in env.queueOf {
        SilentWriteIsQuiet(s, pg, requested, d.params, env.queueOf[d.params.pool]);
      }
    }
  }

  lemma VisibleReconcileStays(s: Settings, pg: PodGroup, requested: seq<string>, env: Env)
    requires requested != [] && pg.mark == Some(true)
    ensures Reconciled(s, pg, requested, env).mark == Some(true)
  {
  }

  lemma ReconcileKeepsInv(s: Settings, pg: PodGroup, requested: seq<string>, env: Env)
    requires requested != [] && Distinct(requested) && "" !in requested && Inv(s, pg, requested)
    ensures Inv(s, Reconciled(s, pg, requested, env), requested)
    ensures pg.mark == Some(true) ==> Reconciled(s, pg, requested, env).mark == Some(true)
  {
    if pg.mark.value {
      VisibleReconcileStays(s, pg, requested, env);
    } else {
      SilentReconcileKeepsInv(s, pg, requested, env);
    }
  }

  lemma StepKeepsInv(s: Settings, pg: PodGroup, requested: seq<string>, step: Step)
    requires requested != [] && Distinct(requested) && "" !in requested && Inv(s, pg, requested)
    ensures Inv(s, Next(s, pg, requested, step), requested)
    ensures pg.mark == Some(true) ==> Next(s, pg, requested, step).mark == Some(true)
  {
    match step
    case Reconcile(env) => ReconcileKeepsInv(s, pg, requested, env);
    case Fail(kind) =>
  }

  /** Once failure is visible it stays visible. */
  lemma {:induction false} VisibleForGood(s: Settings, pg: PodGroup, requested: seq<string>, steps: seq<Step>)
    requires requested != [] && Distinct(requested) && "" !in requested && pg.mark == Some(true)
    ensures Run(s, pg, requested, steps).mark == Some(true)
    ensures SilentFailures(s, pg, requested, steps) == []
    decreases |steps|
  {
    if steps != [] {
      StepKeepsInv(s, pg, requested, steps[0]);
      VisibleForGood(s, Next(s, pg, requested, steps[0]), requested, steps[1..]);
    }
  }

  /** The position silent failures have got past. */
  function Floor(s: Settings, pg: PodGroup, requested: seq<string>): int {
    if pg.conditions == [] then -2 else IndexOf(requested, LastPool(pg).value)
  }

  lemma {:induction false} SilentFailuresGoUp(s: Settings, pg: PodGroup, requested: seq<string>, steps: seq<Step>)
    requires requested != [] && Distinct(requested) && "" !in requested && Inv(s, pg, requested)
    ensures var f := SilentFailures(s, pg, requested, steps);
            && Increasing(f)
            && (forall i :: 0 <= i < |f| ==> -1 <= f[i] < |requested| - 1)
            && (!MarkValue(pg.mark) ==> forall i :: 0 <= i < |f| ==> f[i] > Floor(s, pg, requested))
    decreases |steps|
  {
    if steps != [] {
      var next := Next(s, pg, requested, steps[0]);
      StepKeepsInv(s, pg, requested, steps[0]);
      SilentFailuresGoUp(s, next, requested, steps[1..]);
      if pg.mark.value {
        VisibleForGood(s, pg, requested, steps);
      } else {
        if next.mark.value {
          VisibleForGood(s, next, requested, steps[1..]);
        } else {
          FloorStep(s, pg, requested, steps[0]);
        }
        LastIndex(requested, PoolOf(s, pg.labels));
      }
    }
  }

  /** While silent, the floor moves only with a failure, to the failed pool. */
  lemma FloorStep(s: Settings, pg: PodGroup, requested: seq<string>, step: Step)
    requires requested != [] && Distinct(requested) && "" !in requested && Inv(s, pg, requested)
    requires pg.mark == Some(false) && Next(s, pg, requested, step).mark == Some(false)
    ensures var next := Next(s, pg, requested, step);
            if step.Fail? && MayFail(s, pg) then
              Floor(s, next, requested) == IndexOf(requested, PoolOf(s, pg.labels)) > Floor(s, pg, requested)
            else Floor(s, next, requested) == Floor(s, pg, requested)
  {
    if step.Reconcile? {
      ReconcileKeepsFloor(s, pg, requested, step);
    }
  }

  lemma ReconcileKeepsFloor(s: Settings, pg: PodGroup, requested: seq<string>, step: Step)
    requires requested != [] && Distinct(requested) && "" !in requested && Inv(s, pg, requested) && step.Reconcile?
    requires pg.mark == Some(false) && Next(s, pg, requested, step).mark == Some(false)
    ensures Floor(s, Next(s, pg, requested, step), requested) == Floor(s, pg, requested)
  {
    var e := EligibilityOf(s, pg, step.env.phases);
    if e.Eligible? {
      SilentDecision(pg.mark, e.last, PoolOf(s, pg.labels), requested, step.env.phases);
    }
  }

  lemma {:induction false} IncreasingIsAbove(xs: seq<int>, low: int, i: nat)
    requires Increasing(xs) && i < |xs| && xs[0] >= low
    ensures xs[i] >= low + i
  {
    if i > 0 {
      IncreasingIsAbove(xs, low, i - 1);
    }
  }

  /** The group is on a requested pool, or on none yet. */
  predicate OnList(s: Settings, pg: PodGroup, requested: seq<string>) {
    PoolOf(s, pg.labels) == s.sentinel || PoolOf(s, pg.labels) in requested
  }

  lemma StepKeepsOnList(s: Settings, pg: PodGroup, requested: seq<string>, step: Step)
    requires requested != [] && "" !in requested && OnList(s, pg, requested)
    ensures OnList(s, Next(s, pg, requested, step), requested)
  {
    if step.Reconcile? {
      var e := EligibilityOf(s, pg, step.env.phases);
      if e.Eligible? {
        var d := Decision(pg.mark, e.last, PoolOf(s, pg.labels), requested, step.env.phases);
        DecisionIsListed(pg.mark, e.last, PoolOf(s, pg.labels), requested, step.env.phases);
        if d.Assigned? && d.params.pool in step.env.queueOf {
          PoolOfWithPool(s, pg.labels[s.queueKey := step.env.queueOf[d.params.pool]], d.params.pool);
        }
      }
    }
  }

  /** A group on its list fails only on listed pools. */
  lemma {:induction false} FailuresAreListed(s: Settings, pg: PodGroup, requested: seq<string>, steps: seq<Step>)
    requires requested != [] && "" !in requested && OnList(s, pg, requested)
    ensures forall i :: 0 <= i < |SilentFailures(s, pg, requested, steps)| ==>
            SilentFailures(s, pg, requested, steps)[i] >= 0
    decreases |steps|
  {
    if steps != [] {
      StepKeepsOnList(s, pg, requested, steps[0]);
      FailuresAreListed(s, Next(s, pg, requested, steps[0]), requested, steps[1..]);
    }
  }

  /** Along the run, silent failures move strictly down the list, fewer than all requested pools
      fail silently, and failure is visible in every state on the last pool. */
  ghost predicate Orderly(s: Settings, pg: PodGroup, requested: seq<string>, steps: seq<Step>)
    requires requested != []
  {
    var f := SilentFailures(s, pg, requested, steps);
    var end := Run(s, pg, requested, steps);
    && Increasing(f)
    && |f| <= |requested| - 1
    && (PoolOf(s, end.labels) == LastOf(requested) ==> end.mark == Some(true))
  }

  lemma {:induction false} RunKeepsInv(s: Settings, pg: PodGroup, requested: seq<string>, steps: seq<Step>)
    requires requested != [] && Distinct(requested) && "" !in requested && Inv(s, pg, requested)
    ensures Inv(s, Run(s, pg, requested, steps), requested)
    decreases |steps|
  {
    if steps != [] {
      StepKeepsInv(s, pg, requested, steps[0]);
      RunKeepsInv(s, Next(s, pg, requested, steps[0]), requested, steps[1..]);
    }
  }

  /** The group arrives without a pool label, or labelled with a requested pool other than the last. */
  predicate ArrivesAhead(s: Settings, arrived: PodGroup, requested: seq<string>)
    requires requested != []
  {
    var pg := Mutated(s, arrived);
    OnList(s, pg, requested) && PoolOf(s, pg.labels) != LastOf(requested)
  }

  /** From admission on, with phases changing arbitrarily and schedulers failing the group whenever
      they may, every run is orderly, provided the group arrives ahead of the last requested pool. */
  lemma SilentAttemptsAreBounded(s: Settings, arrived: PodGroup, requested: seq<string>, steps: seq<Step>)
    requires requested != [] && Distinct(requested) && "" !in requested
    requires arrived.conditions == [] && ArrivesAhead(s, arrived, requested)
    ensures Orderly(s, Mutated(s, arrived), requested, steps)
  {
    var pg := Mutated(s, arrived);
    var f := SilentFailures(s, pg, requested, steps);
    SilentFailuresGoUp(s, pg, requested, steps);
    FailuresAreListed(s, pg, requested, steps);
    if f != [] {
      IncreasingIsAbove(f, 0, |f| - 1);
    }
    RunKeepsInv(s, pg, requested, steps);
  }

  ghost predicate OrderlyFailures(s: Settings, pg: PodGroup, requested: seq<string>, steps: seq<Step>)
    requires requested != []
  {
    var f := SilentFailures(s, pg, requested, steps);
    Increasing(f) && |f| <= |requested| - 1
  }

  /** After a silent failure on the last pool the group goes to the front of the list, still silent. */
  lemma SentToFront(s: Settings, pg: PodGroup, requested: seq<string>, env: Env)
    requires |requested| > 1 && Distinct(requested) && "" !in requested && JustFailed(s, pg) && pg.mark == Some(false)
    requires PoolOf(s, pg.labels) == LastOf(requested)
    requires env.waiting && requested[0] in env.queueOf && StatusOf(env.phases, requested[0]).Available?
    ensures var a := Reconciled(s, pg, requested, env);
            PoolOf(s, a.labels) == requested[0] && a.mark == Some(false) && LastPool(a) == LastPool(pg)
  {
    IndexOfElement(requested, |requested| - 1);
    assert requested[0] != LastOf(requested);
    PoolOfWithPool(s, pg.labels[s.queueKey := env.queueOf[requested[0]]], requested[0]);
  }

  lemma FailReconcileFail(s: Settings, pg: PodGroup, requested: seq<string>, env: Env)
    requires requested != [] && MayFail(s, pg) && !MarkValue(pg.mark)
    requires var a := Reconciled(s, Failed(s, pg, ON_POOL), requested, env); MayFail(s, a) && !MarkValue(a.mark)
    ensures SilentFailures(s, pg, requested, [Fail(ON_POOL), Reconcile(env), Fail(ON_POOL)])
            == [IndexOf(requested, PoolOf(s, pg.labels)),
                IndexOf(requested, PoolOf(s, Reconciled(s, Failed(s, pg, ON_POOL), requested, env).labels))]
  {
    var steps := [Fail(ON_POOL), Reconcile(env), Fail(ON_POOL)];
    var a := Reconciled(s, Failed(s, pg, ON_POOL), requested, env);
    assert steps[1..] == [Reconcile(env), Fail(ON_POOL)] && steps[1..][1..] == [Fail(ON_POOL)];
    assert SilentFailures(s, Failed(s, a, ON_POOL), requested, []) == [];
    assert SilentFailures(s, a, requested, [Fail(ON_POOL)]) == [IndexOf(requested, PoolOf(s, a.labels))];
  }

  /** A pod group that arrives labelled with the last requested pool may fail there silently and is
      then sent back to the front of the list, still silent. */
  lemma LastPoolFirst(s: Settings, pg: PodGroup, requested: seq<string>) returns (steps: seq<Step>)
    requires requested != [] && Distinct(requested) && "" !in requested && s.sentinel !in requested
    requires pg.conditions == [] && pg.mark == Some(false) && pg.backoff == Some(SINGLE_BACKOFF)
    requires PoolOf(s, pg.labels) == LastOf(requested)
    ensures !OrderlyFailures(s, pg, requested, steps)
  {
    IndexOfElement(requested, |requested| - 1);
    IndexOfElement(requested, 0);
    if |requested| == 1 {
      steps := [Fail(ON_POOL)];
      assert steps[1..] == [] && SilentFailures(s, Failed(s, pg, ON_POOL), requested, []) == [];
      assert SilentFailures(s, pg, requested, steps) == [0];
    } else {
      var env := Env(map[requested[0] := "Ready"], map[requested[0] := "queue"], true);
      SentToFront(s, Failed(s, pg, ON_POOL), requested, env);
      FailReconcileFail(s, pg, requested, env);
      steps := [Fail(ON_POOL), Reconcile(env), Fail(ON_POOL)];
      var f := SilentFailures(s, pg, requested, steps);
      assert f[0] > f[1];
    }
  }

  /** All requested pools are available and have queues, and pods wait. */
  ghost predicate AllOpen(requested: seq<string>, env: Env) {
    env.waiting && forall i :: 0 <= i < |requested| ==>
        requested[i] in env.queueOf && StatusOf(env.phases, requested[i]).Available?
  }

  lemma DownDecision(pool: string, requested: seq<string>, phases: map<string, string>, k: int)
    requires Distinct(requested) && k == IndexOf(requested, pool) < |requested| - 2
    requires StatusOf(phases, requested[k + 1]).Available?
    ensures Decision(Some(false), Some(pool), pool, requested, phases)
            == Assigned(Params(requested[k + 1], false, SINGLE_BACKOFF, false))
  {
    assert k >= 0 ==> requested[k] != requested[k + 1];
  }

  /** Failed silently before the end of the list, the group goes one place down. */
  lemma OneDown(s: Settings, pg: PodGroup, requested: seq<string>, env: Env, k: int)
    requires Distinct(requested) && "" !in requested && s.sentinel !in requested && AllOpen(requested, env)
    requires JustFailed(s, pg) && pg.mark == Some(false)
    requires k == IndexOf(requested, PoolOf(s, pg.labels)) < |requested| - 2
    ensures var a := Reconciled(s, pg, requested, env);
            && PoolOf(s, a.labels) == requested[k + 1] && a.mark == Some(false) && MayFail(s, a)
            && JustFailed(s, Failed(s, a, ON_POOL))
  {
    var next := requested[k + 1];
    assert next != PoolOf(s, pg.labels);
    SilentMove(s, pg, next, env.queueOf[next]);
    DownReconcile(s, pg, requested, env, k);
  }

  lemma DownReconcile(s: Settings, pg: PodGroup, requested: seq<string>, env: Env, k: int)
    requires Distinct(requested) && "" !in requested && AllOpen(requested, env)
    requires JustFailed(s, pg) && pg.mark == Some(false)
    requires k == IndexOf(requested, PoolOf(s, pg.labels)) < |requested| - 2
    ensures var next := requested[k + 1];
            && next in env.queueOf
            && Reconciled(s, pg, requested, env)
               == AssignedTo(s, pg, Params(next, false, SINGLE_BACKOFF, false), env.queueOf[next])
  {
    var pool, next := PoolOf(s, pg.labels), requested[k + 1];
    DownDecision(pool, requested, env.phases, k);
    FailedIsEligible(s, pg, env.phases);
    DecidedIsWritten(s, pg, requested, env, Some(pool), Params(next, false, SINGLE_BACKOFF, false));
  }

  lemma FailedIsEligible(s: Settings, pg: PodGroup, phases: map<string, string>)
    requires JustFailed(s, pg)
    ensures EligibilityOf(s, pg, phases) == Eligible(Some(PoolOf(s, pg.labels)))
  {
  }

  lemma DecidedIsWritten(s: Settings, pg: PodGroup, requested: seq<string>, env: Env, last: Option<string>,
                         params: Params)
    requires requested != [] && env.waiting && EligibilityOf(s, pg, env.phases) == Eligible(last)
    requires Decision(pg.mark, last, PoolOf(s, pg.labels), requested, env.phases) == Assigned(params)
    requires params.pool in env.queueOf
    ensures Reconciled(s, pg, requested, env) == AssignedTo(s, pg, params, env.queueOf[params.pool])
  {
  }

  /** Written to another pool, still silent, the group is up for that pool's scheduler. */
  lemma SilentMove(s: Settings, pg: PodGroup, pool: string, queue: string)
    requires JustFailed(s, pg) && pg.mark == Some(false) && pool != "" && pool != PoolOf(s, pg.labels) &&
             pool != s.sentinel
    ensures var a := AssignedTo(s, pg, Params(pool, false, SINGLE_BACKOFF, false), queue);
            && PoolOf(s, a.labels) == pool && a.mark == Some(false) && MayFail(s, a)
            && JustFailed(s, Failed(s, a, ON_POOL))
  {
    PoolOfWithPool(s, pg.labels[s.queueKey := queue], pool);
  }

  /** And so on to the last place but one. */
  lemma {:induction false} AllTheWayDown(s: Settings, pg: PodGroup, requested: seq<string>, env: Env, k: int)
    returns (steps: seq<Step>)
    requires Distinct(requested) && "" !in requested && s.sentinel !in requested && AllOpen(requested, env)
    requires JustFailed(s, pg) && pg.mark == Some(false)
    requires k == IndexOf(requested, PoolOf(s, pg.labels)) < |requested| - 1
    ensures |SilentFailures(s, pg, requested, steps)| == |requested| - 2 - k
    decreases |requested| - k
  {
    if k == |requested| - 2 {
      steps := [];
    } else {
      OneDown(s, pg, requested, env, k);
      IndexOfElement(requested, k + 1);
      var a := Reconciled(s, pg, requested, env);
      var rest := AllTheWayDown(s, Failed(s, a, ON_POOL), requested, env, k + 1);
      steps := [Reconcile(env), Fail(ON_POOL)] + rest;
      assert steps[1..] == [Fail(ON_POOL)] + rest && steps[1..][1..] == rest;
      assert SilentFailures(s, a, requested, steps[1..]) ==
             [k + 1] + SilentFailures(s, Failed(s, a, ON_POOL), requested, rest);
    }
  }

  /** A pod group that arrives labelled with a pool it does not request may fail silently there and then on
      every requested pool but the last: as many silent failures as there are requested pools. */
  lemma UnlistedPoolFirst(s: Settings, pg: PodGroup, requested: seq<string>) returns (steps: seq<Step>)
    requires requested != [] && Distinct(requested) && "" !in requested && s.sentinel !in requested
    requires pg.conditions == [] && pg.mark == Some(false) && pg.backoff == Some(SINGLE_BACKOFF)
    requires !OnList(s, pg, requested)
    ensures |SilentFailures(s, pg, requested, steps)| == |requested|
  {
    var listed := set p | p in requested;
    var env := Env(map p | p in listed :: "Ready", map p | p in listed :: "queue", true);
    var failed := Failed(s, pg, ON_POOL);
    var rest := AllTheWayDown(s, failed, requested, env, -1);
    steps := [Fail(ON_POOL)] + rest;
    assert steps[1..] == rest;
  }

  /** Silent failures move down the list and are fewer than the requested pools, on every run, exactly when
      the group arrives ahead of the last requested pool. */
  lemma OrderlyIffAhead(s: Settings, arrived: PodGroup, requested: seq<string>)
    requires requested != [] && Distinct(requested) && "" !in requested && s.sentinel !in requested
    requires arrived.conditions == []
    ensures (forall steps :: OrderlyFailures(s, Mutated(s, arrived), requested, steps)) <==>
            ArrivesAhead(s, arrived, requested)
  {
    var pg := Mutated(s, arrived);
    if PoolOf(s, pg.labels) == LastOf(requested) {
      var steps := LastPoolFirst(s, pg, requested);
    } else if !OnList(s, pg, requested) {
      var steps := UnlistedPoolFirst(s, pg, requested);
      assert !OrderlyFailures(s, pg, requested, steps);
    } else {
      forall steps ensures OrderlyFailures(s, pg, requested, steps) {
        SilentAttemptsAreBounded(s, arrived, requested, steps);
      }
    }
  }

  // ------------------------------------------------ fairness

  /** The pools assigned by `k` rounds of reconcile and failure under unchanging conditions. */
  function Visits(s: Settings, pg: PodGroup, requested: seq<string>, env: Env, k: nat): seq<string>
    requires requested != []
    decreases k
  {
    if k == 0 then []
    else
      var a := Reconciled(s, pg, requested, env);
      [PoolOf(s, a.labels)] + Visits(s, Failed(s, a, ON_POOL), requested, env, k - 1)
  }

  ghost predicate JustFailed(s: Settings, pg: PodGroup) {
    pg.backoff == Some(SINGLE_BACKOFF) && LastPool(pg) == Some(PoolOf(s, pg.labels))
  }

  /** The pools can all be read, have a queue each and real names; pods are waiting. */
  ghost predicate Usable(s: Settings, requested: seq<string>, env: Env) {
    && |requested| > 1 && Distinct(requested) && "" !in requested && s.sentinel !in requested && env.waiting
    && (forall i :: 0 <= i < |requested| ==> requested[i] in env.phases && requested[i] in env.queueOf)
  }

  /** The list position `d + 1` places after `base`, going round. */
  function Slot(n: nat, base: int, d: int): int
    requires -1 <= base < n && 0 <= d < n
  {
    Round(base + 1 + d, n)
  }

  /** Available places strictly beyond `e`, counted from `base`. */
  ghost function Ahead(requested: seq<string>, env: Env, base: int, e: int): set<int>
    requires -1 <= base < |requested|
  {
    set d | 0 <= d < |requested| && d > e && StatusOf(env.phases, requested[Slot(|requested|, base, d)]).Available?
  }

  /** Counting on from the place `e` is counting on from its list position. */
  lemma PlacesAgree(requested: seq<string>, base: int, e: int, at: int, j: nat)
    requires -1 <= base < |requested| && -1 <= e && 1 <= j && e + j < |requested|
    requires at == if e == -1 then base else Slot(|requested|, base, e)
    ensures Place(requested, at, j) == requested[Slot(|requested|, base, e + j)]
  {
  }

  /** The search from the place `e` stops at the nearest available place ahead. */
  lemma StopsAhead(requested: seq<string>, env: Env, base: int, e: int, at: int, x: int) returns (j: nat)
    requires -1 <= base < |requested| && -1 <= e < |requested|
    requires forall i :: 0 <= i < |requested| ==> requested[i] in env.phases
    requires at == if e == -1 then base else Slot(|requested|, base, e)
    requires x in Ahead(requested, env, base, e)
    ensures j == FirstStop(requested, env.phases, at, 1, |requested| + 1) && e + j <= x && 1 <= j
    ensures e + j in Ahead(requested, env, base, e)
  {
    j := FirstStop(requested, env.phases, at, 1, |requested| + 1);
    PlacesAgree(requested, base, e, at, x - e);
    if j > x - e {
      FirstStopSkips(requested, env.phases, at, 1, |requested| + 1, x - e);
    }
    PlacesAgree(requested, base, e, at, j);
  }

  /** The first stop after the place `e` is the next available place ahead. */
  lemma NextPlace(requested: seq<string>, env: Env, base: int, e: int, at: int) returns (j: int)
    requires -1 <= base < |requested| && -1 <= e < |requested|
    requires forall i :: 0 <= i < |requested| ==> requested[i] in env.phases
    requires at == if e == -1 then base else Slot(|requested|, base, e)
    requires Ahead(requested, env, base, e) != {}
    requires e == -1 ==> exists x :: x in Ahead(requested, env, base, e) && x < |requested| - 1
    ensures e == -1 ==> e + j < |requested| - 1
    ensures e + j in Ahead(requested, env, base, e) && forall x :: x in Ahead(requested, env, base, e) ==> e + j <= x
    ensures j == FirstStop(requested, env.phases, at, 1, |requested| + 1)
  {
    var x :| x in Ahead(requested, env, base, e) && (e == -1 ==> x < |requested| - 1);
    j := StopsAhead(requested, env, base, e, at, x);
    forall y | y in Ahead(requested, env, base, e) ensures e + j <= y {
      var _ := StopsAhead(requested, env, base, e, at, y);
    }
  }

  /** From the place `e` the next available place ahead is assigned. */
  lemma NextAhead(s: Settings, pg: PodGroup, requested: seq<string>, env: Env, base: int, e: int) returns (d: int)
    requires Usable(s, requested, env) && JustFailed(s, pg) && -1 <= base < |requested| && -1 <= e < |requested|
    requires IndexOf(requested, PoolOf(s, pg.labels)) == if e == -1 then base else Slot(|requested|, base, e)
    requires Ahead(requested, env, base, e) != {}
    requires e == -1 ==> exists x :: x in Ahead(requested, env, base, e) && x < |requested| - 1
    ensures d in Ahead(requested, env, base, e) && forall x :: x in Ahead(requested, env, base, e) ==> d <= x
    ensures var a := Reconciled(s, pg, requested, env);
            && PoolOf(s, a.labels) == requested[Slot(|requested|, base, d)]
            && JustFailed(s, Failed(s, a, ON_POOL))
            && PoolOf(s, Failed(s, a, ON_POOL).labels) == PoolOf(s, a.labels)
  {
    var pool := PoolOf(s, pg.labels);
    var at := IndexOf(requested, pool);
    var j := NextPlace(requested, env, base, e, at);
    d := e + j;
    PlacesAgree(requested, base, e, at, j);
    DecisionIsNextRound(pg.mark, pool, pool, requested, env.phases);
    ElsewhereIsAnother(requested, pool, base, e, d);
    AssignMoves(s, pg, requested, env, requested[Slot(|requested|, base, d)]);
  }

  lemma ElsewhereIsAnother(requested: seq<string>, pool: string, base: int, e: int, d: int)
    requires Distinct(requested) && -1 <= base < |requested| && -1 <= e < d < |requested|
    requires IndexOf(requested, pool) == if e == -1 then base else Slot(|requested|, base, e)
    requires e == -1 ==> d < |requested| - 1
    ensures requested[Slot(|requested|, base, d)] != pool
  {
    IndexOfElement(requested, Slot(|requested|, base, d));
  }

  /** Assigning a failed group to another pool puts it there, up for that pool's scheduler. */
  lemma AssignMoves(s: Settings, pg: PodGroup, requested: seq<string>, env: Env, pool: string)
    requires Usable(s, requested, env) && JustFailed(s, pg) && pool in requested && pool != PoolOf(s, pg.labels)
    requires var d := Decision(pg.mark, LastPool(pg), PoolOf(s, pg.labels), requested, env.phases);
             d.Assigned? && d.params.pool == pool && !d.params.removeCondition
    ensures var a := Reconciled(s, pg, requested, env);
            && PoolOf(s, a.labels) == pool
            && JustFailed(s, Failed(s, a, ON_POOL))
            && PoolOf(s, Failed(s, a, ON_POOL).labels) == pool
  {
    PoolOfWithPool(s, pg.labels[s.queueKey := env.queueOf[pool]], pool);
  }

  lemma SlotsApart(n: nat, base: int, d: int, e: int)
    requires -1 <= base < n && 0 <= d < n && 0 <= e < n && d != e
    ensures Slot(n, base, d) != Slot(n, base, e)
  {
  }

  /** `v` lists the pools of the places in `ds`, each once. */
  ghost predicate ListsPlaces(v: seq<string>, requested: seq<string>, base: int, ds: set<int>)
    requires -1 <= base < |requested| && forall d :: d in ds ==> 0 <= d < |requested|
  {
    && Distinct(v)
    && (forall p :: p in v <==> exists d :: d in ds && p == requested[Slot(|requested|, base, d)])
  }

  /** `pg` has just failed at the place `e`; at the start, with more than its own pool ahead. */
  ghost predicate FailedAt(s: Settings, pg: PodGroup, requested: seq<string>, env: Env, base: int, e: int) {
    && Usable(s, requested, env) && JustFailed(s, pg) && -1 <= base < |requested| && -1 <= e < |requested|
    && IndexOf(requested, PoolOf(s, pg.labels)) == (if e == -1 then base else Slot(|requested|, base, e))
    && (e == -1 ==> exists x :: x in Ahead(requested, env, base, e) && x < |requested| - 1)
  }

  lemma AheadShrinks(requested: seq<string>, env: Env, base: int, e: int, d: int)
    requires -1 <= base < |requested| && d in Ahead(requested, env, base, e)
    requires forall x :: x in Ahead(requested, env, base, e) ==> d <= x
    ensures Ahead(requested, env, base, d) == Ahead(requested, env, base, e) - {d}
    ensures |Ahead(requested, env, base, e)| == |Ahead(requested, env, base, d)| + 1
  {
  }

  /** One failure and reassignment takes the group from one place to the next. */
  lemma NextVisit(s: Settings, pg: PodGroup, requested: seq<string>, env: Env, base: int, e: int)
    returns (d: int, next: PodGroup)
    requires FailedAt(s, pg, requested, env, base, e) && Ahead(requested, env, base, e) != {}
    ensures d in Ahead(requested, env, base, e) && FailedAt(s, next, requested, env, base, d)
    ensures var rest := Ahead(requested, env, base, d);
            rest + {d} == Ahead(requested, env, base, e) && |Ahead(requested, env, base, e)| == |rest| + 1
    ensures next == Failed(s, Reconciled(s, pg, requested, env), ON_POOL)
    ensures PoolOf(s, Reconciled(s, pg, requested, env).labels) == requested[Slot(|requested|, base, d)]
  {
    d := NextAhead(s, pg, requested, env, base, e);
    next := Failed(s, Reconciled(s, pg, requested, env), ON_POOL);
    IndexOfElement(requested, Slot(|requested|, base, d));
    AheadShrinks(requested, env, base, e, d);
  }

  lemma {:induction false} VisitsAhead(s: Settings, pg: PodGroup, requested: seq<string>, env: Env, base: int, e: int)
    requires FailedAt(s, pg, requested, env, base, e)
    ensures ListsPlaces(Visits(s, pg, requested, env, |Ahead(requested, env, base, e)|), requested, base,
                        Ahead(requested, env, base, e))
    decreases |requested| - e
  {
    var ahead := Ahead(requested, env, base, e);
    if ahead != {} {
      var d, next := NextVisit(s, pg, requested, env, base, e);
      VisitsAhead(s, next, requested, env, base, d);
      var v := Visits(s, next, requested, env, |ahead| - 1);
      OneMorePlace(v, requested, base, Ahead(requested, env, base, d), d);
      assert Visits(s, pg, requested, env, |ahead|) == [requested[Slot(|requested|, base, d)]] + v;
    }
  }

  lemma OneMorePlace(v: seq<string>, requested: seq<string>, base: int, rest: set<int>, d: int)
    requires Distinct(requested) && -1 <= base < |requested| && 0 <= d < |requested| && d !in rest
    requires forall x :: x in rest ==> 0 <= x < |requested|
    requires ListsPlaces(v, requested, base, rest)
    ensures ListsPlaces([requested[Slot(|requested|, base, d)]] + v, requested, base, rest + {d})
  {
    var n := |requested|;
    var p := requested[Slot(n, base, d)];
    assert p !in v by {
      if p in v {
        var x :| x in rest && p == requested[Slot(n, base, x)];
        SlotsApart(n, base, d, x);
      }
    }
  }

  /** The available pools among the requested ones. */
  function AvailablePools(requested: seq<string>, phases: map<string, string>): set<string> {
    set p | p in requested && StatusOf(phases, p).Available?
  }

  lemma {:induction false} DistinctCounts(v: seq<string>)
    requires Distinct(v)
    ensures |set p | p in v| == |v|
  {
    if v != [] {
      var rest := v[1..];
      forall i, j | 0 <= i < j < |rest| ensures rest[i] != rest[j] {
        assert rest[i] == v[i + 1] && rest[j] == v[j + 1];
      }
      DistinctCounts(rest);
      assert v[0] !in rest;
      assert (set p | p in v) == (set p | p in rest) + {v[0]};
    }
  }

  /** Going round is fair. With a fixed set of at least two available pools, as many rounds of
      failure and reassignment as there are available pools assign each of them exactly once. */
  lemma RoundIsFair(s: Settings, pg: PodGroup, requested: seq<string>, env: Env)
    requires Usable(s, requested, env) && JustFailed(s, pg)
    requires |AvailablePools(requested, env.phases)| >= 2
    ensures var available := AvailablePools(requested, env.phases);
            var visits := Visits(s, pg, requested, env, |available|);
            && Distinct(visits)
            && (set p | p in visits) == available
  {
    var available := AvailablePools(requested, env.phases);
    var base := IndexOf(requested, PoolOf(s, pg.labels));
    var ahead := Ahead(requested, env, base, -1);
    SomeBeforeTheEnd(requested, env, base);
    VisitsAhead(s, pg, requested, env, base, -1);
    var visits := Visits(s, pg, requested, env, |ahead|);
    PlacesAreAvailable(requested, env, base, visits);
    DistinctCounts(visits);
    VisitsLength(s, pg, requested, env, |ahead|);
  }

  /** With two available pools, one of them is not at the last place. */
  lemma SomeBeforeTheEnd(requested: seq<string>, env: Env, base: int)
    requires Distinct(requested) && -1 <= base < |requested| && |AvailablePools(requested, env.phases)| >= 2
    ensures exists x :: x in Ahead(requested, env, base, -1) && x < |requested| - 1
  {
    var n := |requested|;
    var available := AvailablePools(requested, env.phases);
    var last := requested[Slot(n, base, n - 1)];
    if forall p :: p in available ==> p == last {
      assert available <= {last};
      SubsetSize(available, {last});
    }
    var p :| p in available && p != last;
    var x := PlaceOf(requested, base, p);
    assert x in Ahead(requested, env, base, -1);
  }

  lemma PlacesAreAvailable(requested: seq<string>, env: Env, base: int, visits: seq<string>)
    requires Distinct(requested) && -1 <= base < |requested|
    requires ListsPlaces(visits, requested, base, Ahead(requested, env, base, -1))
    ensures (set p | p in visits) == AvailablePools(requested, env.phases)
  {
    forall p | p in AvailablePools(requested, env.phases)
      ensures p in visits
    {
      var x := PlaceOf(requested, base, p);
      assert x in Ahead(requested, env, base, -1);
    }
  }

  lemma {:induction false} VisitsLength(s: Settings, pg: PodGroup, requested: seq<string>, env: Env, k: nat)
    requires requested != []
    ensures |Visits(s, pg, requested, env, k)| == k
    decreases k
  {
    if k > 0 {
      VisitsLength(s, Failed(s, Reconciled(s, pg, requested, env), ON_POOL), requested, env, k - 1);
    }
  }

  lemma SubsetSize(a: set<string>, b: set<string>)
    requires a <= b
    ensures |a| <= |b|
  {
    assert |b| == |a| + |b - a| by {
      assert b == a + (b - a);
    }
  }

  lemma PlaceOf(requested: seq<string>, base: int, p: string) returns (d: int)
    requires -1 <= base < |requested| && p in requested
    ensures 0 <= d < |requested| && requested[Slot(|requested|, base, d)] == p
  {
    var i := IndexOf(requested, p);
    d := if i >= base + 1 then i - base - 1 else i - base - 1 + |requested|;
  }
}
