/** The department reconciler's queue placement: each department's queue for a node pool goes
    under its parent department's queue for the same pool, or waits at the root where that would
    close a loop. */
module DepartmentQueues {
  import opened Forest
  import opened Queues

  datatype World = World(settings: Settings, departments: DepartmentMap)

  /** One reconcile: which department, the order in which the API lists queues during it, and the
      names that would be generated for queues the department does not have yet. */
  datatype Turn = Turn(department: string, order: seq<string>, generated: seq<string>)

  predicate ValidTurn(w: World, turn: Turn) {
    && turn.department in w.departments
    && |turn.generated| == |w.departments[turn.department].queues|
    && "" !in turn.generated
  }

  function Expected(s: Settings, name: string, uid: string, config: QueueConfig, parentQueue: string): Queue {
    Queue(
      WithPool(s, map[s.departmentKey := name], config.nodepool),
      [OwnerRef(DEPARTMENT_KIND, name, uid)],
      SpecOf(config, name, parentQueue))
  }

  /** The parent a queue gets: the wanted one, unless it is new and would close a loop. */
  ghost function PlacedParent(queues: QueueMap, name: string, current: string, wanted: string): string {
    if wanted != "" && wanted != current && AtOrAbove(Placement(queues), name, wanted) then "" else wanted
  }

  datatype Outcome = Outcome(queues: QueueMap, name: string, held: bool)

  /** Reconciling one entry of the department's spec. Creating a queue under a taken name changes nothing. */
  ghost function Reconciled(w: World, queues: QueueMap, turn: Turn, i: nat): Outcome
    requires ValidTurn(w, turn) && i < |turn.generated|
  {
    var s, d := w.settings, w.departments[turn.department];
    var config := d.queues[i];
    var wanted := DepartmentQueue(s, w.departments, queues, turn.order, d.parent, config.nodepool);
    var existing := OwnedQueue(s, queues, turn.order, config.nodepool, d.uid);
    if existing == "" then
      var parent := PlacedParent(queues, turn.generated[i], "", wanted);
      Outcome(
        if turn.generated[i] in queues then queues
        else queues[turn.generated[i] := Expected(s, turn.department, d.uid, config, parent)],
        turn.generated[i],
        parent != wanted)
    else
      var parent := PlacedParent(queues, existing, queues[existing].spec.parentQueue, wanted);
      Outcome(
        queues[existing := Expected(s, turn.department, d.uid, config, parent)],
        existing,
        parent != wanted)
  }

  datatype Progress = Progress(queues: QueueMap, reconciled: set<string>, held: bool)

  function Grown(p: Progress, o: Outcome): Progress {
    Progress(o.queues, p.reconciled + {o.name}, p.held || o.held)
  }

  ghost function AfterEntries(w: World, queues: QueueMap, turn: Turn, n: nat): Progress
    requires ValidTurn(w, turn) && n <= |turn.generated|
    decreases n
  {
    if n == 0 then Progress(queues, {}, false)
    else
      var p := AfterEntries(w, queues, turn, n - 1);
      Grown(p, Reconciled(w, p.queues, turn, n - 1))
  }

  /** The queues after a whole reconcile: every entry in turn, then what is no longer needed goes. */
  ghost function Handled(w: World, queues: QueueMap, turn: Turn): QueueMap
    requires ValidTurn(w, turn)
  {
    var p := AfterEntries(w, queues, turn, |turn.generated|);
    Pruned(w.settings, p.queues, p.reconciled, w.departments[turn.department].uid,
           w.settings.departmentKey, turn.department, DEPARTMENT_KIND)
  }

  ghost predicate HeldBack(w: World, queues: QueueMap, turn: Turn)
    requires ValidTurn(w, turn)
  {
    AfterEntries(w, queues, turn, |turn.generated|).held
  }

  /** The handler, with the queues of the cluster as the state it changes. */
  class DepartmentHandler {
    const world: World
    var queues: QueueMap

    constructor (world: World, queues: QueueMap)
      ensures this.world == world && this.queues == queues
    {
      this.world, this.queues := world, queues;
    }

    method HoldAsRootOnLoop(name: string, current: string, wanted: string) returns (parent: string)
      requires name != ""
      ensures parent == PlacedParent(queues, name, current, wanted)
    {
      if wanted == "" || wanted == current {
        return wanted;
      }
      var loop := WouldCloseLoop(queues, name, wanted);
      parent := if loop then "" else wanted;
    }

    method ReconcileQueue(turn: Turn, i: nat) returns (name: string, held: bool)
      requires ValidTurn(world, turn) && i < |turn.generated|
      modifies this`queues
      ensures Outcome(queues, name, held) == Reconciled(world, old(queues), turn, i)
    {
      var s, d := world.settings, world.departments[turn.department];
      var config := d.queues[i];
      var wanted := DepartmentQueue(s, world.departments, queues, turn.order, d.parent, config.nodepool);
      var existing := OwnedQueue(s, queues, turn.order, config.nodepool, d.uid);
      if existing == "" {
        name := turn.generated[i];
        var parent := HoldAsRootOnLoop(name, "", wanted);
        held := parent != wanted;
        if name !in queues {
          queues := queues[name := Expected(s, turn.department, d.uid, config, parent)];
        }
        return;
      }
      name := existing;
      var parent := HoldAsRootOnLoop(name, queues[existing].spec.parentQueue, wanted);
      held := parent != wanted;
      var expected := Expected(s, turn.department, d.uid, config, parent);
      if expected != queues[existing] && !IsExternal(s, queues[existing], d.uid) {
        queues := queues[existing := expected];
      }
    }

    method Handle(turn: Turn) returns (held: bool)
      requires ValidTurn(world, turn)
      modifies this`queues
      ensures queues == Handled(world, old(queues), turn)
      ensures held == HeldBack(world, old(queues), turn)
    {
      var reconciled: set<string> := {};
      held := false;
      for i := 0 to |turn.generated|
        invariant Progress(queues, reconciled, held) == AfterEntries(world, old(queues), turn, i)
      {
        var name, heldHere := ReconcileQueue(turn, i);
        held := held || heldHere;
        reconciled := reconciled + {name};
      }
      queues := DeleteUnnecessary(world.settings, queues, reconciled, world.departments[turn.department].uid,
                                  world.settings.departmentKey, turn.department, DEPARTMENT_KIND);
    }
  }

  // ---------------------------------------------------------------- no new loops

  /** Every loop of `after` was already there in `before`. */
  ghost predicate NoNewLoop(before: QueueMap, after: QueueMap) {
    forall y :: OnLoop(Placement(after), y) ==> OnLoop(Placement(before), y)
  }

  lemma PlacementAfterWrite(queues: QueueMap, name: string, queue: Queue)
    requires name != ""
    ensures Placement(queues[name := queue]) == Placement(queues)[name := queue.spec.parentQueue]
  {
  }

  /** Placing a queue where the loop check lets it go adds no loop to any graph. */
  lemma PlacingAddsNoLoop(queues: QueueMap, name: string, wanted: string, queue: Queue)
    requires name != ""
    requires var current := if name in queues then queues[name].spec.parentQueue else "";
             queue.spec.parentQueue == PlacedParent(queues, name, current, wanted)
    ensures NoNewLoop(queues, queues[name := queue])
  {
    var t := Placement(queues);
    var parent := queue.spec.parentQueue;
    PlacementAfterWrite(queues, name, queue);
    if name in queues && queues[name].spec.parentQueue == parent {
      assert t[name := parent] == t;
    } else {
      PlacementLoops(t, name, parent);
      if parent == "" && AtOrAbove(t, name, "") {
        var n: nat :| Walk(t, "", n) == name;
        WalkFromNowhere(t, n);
      }
      var u: Parents := t[name := parent];
      forall y | OnLoop(u, y) ensures OnLoop(t, y) {
        OnlyLoopsThroughChange(t, name, parent, y);
      }
    }
  }

  lemma {:induction false} EntriesAddNoLoop(w: World, queues: QueueMap, turn: Turn, n: nat) returns (p: Progress)
    requires ValidTurn(w, turn) && n <= |turn.generated|
    ensures p == AfterEntries(w, queues, turn, n) && NoNewLoop(queues, p.queues)
    decreases n
  {
    if n == 0 {
      p := Progress(queues, {}, false);
    } else {
      var q := EntriesAddNoLoop(w, queues, turn, n - 1);
      p := Grown(q, Reconciled(w, q.queues, turn, n - 1));
      EntryAddsNoLoop(w, queues, turn, n - 1, q, p);
    }
  }

  lemma EntryAddsNoLoop(w: World, queues: QueueMap, turn: Turn, i: nat, q: Progress, p: Progress)
    requires ValidTurn(w, turn) && i < |turn.generated|
    requires NoNewLoop(queues, q.queues) && p == Grown(q, Reconciled(w, q.queues, turn, i))
    ensures NoNewLoop(queues, p.queues)
  {
    ReconcileAddsNoLoop(w, q.queues, turn, i);
    NoNewLoopTransitive(queues, q.queues, p.queues);
  }

  lemma NoNewLoopTransitive(a: QueueMap, b: QueueMap, c: QueueMap)
    requires NoNewLoop(a, b) && NoNewLoop(b, c)
    ensures NoNewLoop(a, c)
  {
    forall y | OnLoop(Placement(c), y) ensures OnLoop(Placement(a), y) {
      assert OnLoop(Placement(b), y);
    }
  }

  lemma ReconcileAddsNoLoop(w: World, queues: QueueMap, turn: Turn, i: nat)
    requires ValidTurn(w, turn) && i < |turn.generated|
    ensures NoNewLoop(queues, Reconciled(w, queues, turn, i).queues)
  {
    var s, d := w.settings, w.departments[turn.department];
    var config := d.queues[i];
    var wanted := DepartmentQueue(s, w.departments, queues, turn.order, d.parent, config.nodepool);
    var existing := OwnedQueue(s, queues, turn.order, config.nodepool, d.uid);
    var name := if existing == "" then turn.generated[i] else existing;
    var current := if name in queues then queues[name].spec.parentQueue else "";
    if existing != "" || name !in queues {
      var parent := PlacedParent(queues, name, current, wanted);
      PlacingAddsNoLoop(queues, name, wanted, Expected(s, turn.department, d.uid, config, parent));
    }
  }

  /** A whole department reconcile, on any queue graph whatever, makes no new loop. */
  lemma HandleAddsNoLoop(w: World, queues: QueueMap, turn: Turn)
    requires ValidTurn(w, turn)
    ensures NoNewLoop(queues, Handled(w, queues, turn))
  {
    var p := EntriesAddNoLoop(w, queues, turn, |turn.generated|);
    var middle := p.queues;
    var after := Handled(w, queues, turn);
    forall y | OnLoop(Placement(after), y) ensures OnLoop(Placement(middle), y) {
      FewerNamesNoNewLoop(Placement(middle), Placement(after), y);
    }
  }

  ghost predicate ValidTurns(w: World, turns: seq<Turn>) {
    forall i :: 0 <= i < |turns| ==> ValidTurn(w, turns[i])
  }

  ghost function Run(w: World, queues: QueueMap, turns: seq<Turn>): QueueMap
    requires ValidTurns(w, turns)
    decreases |turns|
  {
    if turns == [] then queues else Run(w, Handled(w, queues, turns[0]), turns[1..])
  }

  /** Reconciles in any number and order never make a queue loop. */
  lemma {:induction false} RunAddsNoLoop(w: World, queues: QueueMap, turns: seq<Turn>)
    requires ValidTurns(w, turns)
    ensures NoNewLoop(queues, Run(w, queues, turns))
    decreases |turns|
  {
    if turns != [] {
      HandleAddsNoLoop(w, queues, turns[0]);
      RunAddsNoLoop(w, Handled(w, queues, turns[0]), turns[1..]);
    }
  }
}
