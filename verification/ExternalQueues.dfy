/** Queues that belong to someone else: what project and department reconciles, prunings and
    project deletions leave alone when external queues are allowed. */
module ExternalQueues {
  import opened Queues
  import D = DepartmentQueues

  datatype Project = Project(uid: string, parent: string, queues: seq<QueueConfig>)

  datatype World = World(settings: Settings, departments: DepartmentMap, projects: map<string, Project>)

  function Lower(c: char): char {
    if 'A' <= c <= 'Z' then (c as int + 32) as char else c
  }

  function LowerCase(s: string): string {
    seq(|s|, i requires 0 <= i < |s| => Lower(s[i]))
  }

  /** An administrator took the queue over by hand. */
  predicate Overridden(s: Settings, queue: Queue) {
    s.overrideKey in queue.labels && LowerCase(queue.labels[s.overrideKey]) == "true"
  }

  /** The first listed queue with the project's label, for the pool, that the project may take as its own. */
  function QueueByLabels(s: Settings, queues: QueueMap, order: seq<string>, project: string, uid: string,
                         pool: string): (name: string)
    ensures name != "" ==> name in queues && !IsExternal(s, queues[name], uid)
    decreases |order|
  {
    if order == [] then ""
    else if && order[0] in queues
            && HasLabel(queues[order[0]], s.projectKey, project)
            && InPool(s, queues[order[0]], pool)
            && OwnedByKind(queues[order[0]].owners, PROJECT_KIND)
            && !IsExternal(s, queues[order[0]], uid)
    then order[0]
    else QueueByLabels(s, queues, order[1..], project, uid, pool)
  }

  /** Whether the queue under `name` belongs to a resource other than the expected one. */
  predicate Taken(s: Settings, queues: QueueMap, department: string, project: string, name: string, uid: string) {
    name in queues &&
    var queue := queues[name];
    var byDepartment := OwnedByKind(queue.owners, DEPARTMENT_KIND);
    var byProject := OwnedByKind(queue.owners, PROJECT_KIND);
    if IsExternal(s, queue, uid) then true
    else if department != "" && byDepartment && HasLabel(queue, s.departmentKey, department) then false
    else if project != "" && byProject && HasLabel(queue, s.projectKey, project) then false
    else byDepartment || byProject
  }

  /** The queue the project already has for an entry: by label, else under the suggested name. */
  function ExistingQueue(s: Settings, queues: QueueMap, order: seq<string>, project: string, uid: string,
                         config: QueueConfig): (name: string)
    ensures name != "" ==> name in queues && !IsExternal(s, queues[name], uid)
  {
    var byLabel := QueueByLabels(s, queues, order, project, uid, config.nodepool);
    var suggested := QueueName(s, config, project);
    if byLabel != "" then byLabel
    else if suggested in queues && !Taken(s, queues, "", project, suggested, uid) then suggested
    else ""
  }

  function Expected(s: Settings, name: string, project: Project, config: QueueConfig, queueName: string,
                    parentQueue: string): Queue {
    Queue(
      WithPool(s, map[s.projectKey := name, s.projectIdKey := project.uid, s.departmentKey := project.parent],
          config.nodepool),
      [OwnerRef(PROJECT_KIND, name, project.uid)],
      SpecOf(config, queueName, parentQueue))
  }

  /** One project reconcile, with the listing order and the names generated for missing queues. */
  datatype Turn = Turn(project: string, order: seq<string>, generated: seq<string>)

  predicate ValidTurn(w: World, turn: Turn) {
    && turn.project in w.projects
    && |turn.generated| == |w.projects[turn.project].queues|
    && "" !in turn.generated
  }

  datatype Progress = Progress(queues: QueueMap, reconciled: set<string>)

  function Reconciled(w: World, p: Progress, turn: Turn, i: nat): Progress
    requires ValidTurn(w, turn) && i < |turn.generated|
  {
    var s, project := w.settings, w.projects[turn.project];
    var config := project.queues[i];
    var parent := DepartmentQueue(s, w.departments, p.queues, turn.order, project.parent, config.nodepool);
    var existing := ExistingQueue(s, p.queues, turn.order, turn.project, project.uid, config);
    if existing == "" then
      var name := turn.generated[i];
      Progress(
        if name in p.queues then p.queues
        else p.queues[name := Expected(s, turn.project, project, config, name, parent)],
        p.reconciled + {name})
    else if Overridden(s, p.queues[existing]) then Progress(p.queues, p.reconciled + {existing})
    else
      Progress(
        p.queues[existing := Expected(s, turn.project, project, config, existing, parent)],
        p.reconciled + {existing})
  }

  function AfterEntries(w: World, queues: QueueMap, turn: Turn, n: nat): Progress
    requires ValidTurn(w, turn) && n <= |turn.generated|
    decreases n
  {
    if n == 0 then Progress(queues, {}) else Reconciled(w, AfterEntries(w, queues, turn, n - 1), turn, n - 1)
  }

  function Handled(w: World, queues: QueueMap, turn: Turn): QueueMap
    requires ValidTurn(w, turn)
  {
    var p := AfterEntries(w, queues, turn, |turn.generated|);
    Pruned(w.settings, p.queues, p.reconciled, w.projects[turn.project].uid, w.settings.projectKey, turn.project,
        PROJECT_KIND)
  }

  /** A queue that a project takes down with it when it is deleted. */
  predicate GoesWithProject(s: Settings, queue: Queue, project: string, uid: string) {
    HasLabel(queue, s.projectKey, project) && !IsExternal(s, queue, uid) && !Overridden(s, queue)
  }

  function WithoutProject(w: World, queues: QueueMap, project: string): QueueMap
    requires project in w.projects
  {
    map n | n in queues && !GoesWithProject(w.settings, queues[n], project, w.projects[project].uid) :: queues[n]
  }

  /** The queues of the cluster as the project handler changes them. */
  class ProjectHandler {
    const world: World
    var queues: QueueMap

    constructor (world: World, queues: QueueMap)
      ensures this.world == world && this.queues == queues
    {
      this.world, this.queues := world, queues;
    }

    method ReconcileQueue(turn: Turn, i: nat, ghost reconciled: set<string>) returns (name: string)
      requires ValidTurn(world, turn) && i < |turn.generated|
      modifies this`queues
      ensures Progress(queues, reconciled + {name}) == Reconciled(world, Progress(old(queues), reconciled), turn, i)
    {
      var s, project := world.settings, world.projects[turn.project];
      var config := project.queues[i];
      var parent := DepartmentQueue(s, world.departments, queues, turn.order, project.parent, config.nodepool);
      var existing := ExistingQueue(s, queues, turn.order, turn.project, project.uid, config);
      if existing == "" {
        name := turn.generated[i];
        if name !in queues {
          queues := queues[name := Expected(s, turn.project, project, config, name, parent)];
        }
        return;
      }
      name := existing;
      var expected := Expected(s, turn.project, project, config, existing, parent);
      if expected == queues[existing] || Overridden(s, queues[existing]) ||
          IsExternal(s, queues[existing], project.uid) {
        return;
      }
      queues := queues[existing := expected];
    }

    method Handle(turn: Turn)
      requires ValidTurn(world, turn)
      modifies this`queues
      ensures queues == Handled(world, old(queues), turn)
    {
      var reconciled: set<string> := {};
      for i := 0 to |turn.generated|
        invariant Progress(queues, reconciled) == AfterEntries(world, old(queues), turn, i)
      {
        var name := ReconcileQueue(turn, i, reconciled);
        reconciled := reconciled + {name};
      }
      queues := DeleteUnnecessary(world.settings, queues, reconciled, world.projects[turn.project].uid,
                                  world.settings.projectKey, turn.project, PROJECT_KIND);
    }

    /** Runs when the project is deleted: its queues go, one by one, except what is not its own or
        was taken over by hand. */
    method OnDelete(project: string)
      requires project in world.projects
      modifies this`queues
      ensures queues == WithoutProject(world, old(queues), project)
    {
      var s, uid := world.settings, world.projects[project].uid;
      var listed := queues;
      var rest := set n | n in listed && HasLabel(listed[n], s.projectKey, project);
      while rest != {}
        invariant rest <= queues.Keys <= listed.Keys
        invariant forall n :: n in queues ==> queues[n] == listed[n]
        invariant forall n :: n in rest ==> HasLabel(listed[n], s.projectKey, project)
        invariant forall n :: n in listed && n !in rest ==>
                  (n in queues <==> !GoesWithProject(s, listed[n], project, uid))
        decreases rest
      {
        var name :| name in rest;
        rest := rest - {name};
        if !IsExternal(s, listed[name], uid) && !Overridden(s, listed[name]) {
          queues := queues - {name};
        }
      }
    }
  }

  // ---------------------------------------------------------------- whole runs

  datatype Act =
    | ReconcileDepartment(turn: D.Turn)
    | ReconcileProject(projectTurn: Turn)
    | DeleteProject(project: string)

  function DepartmentWorld(w: World): D.World { D.World(w.settings, w.departments) }

  predicate ValidAct(w: World, act: Act) {
    match act
    case ReconcileDepartment(turn) => D.ValidTurn(DepartmentWorld(w), turn)
    case ReconcileProject(turn) => ValidTurn(w, turn)
    case DeleteProject(project) => project in w.projects
  }

  /** Whoever acts. */
  function ActorUid(w: World, act: Act): string
    requires ValidAct(w, act)
  {
    match act
    case ReconcileDepartment(turn) => w.departments[turn.department].uid
    case ReconcileProject(turn) => w.projects[turn.project].uid
    case DeleteProject(project) => w.projects[project].uid
  }

  ghost function Next(w: World, queues: QueueMap, act: Act): QueueMap
    requires ValidAct(w, act)
  {
    match act
    case ReconcileDepartment(turn) => D.Handled(DepartmentWorld(w), queues, turn)
    case ReconcileProject(turn) => Handled(w, queues, turn)
    case DeleteProject(project) => WithoutProject(w, queues, project)
  }

  /** Everything `uid` does not own is still there, unchanged. */
  ghost predicate OthersKept(before: QueueMap, after: QueueMap, uid: string) {
    forall n :: n in before && !OwnedByUid(before[n].owners, uid) ==> n in after && after[n] == before[n]
  }

  lemma OthersKeptTransitive(a: QueueMap, b: QueueMap, c: QueueMap, uid: string)
    requires OthersKept(a, b, uid) && OthersKept(b, c, uid)
    ensures OthersKept(a, c, uid)
  {
    forall n | n in a && !OwnedByUid(a[n].owners, uid) ensures n in c && c[n] == a[n] {
      assert b[n] == a[n];
    }
  }

  lemma PruningKeepsOthers(s: Settings, queues: QueueMap, reconciled: set<string>, uid: string, key: string,
                           value: string, kind: string)
    requires s.allowExternal
    ensures OthersKept(queues, Pruned(s, queues, reconciled, uid, key, value, kind), uid)
  {
  }

  lemma {:induction false} DepartmentEntriesKeepOthers(w: World, queues: QueueMap, turn: D.Turn, n: nat)
    returns (p: D.Progress)
    requires D.ValidTurn(DepartmentWorld(w), turn) && n <= |turn.generated|
    ensures p == D.AfterEntries(DepartmentWorld(w), queues, turn, n)
    ensures OthersKept(queues, p.queues, w.departments[turn.department].uid)
    decreases n
  {
    if n == 0 {
      p := D.Progress(queues, {}, false);
    } else {
      var q := DepartmentEntriesKeepOthers(w, queues, turn, n - 1);
      p := D.Grown(q, D.Reconciled(DepartmentWorld(w), q.queues, turn, n - 1));
      DepartmentEntryKeepsOthers(w, q.queues, turn, n - 1, p.queues);
      OthersKeptTransitive(queues, q.queues, p.queues, w.departments[turn.department].uid);
    }
  }

  lemma DepartmentEntryKeepsOthers(w: World, queues: QueueMap, turn: D.Turn, i: nat, after: QueueMap)
    requires D.ValidTurn(DepartmentWorld(w), turn) && i < |turn.generated|
    requires after == D.Reconciled(DepartmentWorld(w), queues, turn, i).queues
    ensures OthersKept(queues, after, w.departments[turn.department].uid)
  {
  }

  lemma {:induction false} ProjectEntriesKeepOthers(w: World, queues: QueueMap, turn: Turn, n: nat)
    returns (p: Progress)
    requires w.settings.allowExternal && ValidTurn(w, turn) && n <= |turn.generated|
    ensures p == AfterEntries(w, queues, turn, n)
    ensures OthersKept(queues, p.queues, w.projects[turn.project].uid)
    decreases n
  {
    if n == 0 {
      p := Progress(queues, {});
    } else {
      var q := ProjectEntriesKeepOthers(w, queues, turn, n - 1);
      p := Reconciled(w, q, turn, n - 1);
      ProjectEntryKeepsOthers(w, q, turn, n - 1, p);
      OthersKeptTransitive(queues, q.queues, p.queues, w.projects[turn.project].uid);
    }
  }

  lemma ProjectEntryKeepsOthers(w: World, q: Progress, turn: Turn, i: nat, p: Progress)
    requires w.settings.allowExternal && ValidTurn(w, turn) && i < |turn.generated|
    requires p == Reconciled(w, q, turn, i)
    ensures OthersKept(q.queues, p.queues, w.projects[turn.project].uid)
  {
  }

  /** With external queues allowed, no act changes or deletes a queue its actor does not own. */
  lemma ActKeepsOthers(w: World, queues: QueueMap, act: Act)
    requires w.settings.allowExternal && ValidAct(w, act)
    ensures OthersKept(queues, Next(w, queues, act), ActorUid(w, act))
  {
    match act
    case ReconcileDepartment(turn) =>
      var p := DepartmentEntriesKeepOthers(w, queues, turn, |turn.generated|);
      var uid := w.departments[turn.department].uid;
      PruningKeepsOthers(w.settings, p.queues, p.reconciled, uid, w.settings.departmentKey, turn.department,
          DEPARTMENT_KIND);
      OthersKeptTransitive(queues, p.queues, Next(w, queues, act), uid);
    case ReconcileProject(turn) =>
      var p := ProjectEntriesKeepOthers(w, queues, turn, |turn.generated|);
      var uid := w.projects[turn.project].uid;
      PruningKeepsOthers(w.settings, p.queues, p.reconciled, uid, w.settings.projectKey, turn.project, PROJECT_KIND);
      OthersKeptTransitive(queues, p.queues, Next(w, queues, act), uid);
    case DeleteProject(project) =>
  }

  /** An act, with the departments and projects there are at that moment. */
  datatype Move = Move(world: World, act: Act)

  ghost predicate ValidMoves(moves: seq<Move>) {
    forall i :: 0 <= i < |moves| ==> ValidAct(moves[i].world, moves[i].act)
  }

  ghost function Run(queues: QueueMap, moves: seq<Move>): QueueMap
    requires ValidMoves(moves)
    decreases |moves|
  {
    if moves == [] then queues else Run(Next(moves[0].world, queues, moves[0].act), moves[1..])
  }

  /** The mover allows external queues and does not own the queue. */
  predicate LeavesAlone(m: Move, queue: Queue)
    requires ValidAct(m.world, m.act)
  {
    m.world.settings.allowExternal && !OwnedByUid(queue.owners, ActorUid(m.world, m.act))
  }

  /** A queue owned by nobody who acts survives any run exactly as it was, while departments and projects come,
      go and change. */
  lemma {:induction false} ExternalQueuesUntouched(queues: QueueMap, moves: seq<Move>, n: string)
    requires ValidMoves(moves) && n in queues
    requires forall i :: 0 <= i < |moves| ==> LeavesAlone(moves[i], queues[n])
    ensures n in Run(queues, moves) && Run(queues, moves)[n] == queues[n]
    decreases |moves|
  {
    if moves != [] {
      var next := Next(moves[0].world, queues, moves[0].act);
      assert LeavesAlone(moves[0], queues[n]);
      ActKeepsOthers(moves[0].world, queues, moves[0].act);
      assert next[n] == queues[n];
      forall i | 0 <= i < |moves[1..]| ensures LeavesAlone(moves[1..][i], queues[n]) {
        assert moves[1..][i] == moves[i + 1];
      }
      ExternalQueuesUntouched(next, moves[1..], n);
    }
  }
}
