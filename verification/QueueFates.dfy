/** What one reconcile or deletion does to each queue there is, told by labels, owners and specs alone. */
module QueueFates {
  import opened Forest
  import opened Queues
  import opened Wrappers
  import D = DepartmentQueues
  import E = ExternalQueues

  // ------------------------------------------------ departments

  /** The names the entries of the turn reconcile. */
  ghost function Touched(w: D.World, queues: QueueMap, turn: D.Turn): set<string>
    requires D.ValidTurn(w, turn)
  {
    D.AfterEntries(w, queues, turn, |turn.generated|).reconciled
  }

  /** The queue is in both as it is, or in neither. */
  predicate SameAt(before: QueueMap, after: QueueMap, name: string) {
    (name in after <==> name in before) && (name in after ==> after[name] == before[name])
  }

  /** An entry changes the queue it reconciles and no other. */
  lemma EntryChangesOne(w: D.World, queues: QueueMap, turn: D.Turn, i: nat, name: string)
    requires D.ValidTurn(w, turn) && i < |turn.generated| && name != D.Reconciled(w, queues, turn, i).name
    ensures SameAt(queues, D.Reconciled(w, queues, turn, i).queues, name)
  {
  }

  lemma TouchedStep(w: D.World, queues: QueueMap, turn: D.Turn, i: nat, name: string, p: D.Progress, q: D.Progress)
    requires D.ValidTurn(w, turn) && i < |turn.generated| && q == D.Grown(p, D.Reconciled(w, p.queues, turn, i))
    requires name in p.reconciled || SameAt(queues, p.queues, name)
    ensures name in q.reconciled || SameAt(queues, q.queues, name)
  {
    if name !in q.reconciled {
      EntryChangesOne(w, p.queues, turn, i, name);
    }
  }

  lemma {:induction false} EntriesChangeTouched(w: D.World, queues: QueueMap, turn: D.Turn, n: nat, name: string)
    returns (p: D.Progress)
    requires D.ValidTurn(w, turn) && n <= |turn.generated|
    ensures p == D.AfterEntries(w, queues, turn, n) && (name in p.reconciled || SameAt(queues, p.queues, name))
    decreases n
  {
    if n == 0 {
      p := D.Progress(queues, {}, false);
    } else {
      var q := EntriesChangeTouched(w, queues, turn, n - 1, name);
      p := D.Grown(q, D.Reconciled(w, q.queues, turn, n - 1));
      TouchedStep(w, queues, turn, n - 1, name, q, p);
    }
  }

  /** A queue the turn did not reconcile is deleted exactly when it carries the department's label, a department
      owns it and, if there are external queues, this department does; otherwise it is left as it was. */
  lemma DepartmentPrunes(w: D.World, queues: QueueMap, turn: D.Turn, name: string)
    requires D.ValidTurn(w, turn) && name in queues && name !in Touched(w, queues, turn)
    ensures var after, labels, owners := D.Handled(w, queues, turn), queues[name].labels, queues[name].owners;
            && (name in after ==> after[name] == queues[name])
            && (name !in after <==>
                && w.settings.departmentKey in labels && labels[w.settings.departmentKey] == turn.department
                && (exists i :: 0 <= i < |owners| && owners[i].kind == "Department")
                && (w.settings.allowExternal ==>
                      exists i :: 0 <= i < |owners| && owners[i].uid == w.departments[turn.department].uid))
  {
    var p := EntriesChangeTouched(w, queues, turn, |turn.generated|, name);
  }

  /** What the turn reconciled is there afterwards. */
  lemma {:induction false} TouchedAreThere(w: D.World, queues: QueueMap, turn: D.Turn, n: nat, name: string)
    requires D.ValidTurn(w, turn) && n <= |turn.generated| && name in D.AfterEntries(w, queues, turn, n).reconciled
    ensures name in D.AfterEntries(w, queues, turn, n).queues
    decreases n
  {
    var p := D.AfterEntries(w, queues, turn, n - 1);
    if name in p.reconciled {
      TouchedAreThere(w, queues, turn, n - 1, name);
    }
  }

  lemma ReconciledQueuesStay(w: D.World, queues: QueueMap, turn: D.Turn, name: string)
    requires D.ValidTurn(w, turn) && name in Touched(w, queues, turn)
    ensures name in D.Handled(w, queues, turn)
  {
    TouchedAreThere(w, queues, turn, |turn.generated|, name);
  }

  /** An entry leaves a queue the department does not own as it is. */
  lemma EntrySparesOthers(w: D.World, queues: QueueMap, turn: D.Turn, i: nat, name: string, after: QueueMap)
    requires D.ValidTurn(w, turn) && i < |turn.generated| && name in queues
    requires !OwnedByUid(queues[name].owners, w.departments[turn.department].uid)
    requires after == D.Reconciled(w, queues, turn, i).queues
    ensures SameAt(queues, after, name)
  {
  }

  lemma {:induction false} EntriesSpareOthers(w: D.World, queues: QueueMap, turn: D.Turn, n: nat, name: string)
    returns (p: D.Progress)
    requires D.ValidTurn(w, turn) && n <= |turn.generated| && name in queues
    requires !OwnedByUid(queues[name].owners, w.departments[turn.department].uid)
    ensures p == D.AfterEntries(w, queues, turn, n) && SameAt(queues, p.queues, name)
    decreases n
  {
    if n == 0 {
      p := D.Progress(queues, {}, false);
    } else {
      var q := EntriesSpareOthers(w, queues, turn, n - 1, name);
      p := D.Grown(q, D.Reconciled(w, q.queues, turn, n - 1));
      EntrySparesOthers(w, q.queues, turn, n - 1, name, p.queues);
    }
  }

  /** A department never deletes or changes the queues of its projects: a queue that no department owns, and
      this one does not own by UID, stays as it was, whatever labels it carries. */
  lemma ProjectQueuesSurvive(w: D.World, queues: QueueMap, turn: D.Turn, name: string)
    requires D.ValidTurn(w, turn) && name in queues
    requires forall i :: 0 <= i < |queues[name].owners| ==>
               queues[name].owners[i].kind != "Department" &&
                   queues[name].owners[i].uid != w.departments[turn.department].uid
    ensures var after := D.Handled(w, queues, turn); name in after && after[name] == queues[name]
  {
    var p := EntriesSpareOthers(w, queues, turn, |turn.generated|, name);
  }

  /** The queue entry `i` reconciles: the one the department owns for the pool, else the generated name. */
  function EntryName(w: D.World, queues: QueueMap, turn: D.Turn, i: nat): string
    requires D.ValidTurn(w, turn) && i < |turn.generated|
  {
    var d := w.departments[turn.department];
    var owned := OwnedQueue(w.settings, queues, turn.order, d.queues[i].nodepool, d.uid);
    if owned != "" then owned else turn.generated[i]
  }

  /** Where entry `i` wants its queue. */
  function WantedParent(w: D.World, queues: QueueMap, turn: D.Turn, i: nat): string
    requires D.ValidTurn(w, turn) && i < |turn.generated|
  {
    var d := w.departments[turn.department];
    DepartmentQueue(w.settings, w.departments, queues, turn.order, d.parent, d.queues[i].nodepool)
  }

  /** The queue would have to move, and there it would be on a loop. */
  ghost predicate WouldLoop(w: D.World, queues: QueueMap, turn: D.Turn, i: nat)
    requires D.ValidTurn(w, turn) && i < |turn.generated|
  {
    var name, wanted := EntryName(w, queues, turn, i), WantedParent(w, queues, turn, i);
    var owned := OwnedQueue(w.settings, queues, turn.order, w.departments[turn.department].queues[i].nodepool,
                            w.departments[turn.department].uid) != "";
    && wanted != "" && !(owned && queues[name].spec.parentQueue == wanted)
    && OnLoop(Placement(queues)[name := wanted], name)
  }

  /** What an entry writes: labels, the one owner and every field of the spec; the parent is the wanted one, or
      none exactly when that would close a loop, and only then is the queue reported as held. A generated name
      that is taken is left to its holder. */
  lemma DepartmentEntryWrites(w: D.World, queues: QueueMap, turn: D.Turn, i: nat)
    requires D.ValidTurn(w, turn) && i < |turn.generated|
    ensures var o, name := D.Reconciled(w, queues, turn, i), EntryName(w, queues, turn, i);
            var d := w.departments[turn.department];
            && o.name == name && name in o.queues
            && (o.held <==> WouldLoop(w, queues, turn, i))
            && if name in queues && name != OwnedQueue(w.settings, queues, turn.order, d.queues[i].nodepool, d.uid)
               then o.queues == queues
               else
                 && Written(o.queues[name], w.settings, d.queues[i], turn.department)
                 && LabelledFor(o.queues[name].labels, w.settings, map[w.settings.departmentKey := turn.department],
                     d.queues[i])
                 && o.queues[name].owners == [OwnerRef("Department", turn.department, d.uid)]
                 && o.queues[name].spec.parentQueue
                    == if WouldLoop(w, queues, turn, i) then "" else WantedParent(w, queues, turn, i)
  {
    var name, wanted := EntryName(w, queues, turn, i), WantedParent(w, queues, turn, i);
    if wanted != "" {
      PlacementLoops(Placement(queues), name, wanted);
    }
  }

  /** Display name, resources and priority as configured, with nothing and one hundred for what is not. */
  predicate Written(queue: Queue, s: Settings, config: QueueConfig, displayName: string) {
    && queue.spec.displayName == displayName
    && (config.resources.Some? ==> queue.spec.resources == config.resources.value)
    && (config.resources.None? ==> queue.spec.resources == NO_RESOURCES)
    && queue.spec.priority == if config.priority.Some? then config.priority.value else 100
  }

  /** Exactly the given labels, and that of the pool unless it is the default one. */
  ghost predicate LabelledFor(labels: map<string, string>, s: Settings, own: map<string, string>, config: QueueConfig) {
    && (forall k :: k in labels <==> k in own || (config.nodepool != s.defaultPool && k == s.poolKey))
    && (forall k :: k in own && (config.nodepool == s.defaultPool || k != s.poolKey) ==> labels[k] == own[k])
    && (config.nodepool != s.defaultPool ==> labels[s.poolKey] == config.nodepool)
  }

  lemma EntryStep(w: D.World, turn: D.Turn, i: nat, p: D.Progress, q: D.Progress)
    requires D.ValidTurn(w, turn) && i < |turn.generated| && q == D.Grown(p, D.Reconciled(w, p.queues, turn, i))
    ensures q.held <==> p.held || WouldLoop(w, p.queues, turn, i)
    ensures q.reconciled == p.reconciled + {EntryName(w, p.queues, turn, i)}
  {
    DepartmentEntryWrites(w, p.queues, turn, i);
  }

  /** A turn starts with nothing held and nothing reconciled; each entry in turn adds its queue, and reports it
      as held exactly when it would close a loop. */
  lemma TurnReports(w: D.World, queues: QueueMap, turn: D.Turn, i: nat)
    requires D.ValidTurn(w, turn) && i < |turn.generated|
    ensures var p, q := D.AfterEntries(w, queues, turn, i), D.AfterEntries(w, queues, turn, i + 1);
            && (i == 0 ==> !p.held && p.reconciled == {} && p.queues == queues)
            && (q.held <==> p.held || WouldLoop(w, p.queues, turn, i))
            && q.reconciled == p.reconciled + {EntryName(w, p.queues, turn, i)}
            && q.queues == D.Reconciled(w, p.queues, turn, i).queues
  {
    EntryStep(w, turn, i, D.AfterEntries(w, queues, turn, i), D.AfterEntries(w, queues, turn, i + 1));
  }

  /** The queue of a department that something is to sit under: the one its spec names for the pool if it owns
      it, else one it owns for the pool if there is one, else none; none without an entry for the pool. */
  lemma DepartmentQueueIs(s: Settings, departments: DepartmentMap, queues: QueueMap, order: seq<string>, name: string,
                          pool: string)
    requires forall n :: n in queues ==> n in order
    ensures var r := DepartmentQueue(s, departments, queues, order, name, pool);
            && (name !in departments ==> r == "")
            && (name in departments ==>
                var d := departments[name];
                && ((forall i :: 0 <= i < |d.queues| ==> d.queues[i].nodepool != pool) ==> r == "")
                && (forall i :: IsFirstFor(d.queues, pool, i) ==>
                      var named := QueueName(s, d.queues[i], name);
                      if named in queues && OwnedByUid(queues[named].owners, d.uid) then r == named
                      else if r == "" then forall n :: n in queues ==> !OwnsFor(s, queues[n], pool, d.uid)
                      else r in queues && OwnsFor(s, queues[r], pool, d.uid)))
  {
    if name in departments {
      var d := departments[name];
      forall i | 0 <= i < |d.queues| && d.queues[i].nodepool == pool
        ensures EntryFor(d.queues, pool) <= i
      {
        EntryForIsFirst(d.queues, pool, i);
      }
      forall n | n in queues && OwnsFor(s, queues[n], pool, d.uid)
        ensures OwnedQueue(s, queues, order, pool, d.uid) != ""
      {
        OwnedQueueMissesNone(s, queues, order, pool, d.uid, n);
      }
    }
  }

  ghost predicate IsFirstFor(configs: seq<QueueConfig>, pool: string, i: int) {
    0 <= i < |configs| && configs[i].nodepool == pool && forall j :: 0 <= j < i ==> configs[j].nodepool != pool
  }

  predicate OwnsFor(s: Settings, queue: Queue, pool: string, uid: string) {
    InPool(s, queue, pool) && OwnedByUid(queue.owners, uid)
  }

  /** The name a spec gives to a queue. */
  lemma QueueNameIs(s: Settings, config: QueueConfig, owner: string)
    ensures var name := QueueName(s, config, owner);
            && (config.name != "" ==> name == config.name)
            && (config.name == "" && config.nodepool == s.defaultPool ==> name == owner)
            && (config.name == "" && config.nodepool != s.defaultPool ==> name == owner + "-" + config.nodepool)
  {
  }

  // ------------------------------------------------ projects

  ghost function ProjectTouched(w: E.World, queues: QueueMap, turn: E.Turn): set<string>
    requires E.ValidTurn(w, turn)
  {
    E.AfterEntries(w, queues, turn, |turn.generated|).reconciled
  }

  lemma ProjectStep(w: E.World, queues: QueueMap, turn: E.Turn, i: nat, name: string, p: E.Progress, q: E.Progress)
    requires E.ValidTurn(w, turn) && i < |turn.generated| && q == E.Reconciled(w, p, turn, i)
    requires name in p.reconciled || SameAt(queues, p.queues, name)
    ensures name in q.reconciled || SameAt(queues, q.queues, name)
  {
  }

  lemma {:induction false} ProjectChangesTouched(w: E.World, queues: QueueMap, turn: E.Turn, n: nat, name: string)
    returns (p: E.Progress)
    requires E.ValidTurn(w, turn) && n <= |turn.generated|
    ensures p == E.AfterEntries(w, queues, turn, n) && (name in p.reconciled || SameAt(queues, p.queues, name))
    decreases n
  {
    if n == 0 {
      p := E.Progress(queues, {});
    } else {
      var q := ProjectChangesTouched(w, queues, turn, n - 1, name);
      p := E.Reconciled(w, q, turn, n - 1);
      ProjectStep(w, queues, turn, n - 1, name, q, p);
    }
  }

  /** The same for a project: a queue the turn did not reconcile is deleted exactly when it carries the project's
      label, a project owns it and, if there are external queues, this project does. */
  lemma ProjectPrunes(w: E.World, queues: QueueMap, turn: E.Turn, name: string)
    requires E.ValidTurn(w, turn) && name in queues && name !in ProjectTouched(w, queues, turn)
    ensures var after, labels, owners := E.Handled(w, queues, turn), queues[name].labels, queues[name].owners;
            && (name in after ==> after[name] == queues[name])
            && (name !in after <==>
                && w.settings.projectKey in labels && labels[w.settings.projectKey] == turn.project
                && (exists i :: 0 <= i < |owners| && owners[i].kind == "Project")
                && (w.settings.allowExternal ==>
                      exists i :: 0 <= i < |owners| && owners[i].uid == w.projects[turn.project].uid))
  {
    var p := ProjectChangesTouched(w, queues, turn, |turn.generated|, name);
  }

  /** The listed queue is the project's for the pool, by its labels and owners. */
  ghost predicate IsProjects(s: Settings, queue: Queue, project: string, uid: string, pool: string) {
    && s.projectKey in queue.labels && queue.labels[s.projectKey] == project
    && (if pool == s.defaultPool then s.poolKey !in queue.labels
        else s.poolKey in queue.labels && queue.labels[s.poolKey] == pool)
    && (exists i :: 0 <= i < |queue.owners| && queue.owners[i].kind == "Project")
    && (s.allowExternal ==> exists i :: 0 <= i < |queue.owners| && queue.owners[i].uid == uid)
  }

  /** The queue listed at `i` is the project's for the pool, and none listed before is. */
  ghost predicate FirstAt(s: Settings, queues: QueueMap, order: seq<string>, project: string, uid: string, pool: string,
                          i: int)
  {
    && 0 <= i < |order| && order[i] in queues && IsProjects(s, queues[order[i]], project, uid, pool)
    && NoneBefore(s, queues, order, project, uid, pool, i)
  }

  ghost predicate NoneBefore(s: Settings, queues: QueueMap, order: seq<string>, project: string, uid: string,
                             pool: string, i: int)
    requires i <= |order|
  {
    forall j :: 0 <= j < i && order[j] in queues ==> !IsProjects(s, queues[order[j]], project, uid, pool)
  }

  lemma OnePlaceOn(s: Settings, queues: QueueMap, order: seq<string>, project: string, uid: string, pool: string,
                   i: nat)
    requires order != [] && i <= |order| - 1 && NoneBefore(s, queues, order[1..], project, uid, pool, i)
    requires order[0] !in queues || !IsProjects(s, queues[order[0]], project, uid, pool)
    ensures NoneBefore(s, queues, order, project, uid, pool, i + 1)
  {
    forall j | 0 <= j < i + 1 && order[j] in queues ensures !IsProjects(s, queues[order[j]], project, uid, pool) {
      assert j > 0 ==> order[j] == order[1..][j - 1];
    }
  }

  /** The search by label finds the first listed queue that is the project's for the pool, if there is one. */
  lemma {:induction false} ByLabelsIsFirst(s: Settings, queues: QueueMap, order: seq<string>, project: string,
                                           uid: string, pool: string)
    ensures var r := E.QueueByLabels(s, queues, order, project, uid, pool);
            if r == "" then NoneBefore(s, queues, order, project, uid, pool, |order|)
            else exists i :: FirstAt(s, queues, order, project, uid, pool, i) && order[i] == r
    decreases |order|
  {
    if order != [] {
      var rest, r := order[1..], E.QueueByLabels(s, queues, order[1..], project, uid, pool);
      ByLabelsIsFirst(s, queues, rest, project, uid, pool);
      if order[0] in queues && IsProjects(s, queues[order[0]], project, uid, pool) {
        assert FirstAt(s, queues, order, project, uid, pool, 0);
      } else if r != "" {
        var i :| FirstAt(s, queues, rest, project, uid, pool, i) && rest[i] == r;
        OnePlaceOn(s, queues, order, project, uid, pool, i);
        assert FirstAt(s, queues, order, project, uid, pool, i + 1);
      } else {
        OnePlaceOn(s, queues, order, project, uid, pool, |rest|);
      }
    }
  }

  /** A queue under the suggested name may be taken over unless it is external, or some department or project
      owns it and it is not this project's by owner kind and label. */
  lemma TakenIff(s: Settings, queues: QueueMap, project: string, name: string, uid: string)
    requires name in queues && project != ""
    ensures var queue := queues[name];
            E.Taken(s, queues, "", project, name, uid) <==>
            || (s.allowExternal && forall i :: 0 <= i < |queue.owners| ==> queue.owners[i].uid != uid)
            || (&& (exists i :: 0 <= i < |queue.owners| && queue.owners[i].kind in {"Department", "Project"})
                && !(&& (exists i :: 0 <= i < |queue.owners| && queue.owners[i].kind == "Project")
                     && s.projectKey in queue.labels && queue.labels[s.projectKey] == project))
  {
  }

  /** The queue a project has for an entry: the one found by label, else the one under the suggested name if it may
      be taken over. */
  lemma ExistingQueueIs(s: Settings, queues: QueueMap, order: seq<string>, project: string, uid: string,
                        config: QueueConfig)
    ensures var r, byLabel := E.ExistingQueue(s, queues, order, project, uid, config),
                              E.QueueByLabels(s, queues, order, project, uid, config.nodepool);
            var suggested := QueueName(s, config, project);
            && (byLabel != "" ==> r == byLabel)
            && (byLabel == "" && suggested in queues && !E.Taken(s, queues, "", project, suggested, uid) ==>
                r == suggested)
            && (byLabel == "" && (suggested !in queues || E.Taken(s, queues, "", project, suggested, uid)) ==> r == "")
  {
  }

  /** What an entry of a project writes: its labels, its one owner and the whole spec, under the queue of the
      project's department for the pool. A queue taken over by hand, and a generated name that is taken, are
      left as they are. */
  lemma ProjectEntryWrites(w: E.World, p: E.Progress, turn: E.Turn, i: nat)
    requires E.ValidTurn(w, turn) && i < |turn.generated|
    ensures var s, project := w.settings, w.projects[turn.project];
            var config, q := project.queues[i], E.Reconciled(w, p, turn, i);
            var existing := E.ExistingQueue(s, p.queues, turn.order, turn.project, project.uid, config);
            var name := if existing != "" then existing else turn.generated[i];
            && q.reconciled == p.reconciled + {name}
            && (forall n :: n != name ==> SameAt(p.queues, q.queues, n))
            && if existing == "" && name in p.queues then q.queues == p.queues
               else if existing != "" && E.Overridden(s, p.queues[existing]) then q.queues == p.queues
               else
                 && name in q.queues && Written(q.queues[name], s, config, name)
                 && LabelledFor(q.queues[name].labels, s, ProjectLabels(s, turn.project, project), config)
                 && q.queues[name].owners == [OwnerRef("Project", turn.project, project.uid)]
                 && q.queues[name].spec.parentQueue
                    == DepartmentQueue(s, w.departments, p.queues, turn.order, project.parent, config.nodepool)
  {
  }

  function ProjectLabels(s: Settings, name: string, project: E.Project): map<string, string> {
    map[s.projectKey := name, s.projectIdKey := project.uid, s.departmentKey := project.parent]
  }

  /** Taken over by hand means labelled "true", in any case of letters. */
  lemma OverriddenIff(s: Settings, queue: Queue)
    ensures E.Overridden(s, queue) <==>
            && s.overrideKey in queue.labels
            && var v := queue.labels[s.overrideKey];
               |v| == 4 && v[0] in {'t', 'T'} && v[1] in {'r', 'R'} && v[2] in {'u', 'U'} && v[3] in {'e', 'E'}
  {
    if s.overrideKey in queue.labels {
      var v := queue.labels[s.overrideKey];
      var lower := E.LowerCase(v);
      assert lower == "true" <==> |v| == 4 && lower[0] == 't' && lower[1] == 'r' && lower[2] == 'u' && lower[3] == 'e';
    }
  }

  /** Deleting a project takes down exactly the queues with its label that are not external and were not taken
      over by hand; all others stay as they were. */
  lemma ProjectDeletionIs(w: E.World, queues: QueueMap, project: string, name: string)
    requires project in w.projects && name in queues
    ensures var after, labels, owners := E.WithoutProject(w, queues, project), queues[name].labels, queues[name].owners;
            && (name in after ==> after[name] == queues[name])
            && (name !in after <==>
                && w.settings.projectKey in labels && labels[w.settings.projectKey] == project
                && (w.settings.allowExternal ==>
                      exists i :: 0 <= i < |owners| && owners[i].uid == w.projects[project].uid)
                && !E.Overridden(w.settings, queues[name]))
  {
  }

  lemma ProjectStepSparesDepartments(w: E.World, q: E.Progress, turn: E.Turn, i: nat, name: string)
    requires E.ValidTurn(w, turn) && i < |turn.generated| && name in q.queues && turn.project != ""
    requires OwnedByKind(q.queues[name].owners, DEPARTMENT_KIND) && !OwnedByKind(q.queues[name].owners, PROJECT_KIND)
    ensures SameAt(q.queues, E.Reconciled(w, q, turn, i).queues, name)
  {
    var project := w.projects[turn.project];
    ByLabelsIsFirst(w.settings, q.queues, turn.order, turn.project, project.uid, project.queues[i].nodepool);
    ProjectEntryWrites(w, q, turn, i);
  }

  lemma {:induction false} ProjectSparesDepartments(w: E.World, queues: QueueMap, turn: E.Turn, n: nat, name: string)
    returns (p: E.Progress)
    requires E.ValidTurn(w, turn) && n <= |turn.generated| && name in queues && turn.project != ""
    requires OwnedByKind(queues[name].owners, DEPARTMENT_KIND) && !OwnedByKind(queues[name].owners, PROJECT_KIND)
    ensures p == E.AfterEntries(w, queues, turn, n) && SameAt(queues, p.queues, name)
    decreases n
  {
    if n == 0 {
      p := E.Progress(queues, {});
    } else {
      var q := ProjectSparesDepartments(w, queues, turn, n - 1, name);
      p := E.Reconciled(w, q, turn, n - 1);
      ProjectStepSparesDepartments(w, q, turn, n - 1, name);
    }
  }

  /** And a project never touches the queues of departments, whatever labels they carry. */
  lemma DepartmentQueuesSurvive(w: E.World, queues: QueueMap, turn: E.Turn, name: string)
    requires E.ValidTurn(w, turn) && name in queues && turn.project != ""
    requires OwnedByKind(queues[name].owners, DEPARTMENT_KIND) && !OwnedByKind(queues[name].owners, PROJECT_KIND)
    ensures var after := E.Handled(w, queues, turn); name in after && after[name] == queues[name]
  {
    var p := ProjectSparesDepartments(w, queues, turn, |turn.generated|, name);
  }
}
