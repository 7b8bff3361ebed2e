/** Full passes of department reconciles bring the queue trees to the shape of the department
    tree, from any starting parents and in any order within a pass. */
module QueueConvergence {
  import opened Forest
  import opened Hierarchy
  import opened Queues
  import opened DepartmentQueues

  function DepartmentTree(w: World): (t: Parents)
    ensures t.Keys == w.departments.Keys
  {
    map d | d in w.departments :: w.departments[d].parent
  }

  /** Entry `i` of department `d` exists. */
  predicate HasEntry(w: World, d: string, i: nat) {
    d in w.departments && i < |w.departments[d].queues|
  }

  function Config(w: World, d: string, i: nat): QueueConfig
    requires HasEntry(w, d, i)
  {
    w.departments[d].queues[i]
  }

  function SpecName(w: World, d: string, i: nat): (name: string)
    requires HasEntry(w, d, i)
    ensures name != ""
  {
    QueueName(w.settings, Config(w, d, i), d)
  }

  /** Departments are told apart by UID, one entry per node pool, one queue name per entry. */
  ghost predicate Tidy(w: World) {
    && w.settings.departmentKey != w.settings.poolKey
    && (forall d, i: nat, e, j: nat {:trigger Apart(w, d, i, e, j)} ::
          HasEntry(w, d, i) && HasEntry(w, e, j) ==> Apart(w, d, i, e, j))
  }

  /** Two entries that share their queue name, or their owner and pool, are the same entry. */
  predicate Apart(w: World, d: string, i: nat, e: string, j: nat)
    requires HasEntry(w, d, i) && HasEntry(w, e, j)
  {
    && (SpecName(w, d, i) == SpecName(w, e, j) ==> d == e && i == j)
    && (w.departments[d].uid == w.departments[e].uid ==> d == e)
    && (d == e && Config(w, d, i).nodepool == Config(w, e, j).nodepool ==> i == j)
  }

  /** The queue named by entry `i` of `d` exists and is the department's for that pool. */
  predicate OwnsEntry(w: World, queues: QueueMap, d: string, i: nat)
    requires HasEntry(w, d, i)
  {
    var n := SpecName(w, d, i);
    && n in queues
    && OwnedByUid(queues[n].owners, w.departments[d].uid)
    && InPool(w.settings, queues[n], Config(w, d, i).nodepool)
    && NotAnothers(w, queues[n], d)
  }

  /** The queue does not carry the label of a department other than `d`, which would prune it. */
  predicate NotAnothers(w: World, queue: Queue, d: string) {
    var key := w.settings.departmentKey;
    key in queue.labels && queue.labels[key] in w.departments ==> queue.labels[key] == d
  }

  /** `n` is no second queue of `d` for the pool of entry `i`. */
  predicate NoSecond(w: World, queues: QueueMap, d: string, i: nat, n: string)
    requires HasEntry(w, d, i)
  {
    n in queues && OwnedByUid(queues[n].owners, w.departments[d].uid) &&
        InPool(w.settings, queues[n], Config(w, d, i).nodepool)
    ==> n == SpecName(w, d, i)
  }

  /** Each department owns exactly one queue per pool of its spec, under the name its spec gives.
      Nothing is said about where the queues sit, nor about anyone else's queues. */
  ghost predicate OneQueueEach(w: World, queues: QueueMap) {
    && (forall d, i: nat {:trigger OwnsEntry(w, queues, d, i)} :: HasEntry(w, d, i) ==> OwnsEntry(w, queues, d, i))
    && (forall d, i: nat, n :: HasEntry(w, d, i) ==> NoSecond(w, queues, d, i, n))
  }

  /** Where entry `i` of `d` belongs: its parent department's queue for the same pool, else the root. */
  function Target(w: World, d: string, i: nat): string
    requires HasEntry(w, d, i)
  {
    var up := w.departments[d].parent;
    if up !in w.departments then ""
    else
      var j := EntryFor(w.departments[up].queues, Config(w, d, i).nodepool);
      if HasEntry(w, up, j) then SpecName(w, up, j) else ""
  }

  function Wanted(w: World, d: string, i: nat): Queue
    requires HasEntry(w, d, i)
  {
    Expected(w.settings, d, w.departments[d].uid, Config(w, d, i), Target(w, d, i))
  }

  /** The queue of entry `i` of `d` is exactly as wanted, its parent included. */
  predicate Placed(w: World, queues: QueueMap, d: string, i: nat)
    requires HasEntry(w, d, i)
  {
    SpecName(w, d, i) in queues && queues[SpecName(w, d, i)] == Wanted(w, d, i)
  }

  ghost predicate DepartmentPlaced(w: World, queues: QueueMap, d: string) {
    forall i: nat {:trigger Placed(w, queues, d, i)} :: HasEntry(w, d, i) ==> Placed(w, queues, d, i)
  }

  /** Every department of level at most `k` has all its queues in place. */
  ghost predicate PlacedTo(w: World, queues: QueueMap, k: nat) {
    forall d {:trigger DepartmentPlaced(w, queues, d)} ::
      d in w.departments && LevelWithin(DepartmentTree(w), d, k) ==> DepartmentPlaced(w, queues, d)
  }

  /** The listing order shows every queue there is. */
  ghost predicate Lists(order: seq<string>, queues: QueueMap) {
    forall n :: n in queues ==> n in order
  }

  // ------------------------------------------------ one entry

  lemma FindsItsQueue(w: World, queues: QueueMap, order: seq<string>, d: string, i: nat)
    requires OneQueueEach(w, queues) && Lists(order, queues) && HasEntry(w, d, i)
    ensures OwnedQueue(w.settings, queues, order, Config(w, d, i).nodepool, w.departments[d].uid) == SpecName(w, d, i)
  {
    var n := OwnedQueue(w.settings, queues, order, Config(w, d, i).nodepool, w.departments[d].uid);
    assert OwnsEntry(w, queues, d, i);
    OwnedQueueMissesNone(w.settings, queues, order, Config(w, d, i).nodepool, w.departments[d].uid, SpecName(w, d, i));
    assert NoSecond(w, queues, d, i, n);
  }

  lemma FindsItsParent(w: World, queues: QueueMap, order: seq<string>, d: string, i: nat)
    requires OneQueueEach(w, queues) && HasEntry(w, d, i)
    ensures DepartmentQueue(w.settings, w.departments, queues, order, w.departments[d].parent, Config(w, d, i).nodepool)
            == Target(w, d, i)
  {
    var up := w.departments[d].parent;
    if up in w.departments {
      var j := EntryFor(w.departments[up].queues, Config(w, d, i).nodepool);
      if HasEntry(w, up, j) {
        assert OwnsEntry(w, queues, up, j);
      }
    }
  }

  /** The parent entry `i` gets when reconciled now. */
  ghost function ParentNow(w: World, queues: QueueMap, d: string, i: nat): string
    requires HasEntry(w, d, i) && SpecName(w, d, i) in queues
  {
    PlacedParent(queues, SpecName(w, d, i), queues[SpecName(w, d, i)].spec.parentQueue, Target(w, d, i))
  }

  /** Under the premises a reconcile of one entry rewrites that entry's queue and nothing else. */
  lemma EntryRewritten(w: World, queues: QueueMap, turn: Turn, i: nat)
    requires ValidTurn(w, turn) && i < |turn.generated| && OneQueueEach(w, queues) && Lists(turn.order, queues)
    ensures var d := turn.department;
            && OwnsEntry(w, queues, d, i)
            && Reconciled(w, queues, turn, i) == Outcome(
                 queues[SpecName(w, d, i) := Expected(w.settings, d, w.departments[d].uid, Config(w, d, i),
                     ParentNow(w, queues, d, i))],
                 SpecName(w, d, i),
                 ParentNow(w, queues, d, i) != Target(w, d, i))
  {
    var d := turn.department;
    assert HasEntry(w, d, i);
    assert OwnsEntry(w, queues, d, i);
    FindsItsQueue(w, queues, turn.order, d, i);
    FindsItsParent(w, queues, turn.order, d, i);
  }

  lemma ExpectedIsOwn(w: World, d: string, i: nat, parent: string)
    requires Tidy(w) && HasEntry(w, d, i)
    ensures var q := Expected(w.settings, d, w.departments[d].uid, Config(w, d, i), parent);
            && HasLabel(q, w.settings.departmentKey, d)
            && (forall uid :: OwnedByUid(q.owners, uid) <==> uid == w.departments[d].uid)
            && (forall pool :: InPool(w.settings, q, pool) <==> pool == Config(w, d, i).nodepool)
  {
    var q := Expected(w.settings, d, w.departments[d].uid, Config(w, d, i), parent);
    assert q.owners[0].uid == w.departments[d].uid;
  }

  lemma RewriteKeepsOneEach(w: World, queues: QueueMap, d: string, i: nat, parent: string)
    requires Tidy(w) && OneQueueEach(w, queues) && HasEntry(w, d, i)
    ensures OneQueueEach(w, queues[SpecName(w, d, i) :=
            Expected(w.settings, d, w.departments[d].uid, Config(w, d, i), parent)])
  {
    var q := Expected(w.settings, d, w.departments[d].uid, Config(w, d, i), parent);
    var n := SpecName(w, d, i);
    var after: QueueMap := queues[n := q];
    ExpectedIsOwn(w, d, i, parent);
    forall e, j: nat | HasEntry(w, e, j) ensures OwnsEntry(w, after, e, j) {
      assert OwnsEntry(w, queues, e, j);
      assert Apart(w, d, i, e, j);
    }
    forall e, j: nat, m | HasEntry(w, e, j) ensures NoSecond(w, after, e, j, m) {
      assert NoSecond(w, queues, e, j, m);
      assert Apart(w, d, i, e, j);
    }
  }

  // ------------------------------------------------ why nothing at the next level is held

  /** Above a placed queue there are only queues of departments at or above its own. */
  lemma {:induction false} OnlyQueuesAbove(w: World, queues: QueueMap, e: string, j: nat, k: nat, m: nat)
    returns (f: string, l: nat)
    requires PlacedTo(w, queues, k) && HasEntry(w, e, j) && LevelWithin(DepartmentTree(w), e, k)
    ensures var x := Walk(Placement(queues), SpecName(w, e, j), m);
            x == "" || (HasEntry(w, f, l) && x == SpecName(w, f, l) && AtOrAbove(DepartmentTree(w), f, e))
    decreases m
  {
    f, l := e, j;
    var t := DepartmentTree(w);
    assert Walk(t, e, 0) == e;
    if m > 0 {
      assert DepartmentPlaced(w, queues, e);
      assert Placed(w, queues, e, j);
      var next := Target(w, e, j);
      if next == "" {
        WalkFromNowhere(Placement(queues), m - 1);
      } else {
        var up := t[e];
        var i := EntryFor(w.departments[up].queues, Config(w, e, j).nodepool);
        assert k > 0;
        assert LevelWithin(t, up, k - 1);
        LeftForGood(t, up, k - 1, k);
        f, l := OnlyQueuesAbove(w, queues, up, i, k, m - 1);
        if AtOrAbove(t, f, up) {
          var n: nat :| Walk(t, up, n) == f;
          assert Walk(t, e, n + 1) == f;
        }
      }
    }
  }

  /** With all levels up to `k` in place, a queue of level `k + 1` is not held as a root. */
  lemma NotHeld(w: World, queues: QueueMap, d: string, i: nat, k: nat)
    requires Tidy(w) && OneQueueEach(w, queues) && PlacedTo(w, queues, k)
    requires HasEntry(w, d, i) && LevelWithin(DepartmentTree(w), d, k + 1)
    ensures SpecName(w, d, i) in queues && ParentNow(w, queues, d, i) == Target(w, d, i)
  {
    var t := DepartmentTree(w);
    var n := SpecName(w, d, i);
    var wanted := Target(w, d, i);
    assert OwnsEntry(w, queues, d, i);
    if wanted != "" && AtOrAbove(Placement(queues), n, wanted) {
      var m: nat :| Walk(Placement(queues), wanted, m) == n;
      var up := w.departments[d].parent;
      var j := EntryFor(w.departments[up].queues, Config(w, d, i).nodepool);
      assert LevelWithin(t, up, k);
      var f, l := OnlyQueuesAbove(w, queues, up, j, k, m);
      assert Apart(w, f, l, d, i);
      var a: nat :| Walk(t, up, a) == d;
      assert Walk(t, d, a + 1) == d;
      LoopNeverEnds(t, d, k + 1);
    }
  }

  // ------------------------------------------------ one reconcile

  ghost predicate SamePlaced(w: World, before: QueueMap, after: QueueMap) {
    forall e, j: nat {:trigger Placed(w, after, e, j)} ::
      HasEntry(w, e, j) && Placed(w, before, e, j) ==> Placed(w, after, e, j)
  }

  lemma RewriteKeepsPlaced(w: World, queues: QueueMap, d: string, i: nat)
    requires Tidy(w) && HasEntry(w, d, i) && SpecName(w, d, i) in queues
    ensures SamePlaced(w, queues, queues[SpecName(w, d, i) :=
            Expected(w.settings, d, w.departments[d].uid, Config(w, d, i), ParentNow(w, queues, d, i))])
  {
    forall e, j: nat | HasEntry(w, e, j) ensures Apart(w, d, i, e, j) {
    }
  }

  /** The queue names of the first `n` entries of `d`. */
  function SpecNames(w: World, d: string, n: nat): (names: set<string>)
    requires d in w.departments && n <= |w.departments[d].queues|
    ensures forall i: nat :: i < n ==> SpecName(w, d, i) in names
  {
    if n == 0 then {} else SpecNames(w, d, n - 1) + {SpecName(w, d, n - 1)}
  }

  /** What a partial reconcile has achieved: the premises hold, nothing placed was disturbed, and if
      the department's level allows it, its first `n` entries are in place. */
  ghost predicate Achieved(w: World, queues: QueueMap, turn: Turn, n: nat, k: nat, p: Progress)
    requires ValidTurn(w, turn) && n <= |turn.generated|
  {
    && OneQueueEach(w, p.queues) && p.queues.Keys == queues.Keys
    && SamePlaced(w, queues, p.queues)
    && p.reconciled == SpecNames(w, turn.department, n)
    && (LevelWithin(DepartmentTree(w), turn.department, k + 1) ==>
        !p.held && FirstPlaced(w, p.queues, turn.department, n))
  }

  ghost predicate FirstPlaced(w: World, queues: QueueMap, d: string, n: nat) {
    forall i: nat {:trigger Placed(w, queues, d, i)} :: i < n && HasEntry(w, d, i) ==> Placed(w, queues, d, i)
  }

  /** What reconciling one entry achieves. */
  ghost predicate EntryFacts(w: World, queues: QueueMap, turn: Turn, i: nat, k: nat, o: Outcome)
    requires ValidTurn(w, turn) && i < |turn.generated|
  {
    && OneQueueEach(w, o.queues) && o.queues.Keys == queues.Keys && o.name == SpecName(w, turn.department, i)
    && SamePlaced(w, queues, o.queues)
    && (LevelWithin(DepartmentTree(w), turn.department, k + 1) ==> !o.held && Placed(w, o.queues, turn.department, i))
  }

  lemma {:induction false} EntriesPlaced(w: World, queues: QueueMap, turn: Turn, n: nat, k: nat) returns (p: Progress)
    requires Tidy(w) && OneQueueEach(w, queues) && PlacedTo(w, queues, k)
    requires ValidTurn(w, turn) && Lists(turn.order, queues) && n <= |turn.generated|
    ensures p == AfterEntries(w, queues, turn, n) && Achieved(w, queues, turn, n, k, p)
    decreases n
  {
    if n == 0 {
      p := Progress(queues, {}, false);
      NothingYet(w, queues, turn, k);
    } else {
      var q := EntriesPlaced(w, queues, turn, n - 1, k);
      p := Grown(q, Reconciled(w, q.queues, turn, n - 1));
      NextEntryPlaced(w, queues, turn, n - 1, k, q, p);
    }
  }

  lemma NothingYet(w: World, queues: QueueMap, turn: Turn, k: nat)
    requires OneQueueEach(w, queues) && ValidTurn(w, turn)
    ensures Achieved(w, queues, turn, 0, k, Progress(queues, {}, false))
  {
  }

  lemma NextEntryPlaced(w: World, queues: QueueMap, turn: Turn, i: nat, k: nat, p: Progress, q: Progress)
    requires Tidy(w) && PlacedTo(w, queues, k)
    requires ValidTurn(w, turn) && Lists(turn.order, queues) && i < |turn.generated|
    requires Achieved(w, queues, turn, i, k, p) && q == Grown(p, Reconciled(w, p.queues, turn, i))
    ensures Achieved(w, queues, turn, i + 1, k, q)
  {
    PlacedToCarries(w, queues, p.queues, k);
    EntryPlaced(w, p.queues, turn, i, k);
    OneMoreAchieved(w, queues, turn, i, k, p, Reconciled(w, p.queues, turn, i));
  }

  lemma OneMoreAchieved(w: World, queues: QueueMap, turn: Turn, i: nat, k: nat, p: Progress, o: Outcome)
    requires ValidTurn(w, turn) && i < |turn.generated|
    requires Achieved(w, queues, turn, i, k, p) && EntryFacts(w, p.queues, turn, i, k, o)
    ensures Achieved(w, queues, turn, i + 1, k, Grown(p, o))
  {
    SamePlacedTransitive(w, queues, p.queues, o.queues);
  }

  lemma EntryPlaced(w: World, queues: QueueMap, turn: Turn, i: nat, k: nat)
    requires Tidy(w) && OneQueueEach(w, queues) && PlacedTo(w, queues, k)
    requires ValidTurn(w, turn) && Lists(turn.order, queues) && i < |turn.generated|
    ensures EntryFacts(w, queues, turn, i, k, Reconciled(w, queues, turn, i))
  {
    var d := turn.department;
    EntryRewritten(w, queues, turn, i);
    RewriteKeepsOneEach(w, queues, d, i, ParentNow(w, queues, d, i));
    RewriteKeepsPlaced(w, queues, d, i);
    if LevelWithin(DepartmentTree(w), d, k + 1) {
      NotHeld(w, queues, d, i, k);
    }
  }

  lemma SamePlacedTransitive(w: World, a: QueueMap, b: QueueMap, c: QueueMap)
    requires SamePlaced(w, a, b) && SamePlaced(w, b, c)
    ensures SamePlaced(w, a, c)
  {
    forall e, j: nat | HasEntry(w, e, j) && Placed(w, a, e, j) ensures Placed(w, c, e, j) {
      assert Placed(w, b, e, j);
    }
  }

  lemma PlacedToCarries(w: World, before: QueueMap, after: QueueMap, k: nat)
    requires SamePlaced(w, before, after) && PlacedTo(w, before, k)
    ensures PlacedTo(w, after, k)
  {
    forall d | d in w.departments && LevelWithin(DepartmentTree(w), d, k) ensures DepartmentPlaced(w, after, d) {
      assert DepartmentPlaced(w, before, d);
    }
  }

  /** Nothing of `d` is left over to prune. */
  ghost predicate NoLeftovers(w: World, queues: QueueMap, d: string)
    requires d in w.departments
  {
    forall n :: n in queues ==>
      !Unnecessary(w.settings, queues[n], n, SpecNames(w, d, |w.departments[d].queues|),
                   w.departments[d].uid, w.settings.departmentKey, d, DEPARTMENT_KIND)
  }

  /** Pruning leaves every queue named by a spec alone. */
  lemma PruneSparesSpecQueues(w: World, queues: QueueMap, turn: Turn, p: Progress, e: string, j: nat)
    requires ValidTurn(w, turn) && OneQueueEach(w, p.queues) && HasEntry(w, e, j)
    requires p.reconciled == SpecNames(w, turn.department, |turn.generated|)
    requires p == AfterEntries(w, queues, turn, |turn.generated|)
    ensures var after := Handled(w, queues, turn);
            SpecName(w, e, j) in after && after[SpecName(w, e, j)] == p.queues[SpecName(w, e, j)]
  {
    assert OwnsEntry(w, p.queues, e, j);
    if e == turn.department {
      assert SpecName(w, e, j) in p.reconciled;
    }
  }

  lemma PruneKeepsOneEach(w: World, before: QueueMap, after: QueueMap)
    requires OneQueueEach(w, before)
    requires forall n :: n in after ==> n in before && after[n] == before[n]
    requires forall e, j: nat :: HasEntry(w, e, j) ==> SpecName(w, e, j) in after
    ensures OneQueueEach(w, after) && SamePlaced(w, before, after)
  {
    forall e, j: nat | HasEntry(w, e, j) ensures OwnsEntry(w, after, e, j) {
      assert OwnsEntry(w, before, e, j);
    }
    forall e, j: nat, m | HasEntry(w, e, j) ensures NoSecond(w, after, e, j, m) {
      assert NoSecond(w, before, e, j, m);
    }
  }

  /** One reconcile keeps the premises and everything in place, and finishes its department if all
      lower levels are finished. */
  lemma HandlePlaces(w: World, queues: QueueMap, turn: Turn, k: nat)
    requires Tidy(w) && OneQueueEach(w, queues) && PlacedTo(w, queues, k)
    requires ValidTurn(w, turn) && Lists(turn.order, queues)
    ensures var after := Handled(w, queues, turn);
            && OneQueueEach(w, after) && after.Keys <= queues.Keys && SamePlaced(w, queues, after)
            && NoLeftovers(w, after, turn.department)
            && (LevelWithin(DepartmentTree(w), turn.department, k + 1) ==>
                  DepartmentPlaced(w, after, turn.department) && !HeldBack(w, queues, turn))
  {
    var d := turn.department;
    var p := EntriesPlaced(w, queues, turn, |turn.generated|, k);
    var after := Handled(w, queues, turn);
    forall e, j: nat | HasEntry(w, e, j) ensures SpecName(w, e, j) in after {
      PruneSparesSpecQueues(w, queues, turn, p, e, j);
    }
    PruneKeepsOneEach(w, p.queues, after);
    SamePlacedTransitive(w, queues, p.queues, after);
    if LevelWithin(DepartmentTree(w), d, k + 1) {
      assert forall i: nat :: HasEntry(w, d, i) ==> Placed(w, p.queues, d, i);
    }
  }

  lemma NoLeftoversCarries(w: World, queues: QueueMap, turn: Turn, e: string)
    requires Tidy(w) && OneQueueEach(w, queues) && PlacedTo(w, queues, 0)
    requires ValidTurn(w, turn) && Lists(turn.order, queues) && e in w.departments
    requires NoLeftovers(w, queues, e)
    ensures NoLeftovers(w, Handled(w, queues, turn), e)
  {
    if e == turn.department {
      HandlePlaces(w, queues, turn, 0);
    } else {
      var _ := EntriesKeepNoLeftovers(w, queues, turn, |turn.generated|, e);
    }
  }

  lemma {:induction false} EntriesKeepNoLeftovers(w: World, queues: QueueMap, turn: Turn, n: nat, e: string)
    returns (p: Progress)
    requires Tidy(w) && OneQueueEach(w, queues)
    requires ValidTurn(w, turn) && Lists(turn.order, queues) && e in w.departments && e != turn.department
    requires NoLeftovers(w, queues, e) && n <= |turn.generated|
    ensures p == AfterEntries(w, queues, turn, n)
    ensures NoLeftovers(w, p.queues, e) && OneQueueEach(w, p.queues) && Lists(turn.order, p.queues)
    decreases n
  {
    if n == 0 {
      p := Progress(queues, {}, false);
    } else {
      var q := EntriesKeepNoLeftovers(w, queues, turn, n - 1, e);
      p := Grown(q, Reconciled(w, q.queues, turn, n - 1));
      EntryKeepsNoLeftovers(w, q.queues, turn, n - 1, e, p.queues);
    }
  }

  lemma EntryKeepsNoLeftovers(w: World, queues: QueueMap, turn: Turn, i: nat, e: string, after: QueueMap)
    requires Tidy(w) && OneQueueEach(w, queues) && ValidTurn(w, turn) && Lists(turn.order, queues)
    requires i < |turn.generated| && e in w.departments && e != turn.department && NoLeftovers(w, queues, e)
    requires after == Reconciled(w, queues, turn, i).queues
    ensures NoLeftovers(w, after, e) && OneQueueEach(w, after) && Lists(turn.order, after)
  {
    EntryRewritten(w, queues, turn, i);
    var parent := ParentNow(w, queues, turn.department, i);
    ExpectedIsOwn(w, turn.department, i, parent);
    RewriteKeepsOneEach(w, queues, turn.department, i, parent);
  }

  // ------------------------------------------------ passes

  /** Turns that reconcile every department at least once, in any order, repeats allowed. */
  ghost predicate IsPass(w: World, turns: seq<Turn>) {
    && ValidTurns(w, turns)
    && forall d {:trigger Visits(turns, d)} :: d in w.departments ==> Visits(turns, d)
  }

  predicate Visits(turns: seq<Turn>, d: string) {
    exists i :: 0 <= i < |turns| && turns[i].department == d
  }

  ghost predicate AllList(turns: seq<Turn>, queues: QueueMap) {
    forall i :: 0 <= i < |turns| ==> Lists(turns[i].order, queues)
  }

  /** `d` is finished: pruned, and in place if its level is at most `k + 1`. */
  ghost predicate Finished(w: World, queues: QueueMap, d: string, k: nat)
    requires d in w.departments
  {
    NoLeftovers(w, queues, d) && (LevelWithin(DepartmentTree(w), d, k + 1) ==> DepartmentPlaced(w, queues, d))
  }

  /** The state between reconciles of a pass. */
  ghost predicate Underway(w: World, queues: QueueMap, k: nat) {
    Tidy(w) && OneQueueEach(w, queues) && PlacedTo(w, queues, k)
  }

  lemma TurnFinishes(w: World, queues: QueueMap, turn: Turn, k: nat)
    requires Underway(w, queues, k) && ValidTurn(w, turn) && Lists(turn.order, queues)
    ensures var after := Handled(w, queues, turn);
            && Underway(w, after, k) && after.Keys <= queues.Keys
            && Finished(w, after, turn.department, k)
            && forall e {:trigger Finished(w, after, e, k)} :: e in w.departments && Finished(w, queues, e, k) ==>
                Finished(w, after, e, k)
  {
    var after := Handled(w, queues, turn);
    HandlePlaces(w, queues, turn, k);
    PlacedToCarries(w, queues, after, k);
    PlacedToNothing(w, queues);
    forall e | e in w.departments && Finished(w, queues, e, k) ensures Finished(w, after, e, k) {
      NoLeftoversCarries(w, queues, turn, e);
    }
  }

  lemma PlacedToNothing(w: World, queues: QueueMap)
    ensures PlacedTo(w, queues, 0)
  {
  }

  lemma {:induction false} TurnsFinish(w: World, queues: QueueMap, turns: seq<Turn>, k: nat)
    requires Underway(w, queues, k) && ValidTurns(w, turns) && AllList(turns, queues)
    ensures var after := Run(w, queues, turns);
            && Underway(w, after, k) && after.Keys <= queues.Keys
            && (forall i :: 0 <= i < |turns| ==> Finished(w, after, turns[i].department, k))
            && forall e {:trigger Finished(w, after, e, k)} :: e in w.departments && Finished(w, queues, e, k) ==>
                Finished(w, after, e, k)
    decreases |turns|
  {
    if turns != [] {
      var next := Handled(w, queues, turns[0]);
      TurnFinishes(w, queues, turns[0], k);
      TurnsFinish(w, next, turns[1..], k);
      forall i | 0 <= i < |turns| ensures Finished(w, Run(w, queues, turns), turns[i].department, k) {
        assert i > 0 ==> turns[i] == turns[1..][i - 1];
      }
    }
  }

  /** What `n` passes from level `k` have achieved. */
  ghost predicate Gained(w: World, before: QueueMap, after: QueueMap, k: nat, n: nat) {
    && Underway(w, after, k + n) && after.Keys <= before.Keys
    && (n > 0 ==> forall d {:trigger NoLeftovers(w, after, d)} :: d in w.departments ==> NoLeftovers(w, after, d))
  }

  /** One pass moves the finished part of the tree down by one level. */
  lemma PassGainsALevel(w: World, queues: QueueMap, turns: seq<Turn>, k: nat)
    requires Underway(w, queues, k) && IsPass(w, turns) && AllList(turns, queues)
    ensures Gained(w, queues, Run(w, queues, turns), k, 1)
  {
    TurnsFinish(w, queues, turns, k);
    var after := Run(w, queues, turns);
    forall d | d in w.departments ensures Finished(w, after, d, k) {
      assert Visits(turns, d);
      var i :| 0 <= i < |turns| && turns[i].department == d;
    }
  }

  ghost predicate ArePasses(w: World, passes: seq<seq<Turn>>, queues: QueueMap) {
    AreAllPasses(w, passes) && forall i {:trigger AllList(passes[i], queues)} :: 0 <= i < |passes| ==>
        AllList(passes[i], queues)
  }

  ghost predicate AreAllPasses(w: World, passes: seq<seq<Turn>>) {
    forall i {:trigger IsPass(w, passes[i])} :: 0 <= i < |passes| ==> IsPass(w, passes[i])
  }

  ghost function RunPasses(w: World, queues: QueueMap, passes: seq<seq<Turn>>): QueueMap
    requires AreAllPasses(w, passes)
    decreases |passes|
  {
    if passes == [] then queues
    else
      assert IsPass(w, passes[0]);
      assert AreAllPasses(w, passes[1..]) by {
        forall i | 0 <= i < |passes[1..]| ensures IsPass(w, passes[1..][i]) {
          assert IsPass(w, passes[i + 1]);
        }
      }
      RunPasses(w, Run(w, queues, passes[0]), passes[1..])
  }

  lemma {:induction false} PassesGainLevels(w: World, queues: QueueMap, passes: seq<seq<Turn>>, k: nat)
    returns (after: QueueMap)
    requires Underway(w, queues, k) && ArePasses(w, passes, queues)
    ensures after == RunPasses(w, queues, passes) && Gained(w, queues, after, k, |passes|)
    ensures passes == [] ==> after == queues
    decreases |passes|
  {
    if passes == [] {
      after := queues;
    } else {
      var next := FirstPass(w, queues, passes, k);
      after := PassesGainLevels(w, next, passes[1..], k + 1);
      GainedMore(w, queues, next, after, k, |passes| - 1);
    }
  }

  lemma FirstPass(w: World, queues: QueueMap, passes: seq<seq<Turn>>, k: nat) returns (next: QueueMap)
    requires Underway(w, queues, k) && ArePasses(w, passes, queues) && passes != []
    ensures IsPass(w, passes[0]) && next == Run(w, queues, passes[0])
    ensures Gained(w, queues, next, k, 1) && ArePasses(w, passes[1..], next)
    ensures RunPasses(w, queues, passes) == RunPasses(w, next, passes[1..])
  {
    assert IsPass(w, passes[0]) && AllList(passes[0], queues);
    next := Run(w, queues, passes[0]);
    PassGainsALevel(w, queues, passes[0], k);
    FewerToList(w, passes, queues, next);
  }

  lemma GainedMore(w: World, before: QueueMap, next: QueueMap, after: QueueMap, k: nat, n: nat)
    requires Gained(w, before, next, k, 1) && Gained(w, next, after, k + 1, n) && (n == 0 ==> after == next)
    ensures Gained(w, before, after, k, n + 1)
  {
  }

  lemma FewerToList(w: World, passes: seq<seq<Turn>>, queues: QueueMap, fewer: QueueMap)
    requires ArePasses(w, passes, queues) && fewer.Keys <= queues.Keys
    ensures ArePasses(w, passes, fewer)
    ensures passes != [] ==> ArePasses(w, passes[1..], fewer)
  {
    forall i | 0 <= i < |passes| ensures AllList(passes[i], fewer) && IsPass(w, passes[i]) {
      assert AllList(passes[i], queues);
    }
    if passes != [] {
      var rest := passes[1..];
      forall i | 0 <= i < |rest| ensures AllList(rest[i], fewer) && IsPass(w, rest[i]) {
        assert rest[i] == passes[i + 1];
      }
    }
  }

  /** After `k` passes every department of level at most `k` has its queue where it belongs. */
  lemma ConvergesLevelByLevel(w: World, queues: QueueMap, passes: seq<seq<Turn>>)
    requires Tidy(w) && OneQueueEach(w, queues) && ArePasses(w, passes, queues)
    ensures PlacedTo(w, RunPasses(w, queues, passes), |passes|)
  {
    PlacedToNothing(w, queues);
    var _ := PassesGainLevels(w, queues, passes, 0);
  }

  /** The queue trees mirror the department tree and nothing is left to prune. */
  ghost predicate Settled(w: World, queues: QueueMap) {
    && OneQueueEach(w, queues)
    && (forall d {:trigger DepartmentPlaced(w, queues, d)} {:trigger NoLeftovers(w, queues, d)} ::
          d in w.departments ==> DepartmentPlaced(w, queues, d) && NoLeftovers(w, queues, d))
  }

  /** In a settled cluster a reconcile holds nothing as root and changes nothing. */
  lemma SettledStays(w: World, queues: QueueMap, turn: Turn)
    requires Tidy(w) && Settled(w, queues) && ValidTurn(w, turn) && Lists(turn.order, queues)
    ensures Handled(w, queues, turn) == queues && !HeldBack(w, queues, turn)
  {
    var _ := SettledEntries(w, queues, turn, |turn.generated|);
    assert NoLeftovers(w, queues, turn.department);
  }

  lemma {:induction false} SettledEntries(w: World, queues: QueueMap, turn: Turn, n: nat) returns (p: Progress)
    requires Tidy(w) && Settled(w, queues) && ValidTurn(w, turn) && Lists(turn.order, queues) && n <= |turn.generated|
    ensures p == AfterEntries(w, queues, turn, n) && p == Progress(queues, SpecNames(w, turn.department, n), false)
    decreases n
  {
    p := Progress(queues, {}, false);
    if n > 0 {
      var q := SettledEntries(w, queues, turn, n - 1);
      p := Grown(q, Reconciled(w, q.queues, turn, n - 1));
      NextSettledEntry(w, queues, turn, n - 1, q, p);
    }
  }

  lemma NextSettledEntry(w: World, queues: QueueMap, turn: Turn, i: nat, q: Progress, p: Progress)
    requires Tidy(w) && Settled(w, queues) && ValidTurn(w, turn) && Lists(turn.order, queues) && i < |turn.generated|
    requires q == Progress(queues, SpecNames(w, turn.department, i), false)
    requires p == Grown(q, Reconciled(w, q.queues, turn, i))
    ensures p == Progress(queues, SpecNames(w, turn.department, i + 1), false)
  {
    SettledEntry(w, queues, turn, i);
  }

  lemma SettledEntry(w: World, queues: QueueMap, turn: Turn, i: nat)
    requires Tidy(w) && Settled(w, queues) && ValidTurn(w, turn) && Lists(turn.order, queues) && i < |turn.generated|
    ensures Reconciled(w, queues, turn, i) == Outcome(queues, SpecName(w, turn.department, i), false)
  {
    EntryRewritten(w, queues, turn, i);
    assert DepartmentPlaced(w, queues, turn.department);
    assert Placed(w, queues, turn.department, i);
  }

  /** After as many passes as departments nest, the queue trees have settled for good: every
      further reconcile, of any department, changes nothing and holds nothing back. */
  lemma ConvergesAtDepth(w: World, queues: QueueMap, passes: seq<seq<Turn>>, turn: Turn, depth: nat)
    requires Tidy(w) && OneQueueEach(w, queues) && DepthWithin(DepartmentTree(w), depth)
    requires ArePasses(w, passes, queues) && |passes| == depth > 0
    requires ValidTurn(w, turn) && Lists(turn.order, queues)
    ensures var after := RunPasses(w, queues, passes);
            && Settled(w, after)
            && Handled(w, after, turn) == after && !HeldBack(w, after, turn)
  {
    PlacedToNothing(w, queues);
    var after := PassesGainLevels(w, queues, passes, 0);
    SettledAtLast(w, after, depth);
    SettledStays(w, after, turn);
  }

  lemma SettledAtLast(w: World, queues: QueueMap, depth: nat)
    requires OneQueueEach(w, queues) && PlacedTo(w, queues, depth) && DepthWithin(DepartmentTree(w), depth)
    requires forall d {:trigger NoLeftovers(w, queues, d)} :: d in w.departments ==> NoLeftovers(w, queues, d)
    ensures Settled(w, queues)
  {
  }

  /** With the nesting limit of department admission, seven passes are enough. */
  lemma ConvergesAndStays(w: World, queues: QueueMap, passes: seq<seq<Turn>>, turn: Turn)
    requires Tidy(w) && OneQueueEach(w, queues) && DepthWithin(DepartmentTree(w), MAX_DEPTH)
    requires ArePasses(w, passes, queues) && |passes| == MAX_DEPTH
    requires ValidTurn(w, turn) && Lists(turn.order, queues)
    ensures var after := RunPasses(w, queues, passes);
            && Settled(w, after)
            && Handled(w, after, turn) == after && !HeldBack(w, after, turn)
  {
    ConvergesAtDepth(w, queues, passes, turn, MAX_DEPTH);
  }

  /** What settled means for a sub-department: its queue sits directly under its parent's queue for
      the same pool when the parent has one, and at the root otherwise. */
  lemma SettledMirrors(w: World, queues: QueueMap, d: string, i: nat)
    requires Tidy(w) && Settled(w, queues) && HasEntry(w, d, i)
    ensures OwnsEntry(w, queues, d, i)
    ensures var up := w.departments[d].parent;
            var parentQueue := queues[SpecName(w, d, i)].spec.parentQueue;
            && (parentQueue != "" ==> exists j: nat :: HasEntry(w, up, j) && parentQueue == SpecName(w, up, j)
                                                       && Config(w, up, j).nodepool == Config(w, d, i).nodepool)
            && (parentQueue == "" ==> forall j: nat :: HasEntry(w, up, j) ==>
                                                       Config(w, up, j).nodepool != Config(w, d, i).nodepool)
  {
    assert DepartmentPlaced(w, queues, d);
    assert Placed(w, queues, d, i);
    var up := w.departments[d].parent;
    if up in w.departments {
      var j := EntryFor(w.departments[up].queues, Config(w, d, i).nodepool);
      assert HasEntry(w, up, j) ==> Config(w, up, j).nodepool == Config(w, d, i).nodepool;
      forall l: nat | HasEntry(w, up, l) && Config(w, up, l).nodepool == Config(w, d, i).nodepool
        ensures HasEntry(w, up, j)
      {
        EntryForIsFirst(w.departments[up].queues, Config(w, d, i).nodepool, l);
      }
    }
  }
}
