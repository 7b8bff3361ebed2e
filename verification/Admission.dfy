/** Departments over time: admitted writes, finalizers and deletions, one atomic step each. */
module Admission {
  import opened Forest
  import opened Hierarchy

  /** The departments, and for each project the department it sits in. */
  datatype Registry = Registry(departments: Departments, projects: map<string, string>) {
    ghost function Tree(): Parents { NewTree(departments) }
  }

  datatype Step =
    | Create(name: string, parent: string)
    | SetParent(name: string, parent: string)
    | AddFinalizer(name: string)
    | Delete(name: string)
    | Finalize(name: string)
    | PutProject(project: string, department: string)
    | DropProject(project: string)

  /** The parent check, on a loop-free tree. */
  ghost predicate ParentAllowed(departments: Departments, name: string, parent: string)
    requires name != ""
  {
    parent == "" || (parent in departments && !departments[parent].deleting &&
        Fits(NewTree(departments)[name := parent], name))
  }

  predicate HasChildren(departments: Departments, name: string) {
    exists c :: c in departments && departments[c].parent == name
  }

  predicate HasProjects(projects: map<string, string>, name: string) {
    exists p :: p in projects && projects[p] == name
  }

  /** One step; a refused write leaves everything as it is. A delete only marks a department that
      carries the finalizer, and removes one that does not. */
  ghost function Next(r: Registry, step: Step): Registry {
    match step
    case Create(name, parent) =>
      if name == "" || name in r.departments || !ParentAllowed(r.departments, name, parent) then r
      else r.(departments := r.departments[name := Department(parent, false, false)])
    case SetParent(name, parent) =>
      if name !in r.departments then r
      else if parent != r.departments[name].parent && !ParentAllowed(r.departments, name, parent) then r
      else r.(departments := r.departments[name := r.departments[name].(parent := parent)])
    case AddFinalizer(name) =>
      if name !in r.departments || r.departments[name].deleting then r
      else r.(departments := r.departments[name := r.departments[name].(finalized := true)])
    case Delete(name) =>
      if name !in r.departments then r
      else if r.departments[name].finalized then
        r.(departments := r.departments[name := r.departments[name].(deleting := true)])
      else r.(departments := r.departments - {name})
    case Finalize(name) =>
      if name !in r.departments || !r.departments[name].deleting || !r.departments[name].finalized then r
      else if HasProjects(r.projects, name) || HasChildren(r.departments, name) then r
      else r.(departments := r.departments - {name})
    case PutProject(project, department) => r.(projects := r.projects[project := department])
    case DropProject(project) => r.(projects := r.projects - {project})
  }

  ghost function Run(r: Registry, steps: seq<Step>): Registry
    decreases |steps|
  {
    if steps == [] then r else Run(Next(r, steps[0]), steps[1..])
  }

  /** The step is no delete of a department that lacks its finalizer and has children. */
  predicate Harmless(r: Registry, step: Step) {
    step.Delete? && step.name in r.departments ==>
      r.departments[step.name].finalized || !HasChildren(r.departments, step.name)
  }

  /** So is every step along the run. */
  ghost predicate AllHarmless(r: Registry, steps: seq<Step>)
    decreases |steps|
  {
    steps == [] || (Harmless(r, steps[0]) && AllHarmless(Next(r, steps[0]), steps[1..]))
  }

  /** The registry is sound before, after and between the steps. */
  ghost predicate SoundThroughout(r: Registry, steps: seq<Step>)
    decreases |steps|
  {
    Sound(r) && (steps == [] || SoundThroughout(Next(r, steps[0]), steps[1..]))
  }

  /** What admission promises of the tree. */
  ghost predicate Sound(r: Registry) {
    Closed(r.Tree()) && LoopFree(r.Tree()) && DepthWithin(r.Tree(), MAX_DEPTH)
  }

  lemma TreeAfterWrite(d: Departments, name: string, v: Department)
    requires name != ""
    ensures NewTree(d[name := v]) == NewTree(d)[name := v.parent]
  {
  }

  lemma TreeAfterRemoval(d: Departments, name: string)
    ensures NewTree(d - {name}) == NewTree(d) - {name}
  {
  }

  lemma SameParentSameTree(d: Departments, name: string, v: Department)
    requires name in d && v.parent == d[name].parent
    ensures NewTree(d[name := v]) == NewTree(d)
  {
  }

  lemma RootIsNoLoop(t: Parents, x: string)
    requires x != ""
    ensures !OnLoop(t[x := ""], x)
  {
    var u: Parents := t[x := ""];
    assert Walk(u, x, 1) == "";
    if OnLoop(u, x) {
      LoopNeverEnds(u, x, 1);
    }
  }

  lemma AllowedKeepsLoopFree(d: Departments, name: string, parent: string)
    requires name != "" && LoopFree(NewTree(d)) && ParentAllowed(d, name, parent)
    ensures LoopFree(NewTree(d)[name := parent])
  {
    if parent == "" {
      RootIsNoLoop(NewTree(d), name);
    }
    LoopFreeAfter(NewTree(d), name, parent);
  }

  lemma RemovalKeepsLoopFree(t: Parents, u: Parents)
    requires LoopFree(t) && forall x :: x in u ==> x in t && t[x] == u[x]
    ensures LoopFree(u)
  {
    forall y | y in u ensures !OnLoop(u, y) {
      if OnLoop(u, y) {
        FewerNamesNoNewLoop(t, u, y);
      }
    }
  }

  lemma StepKeepsLoopFree(r: Registry, step: Step)
    requires LoopFree(r.Tree())
    ensures LoopFree(Next(r, step).Tree())
  {
    var d := r.departments;
    match step
    case Create(name, parent) =>
      if name != "" && name !in d && ParentAllowed(d, name, parent) {
        TreeAfterWrite(d, name, Department(parent, false, false));
        AllowedKeepsLoopFree(d, name, parent);
      }
    case SetParent(name, parent) =>
      if name in d {
        TreeAfterWrite(d, name, d[name].(parent := parent));
        if parent == d[name].parent {
          SameParentSameTree(d, name, d[name].(parent := parent));
        } else if ParentAllowed(d, name, parent) {
          AllowedKeepsLoopFree(d, name, parent);
        }
      }
    case AddFinalizer(name) =>
      if name in d { SameParentSameTree(d, name, d[name].(finalized := true)); }
    case Delete(name) =>
      if name in d {
        SameParentSameTree(d, name, d[name].(deleting := true));
        RemovalKeepsLoopFree(NewTree(d), NewTree(d - {name}));
      }
    case Finalize(name) =>
      RemovalKeepsLoopFree(NewTree(d), NewTree(d - {name}));
    case _ =>
  }

  /** No run of writes, deletes and finalizations ever makes a loop, finalizers or not. */
  lemma {:induction false} NeverALoop(r: Registry, steps: seq<Step>)
    requires LoopFree(r.Tree())
    ensures LoopFree(Run(r, steps).Tree())
    decreases |steps|
  {
    if steps != [] {
      StepKeepsLoopFree(r, steps[0]);
      NeverALoop(Next(r, steps[0]), steps[1..]);
    }
  }

  /** Names not below `x` keep their level when `x` moves. */
  lemma OthersKeepLevel(t: Parents, x: string, p: string, y: string, n: nat)
    requires x != "" && y in t && y != x && LevelWithin(t, y, n)
    requires !AtOrAbove(t[x := p], x, y)
    ensures LevelWithin(t[x := p], y, n)
  {
    var u: Parents := t[x := p];
    forall k: nat | k < n ensures Up(t, Walk(u, y, k)) == Up(u, Walk(u, y, k)) {
      assert Walk(u, y, k) != x;
    }
    SameWalk(t, u, y, n);
    assert Walk(u, y, n) != x;
  }

  /** Detaching `x` lowers the names below it and leaves the rest alone. */
  lemma DetachKeepsLevel(t: Parents, x: string, y: string, n: nat)
    requires x in t && y in t && LevelWithin(t, y, n)
    ensures LevelWithin(t[x := ""], y, n)
  {
    var u: Parents := t[x := ""];
    if AtOrAbove(u, x, y) {
      var k: nat :| Walk(u, y, k) == x;
      assert Walk(u, x, 1) == "";
      WalkAdd(u, y, k, 1);
      if k + 1 <= n {
        LeftForGood(u, y, k + 1, n);
      } else {
        FirstVisit(t, u, x, y, k, n);
      }
    } else {
      assert Walk(u, y, 0) != x;
      OthersKeepLevel(t, x, "", y, n);
    }
  }

  /** A walk still short of `x` after `n` steps has met the same names in both trees. */
  lemma {:induction false} FirstVisit(t: Parents, u: Parents, x: string, y: string, k: nat, n: nat)
    requires x in t && u == t[x := ""] && Walk(u, y, k) == x && n <= k && LevelWithin(t, y, n)
    ensures LevelWithin(u, y, n)
  {
    if j: nat :| j < n && Walk(u, y, j) == x {
      WalkAdd(u, y, j, 1);
      assert Walk(u, x, 1) == "";
      LeftForGood(u, y, j + 1, n);
    } else {
      SameWalk(t, u, y, n);
    }
  }

  lemma AllowedKeepsSound(r: Registry, name: string, v: Department)
    requires Sound(r) && name != "" && ParentAllowed(r.departments, name, v.parent)
    ensures Sound(r.(departments := r.departments[name := v]))
  {
    var t := r.Tree();
    var u: Parents := t[name := v.parent];
    TreeAfterWrite(r.departments, name, v);
    AllowedKeepsLoopFree(r.departments, name, v.parent);
    forall y | y in u ensures LevelWithin(u, y, MAX_DEPTH) {
      if v.parent == "" {
        if name in t {
          DetachKeepsLevel(t, name, y, MAX_DEPTH);
        } else {
          NewRootKeepsLevel(t, name, y, MAX_DEPTH);
        }
      } else if !AtOrAbove(u, name, y) {
        assert Walk(u, y, 0) != name;
        OthersKeepLevel(t, name, v.parent, y, MAX_DEPTH);
      }
    }
  }

  /** In a closed tree nothing waits for a new root, so nothing moves down. */
  lemma NewRootKeepsLevel(t: Parents, x: string, y: string, n: nat)
    requires Closed(t) && x != "" && x !in t && n > 0
    requires y == x || (y in t && LevelWithin(t, y, n))
    ensures LevelWithin(t[x := ""], y, n)
  {
    var u: Parents := t[x := ""];
    assert Walk(u, x, 1) == "";
    if y == x {
      LeftForGood(u, x, 1, n);
    } else {
      if AtOrAbove(u, x, y) {
        var k: nat :| Walk(u, y, k) == x;
        NobodyBelow(t, u, x, y, k);
      }
      OthersKeepLevel(t, x, "", y, n);
    }
  }

  lemma {:induction false} NobodyBelow(t: Parents, u: Parents, x: string, y: string, k: nat)
    requires Closed(t) && x != "" && x !in t && u == t[x := ""] && y in t
    ensures Walk(u, y, k) != x
    decreases k
  {
    if k > 0 {
      if t[y] == "" {
        WalkFromNowhere(u, k - 1);
      } else {
        NobodyBelow(t, u, x, t[y], k - 1);
      }
    }
  }

  lemma LeafRemovalKeepsSound(r: Registry, name: string)
    requires Sound(r) && !HasChildren(r.departments, name)
    ensures Sound(r.(departments := r.departments - {name}))
  {
    var t := r.Tree();
    var u := NewTree(r.departments - {name});
    TreeAfterRemoval(r.departments, name);
    RemovalKeepsLoopFree(t, u);
    forall x | x in u && u[x] != "" ensures u[x] in u {
      assert r.departments[x].parent != name;
    }
    forall y | y in u ensures LevelWithin(u, y, MAX_DEPTH) {
      LeafIsOffEveryWalk(t, u, name, y, MAX_DEPTH);
    }
  }

  lemma {:induction false} LeafIsOffEveryWalk(t: Parents, u: Parents, x: string, y: string, n: nat)
    requires u == t - {x} && y != x && forall c :: c in t ==> t[c] != x
    ensures Walk(u, y, n) == Walk(t, y, n) && (Walk(t, y, n) in t ==> Walk(t, y, n) in u)
    decreases n
  {
    if n > 0 {
      if x == "" && y !in t {
        WalkFromNowhere(t, n - 1);
        WalkFromNowhere(u, n - 1);
      } else {
        LeafIsOffEveryWalk(t, u, x, Up(t, y), n - 1);
      }
    }
  }

  lemma StepKeepsSound(r: Registry, step: Step)
    requires Sound(r) && Harmless(r, step)
    ensures Sound(Next(r, step))
  {
    var d := r.departments;
    match step
    case Create(name, parent) =>
      if name != "" && name !in d && ParentAllowed(d, name, parent) {
        AllowedKeepsSound(r, name, Department(parent, false, false));
      }
    case SetParent(name, parent) =>
      if name in d {
        if parent == d[name].parent {
          SameParentSameTree(d, name, d[name].(parent := parent));
        } else if ParentAllowed(d, name, parent) {
          AllowedKeepsSound(r, name, d[name].(parent := parent));
        }
      }
    case AddFinalizer(name) =>
      if name in d { SameParentSameTree(d, name, d[name].(finalized := true)); }
    case Delete(name) =>
      if name in d {
        if d[name].finalized {
          SameParentSameTree(d, name, d[name].(deleting := true));
        } else {
          LeafRemovalKeepsSound(r, name);
        }
      }
    case Finalize(name) =>
      if !HasChildren(d, name) { LeafRemovalKeepsSound(r, name); }
    case _ =>
  }

  /** A delete that strands children leaves a parent missing. */
  lemma StrandingBreaksSound(r: Registry, step: Step)
    requires Sound(r) && !Harmless(r, step)
    ensures !Sound(Next(r, step))
  {
    var child :| child in r.departments && r.departments[child].parent == step.name;
    TreeAfterRemoval(r.departments, step.name);
    var t, u := r.Tree(), Next(r, step).Tree();
    assert step.name in t && child in t && t[child] == step.name;
    assert child == step.name ==> Walk(t, child, 1) == child;
    assert child in u && u[child] != "" && u[child] !in u;
  }

  /** A run from a sound registry stays sound throughout, every named parent present, no loop and no
      department deeper than the limit, exactly when no step deletes a department that lacks its finalizer
      and has children. */
  lemma {:induction false} SoundIffHarmless(r: Registry, steps: seq<Step>)
    requires Sound(r)
    ensures SoundThroughout(r, steps) <==> AllHarmless(r, steps)
    decreases |steps|
  {
    if steps != [] {
      if Harmless(r, steps[0]) {
        StepKeepsSound(r, steps[0]);
        SoundIffHarmless(Next(r, steps[0]), steps[1..]);
      } else {
        StrandingBreaksSound(r, steps[0]);
      }
    }
  }

  lemma {:induction false} SoundAtTheEnd(r: Registry, steps: seq<Step>)
    requires SoundThroughout(r, steps)
    ensures Sound(Run(r, steps))
    decreases |steps|
  {
    if steps != [] {
      SoundAtTheEnd(Next(r, steps[0]), steps[1..]);
    }
  }

  /** In particular over every run in which departments carry their finalizer before they are deleted. */
  lemma AdmissionInvariant(r: Registry, steps: seq<Step>)
    requires Sound(r) && AllHarmless(r, steps)
    ensures Sound(Run(r, steps))
  {
    SoundIffHarmless(r, steps);
    SoundAtTheEnd(r, steps);
  }

  /** On a sound tree, an existing parent that is not going away is accepted exactly when the
      resulting tree is free of loops and within the limit everywhere. */
  lemma CheckIsExact(r: Registry, name: string, parent: string)
    requires Sound(r) && name != "" && parent != ""
    requires parent in r.departments && !r.departments[parent].deleting
    ensures ParentAllowed(r.departments, name, parent) <==>
            LoopFree(r.Tree()[name := parent]) && DepthWithin(r.Tree()[name := parent], MAX_DEPTH)
  {
    if ParentAllowed(r.departments, name, parent) {
      var v := Department(parent, false, false);
      TreeAfterWrite(r.departments, name, v);
      AllowedKeepsSound(r, name, v);
    }
  }

  /** The parent may be written on a sound tree: none at all, or one that exists, stays, and leaves the tree free of
      loops and within the limit. */
  ghost predicate MayGoUnder(r: Registry, name: string, parent: string)
    requires name != ""
  {
    || parent == ""
    || (&& parent in r.departments && !r.departments[parent].deleting
        && LoopFree(r.Tree()[name := parent]) && DepthWithin(r.Tree()[name := parent], MAX_DEPTH))
  }

  /** What a write of a department makes of a sound registry: a create of a new name and a new parent take effect
      exactly when the parent may be written, an unchanged parent always does, and nothing else changes. */
  lemma WritesTakeEffectIff(r: Registry, name: string, parent: string)
    requires Sound(r) && name != ""
    ensures var created := Next(r, Create(name, parent));
            if name !in r.departments && MayGoUnder(r, name, parent)
            then created == Registry(r.departments[name := Department(parent, false, false)], r.projects)
            else created == r
    ensures name in r.departments ==>
            var d := r.departments[name];
            var moved := Next(r, SetParent(name, parent));
            if parent == d.parent || MayGoUnder(r, name, parent)
            then moved == Registry(r.departments[name := Department(parent, d.deleting, d.finalized)], r.projects)
            else moved == r
  {
    if parent != "" && parent in r.departments && !r.departments[parent].deleting {
      CheckIsExact(r, name, parent);
    }
  }

  /** The finalizer goes exactly when the department is being deleted and neither a project nor a child names it. */
  lemma FinalizeWaits(r: Registry, name: string)
    ensures var after := Next(r, Finalize(name));
            && after.projects == r.projects
            && after.departments ==
               (if && name in r.departments && r.departments[name].deleting && r.departments[name].finalized
                   && (forall p :: p in r.projects ==> r.projects[p] != name)
                   && (forall c :: c in r.departments ==> r.departments[c].parent != name)
                then r.departments - {name} else r.departments)
  {
  }

  lemma RunFirst(r: Registry, step: Step, rest: seq<Step>)
    ensures Run(r, [step] + rest) == Run(Next(r, step), rest)
  {
    assert ([step] + rest)[1..] == rest;
  }

  lemma RunOfThree(r: Registry, a: Step, b: Step, c: Step)
    ensures Run(r, [a, b, c]) == Next(Next(Next(r, a), b), c)
  {
    assert [a, b, c] == [a] + ([b] + ([c] + []));
    RunFirst(r, a, [b] + ([c] + []));
    RunFirst(Next(r, a), b, [c] + []);
    RunFirst(Next(Next(r, a), b), c, []);
  }

  /** Before it reaches `x`, a walk looks the same without `x` and with a new leaf `z`. */
  lemma {:induction false} WalkToChange(t: Parents, u: Parents, x: string, z: string, y: string, n: nat)
    requires LoopFree(t) && Closed(t) && x in t && z !in t && y in t && Walk(t, y, n) == x
    requires forall c :: c != x && c != z ==> Up(u, c) == Up(t, c)
    ensures Walk(u, y, n) == x
    decreases n
  {
    if n > 0 {
      if y == x {
        assert OnLoop(t, x);
      } else if t[y] !in t {
        WalkFromNowhere(t, n - 1);
      } else {
        WalkToChange(t, u, x, z, t[y], n - 1);
      }
    }
  }

  /** A new name nobody refers to is below nothing else's way: only itself is at or below it. */
  lemma NewLeafFits(t: Parents, z: string, y: string, x: string)
    requires z != "" && z !in t && y != z && x !in t && x != z
    requires forall c :: c in t ==> t[c] != z
    requires Walk(t, y, MAX_DEPTH - 1) == x
    ensures Fits(t[z := y], z)
  {
    var u: Parents := t[z := y];
    forall w, k: nat | k > 0 ensures Walk(u, w, k) != z {
      WalkAdd(u, w, k - 1, 1);
      assert Walk(u, Walk(u, w, k - 1), 1) == Up(u, Walk(u, w, k - 1));
    }
    forall k: nat | k < MAX_DEPTH - 1 ensures Up(t, Walk(u, y, k)) == Up(u, Walk(u, y, k)) {
      assert k == 0 ==> Walk(u, y, k) == y;
    }
    SameWalk(t, u, y, MAX_DEPTH - 1);
    assert Walk(u, z, MAX_DEPTH) == Walk(u, y, MAX_DEPTH - 1);
    forall w | w in u && AtOrAbove(u, z, w) ensures LevelWithin(u, w, MAX_DEPTH) {
      var k: nat :| Walk(u, w, k) == z;
    }
  }

  /** Why the finalizer matters. Take any sound tree as deep as allowed whose top-level department
      `x` does not carry its finalizer yet, with `y` on its last level. Deleting `x` strands what
      was below it, `y` then takes one more child, and creating `x` again as a top-level department
      goes unchecked: the child ends up at level eight. */
  lemma BareDeleteBreaksDepth(r: Registry, x: string, y: string, z: string)
    requires Sound(r) && z != "" && z !in r.departments && y in r.departments && !r.departments[y].deleting
    requires x in r.departments && r.departments[x].parent == "" && !r.departments[x].finalized
    requires Walk(r.Tree(), y, MAX_DEPTH - 1) == x
    ensures !DepthWithin(Run(r, [Delete(x), Create(z, y), Create(x, "")]).Tree(), MAX_DEPTH)
  {
    Stranded(r.Tree(), x, y, z, MAX_DEPTH - 1);
    OrphanTakesChild(r.departments, x, y, z);
    TreeAfterBareDelete(r, x, y, z);
  }

  lemma OrphanTakesChild(d: Departments, x: string, y: string, z: string)
    requires y in d && !d[y].deleting && y != x && z != "" && Fits((NewTree(d) - {x})[z := y], z)
    ensures ParentAllowed(d - {x}, z, y)
  {
    TreeAfterRemoval(d, x);
  }

  lemma TreeAfterBareDelete(r: Registry, x: string, y: string, z: string)
    requires x in r.departments && x != "" && !r.departments[x].finalized && x != z && z != "" && z !in r.departments
    requires ParentAllowed(r.departments - {x}, z, y)
    ensures Run(r, [Delete(x), Create(z, y), Create(x, "")]).Tree() == (r.Tree() - {x})[z := y][x := ""]
  {
    var r1 := Registry(r.departments - {x}, r.projects);
    TreeAfterRemoval(r.departments, x);
    CreatedBelow(r1, z, y);
    CreatedBelow(Next(r1, Create(z, y)), x, "");
    RunOfThree(r, Delete(x), Create(z, y), Create(x, ""));
  }

  lemma CreatedBelow(r: Registry, name: string, parent: string)
    requires name != "" && name !in r.departments && ParentAllowed(r.departments, name, parent)
    ensures Next(r, Create(name, parent)).Tree() == r.Tree()[name := parent]
  {
    TreeAfterWrite(r.departments, name, Department(parent, false, false));
  }

  lemma Stranded(t: Parents, x: string, y: string, z: string, n: nat)
    requires LoopFree(t) && Closed(t) && x in t && t[x] == "" && y in t && z != "" && z !in t
    requires n == MAX_DEPTH - 1 && Walk(t, y, n) == x
    ensures y != x && Fits((t - {x})[z := y], z)
    ensures !DepthWithin((t - {x})[z := y][x := ""], MAX_DEPTH)
  {
    var u: Parents := t - {x};
    WalkToChange(t, u, x, z, y, n);
    NewLeafFits(u, z, y, x);
    var w: Parents := u[z := y][x := ""];
    WalkToChange(t, w, x, z, y, n);
    assert Walk(w, z, n + 1) == Walk(w, y, n);
    assert z in w && !LevelWithin(w, z, n + 1);
  }

  /** The department store as the webhook and the reconciler change it. */
  class DepartmentRegistry {
    var departments: Departments
    var projects: map<string, string>

    ghost function State(): Registry reads this { Registry(departments, projects) }

    ghost predicate Valid() reads this { LoopFree(State().Tree()) }

    constructor ()
      ensures State() == Registry(map[], map[]) && Sound(State()) && Valid()
    {
      departments, projects := map[], map[];
    }

    method Create(name: string, parent: string) returns (admitted: bool)
      requires Valid() && name != ""
      modifies this`departments
      ensures Valid() && State() == Next(old(State()), Step.Create(name, parent))
      ensures admitted <==> old(name !in departments && ParentAllowed(departments, name, parent))
      ensures departments == if admitted then old(departments)[name := Department(parent, false, false)]
                             else old(departments)
    {
      StepKeepsLoopFree(State(), Step.Create(name, parent));
      var verdict := ValidateParent(departments, name, parent);
      admitted := verdict.Accepted? && name !in departments;
      if admitted {
        departments := departments[name := Department(parent, false, false)];
      }
    }

    /** Only a new parent is checked: an unchanged one never blocks a write. */
    method SetParent(name: string, parent: string) returns (admitted: bool)
      requires Valid() && name in departments
      modifies this`departments
      ensures Valid() && State() == Next(old(State()), Step.SetParent(name, parent))
      ensures admitted <==>
              old(departments[name].parent == parent || (name != "" && ParentAllowed(departments, name, parent)))
      ensures admitted ==> departments == old(departments[name := departments[name].(parent := parent)])
      ensures !admitted ==> departments == old(departments)
    {
      StepKeepsLoopFree(State(), Step.SetParent(name, parent));
      admitted := true;
      if departments[name].parent != parent {
        var verdict := ValidateParent(departments, name, parent);
        admitted := verdict.Accepted?;
      }
      if admitted {
        departments := departments[name := departments[name].(parent := parent)];
      }
    }

    /** Removes the finalizer, and with it the department, once nothing refers to it. */
    method Finalize(name: string) returns (removed: bool)
      requires Valid() && name in departments
      modifies this`departments
      ensures Valid() && State() == Next(old(State()), Step.Finalize(name))
      ensures removed ==> !HasProjects(projects, name) && !HasChildren(departments, name)
      ensures removed <==> name !in departments
    {
      StepKeepsLoopFree(State(), Step.Finalize(name));
      removed := false;
      if !departments[name].deleting || !departments[name].finalized {
        return;
      }
      if HasProjects(projects, name) || HasChildren(departments, name) {
        return;
      }
      departments := departments - {name};
      removed := true;
    }
  }
}
