/** The department tree: walking up, measuring height, and the parent check made on admission. */
module Hierarchy {
  import opened Forest

  /** How many levels departments may nest; a top-level department is level 1. */
  const MAX_DEPTH: nat := 7

  /** The tree below `x` has more than `k` levels, `x` included: the recursive notion of height. */
  ghost predicate TallerThan(t: Parents, x: string, k: nat)
    decreases k
  {
    k == 0 || exists c :: c in t && t[c] == x && TallerThan(t, c, k - 1)
  }

  lemma StepsUp(t: Parents, y: string, n: nat)
    ensures Walk(t, y, n + 1) == Up(t, Walk(t, y, n))
  {
    WalkAdd(t, y, n, 1);
    assert Walk(t, Walk(t, y, n), 1) == Up(t, Walk(t, y, n));
  }

  lemma {:induction false} TallerHasDescendant(t: Parents, x: string, k: nat) returns (y: string)
    requires TallerThan(t, x, k)
    ensures Walk(t, y, k) == x
    decreases k
  {
    if k == 0 {
      y := x;
    } else {
      var c :| c in t && t[c] == x && TallerThan(t, c, k - 1);
      y := TallerHasDescendant(t, c, k - 1);
      StepsUp(t, y, k - 1);
    }
  }

  lemma {:induction false} DescendantMakesTaller(t: Parents, x: string, y: string, k: nat)
    requires x != "" && Walk(t, y, k) == x
    ensures TallerThan(t, x, k)
    decreases k
  {
    if k > 0 {
      StepsUp(t, y, k - 1);
      DescendantMakesTaller(t, Walk(t, y, k - 1), y, k - 1);
    }
  }

  /** `x` is back at itself within `limit` steps up. */
  ghost predicate LoopsWithin(t: Parents, x: string, limit: nat) {
    exists k: nat :: 1 <= k <= limit && Walk(t, x, k) == x
  }

  /** A walk that meets an earlier stop again, without having met `x`, never comes back to `x`. */
  lemma {:induction false} CircleElsewhere(t: Parents, x: string, j: nat, n: nat, m: nat)
    requires j < n && Walk(t, x, n + 1) == Walk(t, x, j + 1)
    requires forall i: nat :: 1 <= i <= n ==> Walk(t, x, i) != x
    requires m > 0
    ensures Walk(t, x, m) != x
    decreases m
  {
    if m > n + 1 {
      WalkAdd(t, x, n + 1, m - n - 1);
      WalkAdd(t, x, j + 1, m - n - 1);
      CircleElsewhere(t, x, j, n, j + 1 + (m - n - 1));
    }
  }

  /** Why the upward walk may stop before its limit. */
  ghost predicate StoppedAbove(t: Parents, x: string, ancestors: seq<string>) {
    var top := Walk(t, x, |ancestors| + 1);
    top !in t || top in ancestors
  }

  ghost predicate IsChain(t: Parents, x: string, ancestors: seq<string>) {
    && (forall i :: 0 <= i < |ancestors| ==> ancestors[i] == Walk(t, x, i + 1))
    && (forall i :: 0 <= i < |ancestors| ==> ancestors[i] in t && ancestors[i] != x)
  }

  lemma StoppedMeansNoLoop(t: Parents, x: string, ancestors: seq<string>)
    requires x != "" && IsChain(t, x, ancestors) && StoppedAbove(t, x, ancestors)
    requires Walk(t, x, |ancestors| + 1) != x
    ensures !OnLoop(t, x)
  {
    var n := |ancestors|;
    if OnLoop(t, x) {
      LoopNeverEnds(t, x, n + 1);
      var j :| 0 <= j < n && ancestors[j] == Walk(t, x, n + 1);
      var p: nat :| p > 0 && Walk(t, x, p) == x;
      forall i: nat | 1 <= i <= n ensures Walk(t, x, i) != x {
        assert ancestors[i - 1] == Walk(t, x, i);
      }
      CircleElsewhere(t, x, j, n, p);
    }
  }

  /** Lists the departments above `x`, nearest first, up to `limit` of them. */
  method Ancestors(t: Parents, x: string, limit: nat) returns (ancestors: seq<string>, inLoop: bool)
    requires x != ""
    ensures |ancestors| <= limit && IsChain(t, x, ancestors)
    ensures forall i, j :: 0 <= i < j < |ancestors| ==> ancestors[i] != ancestors[j]
    ensures inLoop <==> LoopsWithin(t, x, limit)
    ensures inLoop ==> Walk(t, x, |ancestors| + 1) == x
    ensures !inLoop && |ancestors| < limit ==> StoppedAbove(t, x, ancestors) && !OnLoop(t, x)
  {
    ancestors, inLoop := [], false;
    var seen: set<string> := {};
    var parent := Up(t, x);
    assert Walk(t, x, 1) == parent;
    while parent != "" && |ancestors| < limit
      invariant parent == Walk(t, x, |ancestors| + 1)
      invariant |ancestors| <= limit && IsChain(t, x, ancestors)
      invariant forall a :: a in seen <==> a in ancestors
      invariant forall i, j :: 0 <= i < j < |ancestors| ==> ancestors[i] != ancestors[j]
      decreases limit - |ancestors|
    {
      if parent == x {
        return ancestors, true;
      }
      if parent !in t || parent in seen {
        StoppedMeansNoLoop(t, x, ancestors);
        return ancestors, false;
      }
      seen := seen + {parent};
      WalkAdd(t, x, |ancestors| + 1, 1);
      assert Walk(t, parent, 1) == Up(t, parent);
      ancestors := ancestors + [parent];
      parent := Up(t, parent);
    }
    if |ancestors| < limit {
      StoppedMeansNoLoop(t, x, ancestors);
    } else {
      forall k: nat | 1 <= k <= limit ensures Walk(t, x, k) != x {
        assert ancestors[k - 1] == Walk(t, x, k);
      }
    }
  }

  ghost predicate IsChildIndex(t: Parents, children: map<string, seq<string>>) {
    forall p, c :: (p in children && c in children[p]) <==> (c in t && t[c] == p)
  }

  function Listed(children: map<string, seq<string>>, p: string): seq<string> {
    if p in children then children[p] else []
  }

  /** Turns the parent map around. The order in which the names come is left open. */
  method ChildIndex(t: Parents) returns (children: map<string, seq<string>>)
    ensures IsChildIndex(t, children)
  {
    children := map[];
    var rest := t.Keys;
    while rest != {}
      invariant rest <= t.Keys
      invariant forall p, c :: (p in children && c in children[p]) <==> (c in t && c !in rest && t[c] == p)
      decreases rest
    {
      var child :| child in rest;
      var parent := t[child];
      children := children[parent := Listed(children, parent) + [child]];
      rest := rest - {child};
    }
  }

  /** On a walk that reaches `x` after `n` steps, an earlier visit puts `x` on a loop. */
  lemma NoShortcut(t: Parents, x: string, y: string, k: nat, n: nat)
    requires x != "" && k < n && Walk(t, y, k) == x && Walk(t, y, n) == x
    ensures OnLoop(t, x)
  {
    WalkAdd(t, y, k, n - k);
  }

  lemma StepsDown(t: Parents, x: string, y: string, n: nat)
    requires x != ""
    ensures Walk(t, y, n + 1) == x <==> y in t && Walk(t, t[y], n) == x
  {
    if y !in t {
      WalkFromNowhere(t, n);
    }
  }

  /** `y` was met at most `n` levels below `x`. */
  ghost predicate MetWithin(t: Parents, x: string, y: string, n: nat) {
    exists k: nat :: k <= n && Walk(t, y, k) == x
  }

  /** Collects the not yet seen children of one level. */
  method NextLevel(t: Parents, children: map<string, seq<string>>, ghost x: string, ghost depth: nat,
                   level: seq<string>, seen: set<string>)
    returns (next: seq<string>, seen': set<string>)
    requires x != "" && IsChildIndex(t, children)
    requires !OnLoop(t, x) ==> forall y :: y in level <==> Walk(t, y, depth) == x
    requires !OnLoop(t, x) ==> forall y :: y in seen ==> MetWithin(t, x, y, depth)
    ensures !OnLoop(t, x) ==> forall y :: y in next <==> Walk(t, y, depth + 1) == x
    ensures !OnLoop(t, x) ==> forall y :: y in seen' ==> MetWithin(t, x, y, depth + 1)
  {
    next, seen' := [], seen;
    for i := 0 to |level|
      invariant seen' == seen + (set y | y in next)
      invariant !OnLoop(t, x) ==> forall y :: y in next <==> y in t && t[y] in level[..i]
    {
      var kids := Listed(children, level[i]);
      ghost var before := next;
      for j := 0 to |kids|
        invariant seen' == seen + (set y | y in next)
        invariant !OnLoop(t, x) ==> forall y :: y in next <==> y in before || y in kids[..j]
      {
        if kids[j] !in seen' {
          seen' := seen' + {kids[j]};
          next := next + [kids[j]];
        } else if !OnLoop(t, x) && kids[j] in seen {
          var k: nat :| k <= depth && Walk(t, kids[j], k) == x;
          StepsDown(t, x, kids[j], depth);
          NoShortcut(t, x, kids[j], k, depth + 1);
        }
      }
    }
    if !OnLoop(t, x) {
      forall y ensures y in next <==> Walk(t, y, depth + 1) == x {
        StepsDown(t, x, y, depth);
      }
      forall y | y in seen' ensures MetWithin(t, x, y, depth + 1) {
        assert y in next ==> Walk(t, y, depth + 1) == x;
      }
    }
  }

  /** Counts the levels from `x` down to its deepest descendant, one level at a time, up to
      `limit`. The level counter agrees with the recursive height everywhere below the limit. */
  method Height(t: Parents, x: string, limit: nat) returns (height: nat)
    requires x != ""
    ensures height <= limit && (limit > 0 ==> height > 0)
    ensures !OnLoop(t, x) ==> forall k: nat :: k < limit ==> (TallerThan(t, x, k) <==> k < height)
  {
    var children := ChildIndex(t);
    var seen := {x};
    var level := [x];
    height := 0;
    assert Walk(t, x, 0) == x;
    while |level| > 0 && height < limit
      invariant height <= limit && (height == 0 ==> |level| > 0)
      invariant !OnLoop(t, x) ==> forall y :: y in level <==> Walk(t, y, height) == x
      invariant !OnLoop(t, x) ==> forall y :: y in seen ==> MetWithin(t, x, y, height)
      invariant !OnLoop(t, x) ==> forall k: nat :: k < height ==> TallerThan(t, x, k)
      decreases limit - height
    {
      if !OnLoop(t, x) {
        assert Walk(t, level[0], height) == x;
        DescendantMakesTaller(t, x, level[0], height);
      }
      level, seen := NextLevel(t, children, x, height, level, seen);
      height := height + 1;
    }
    if !OnLoop(t, x) {
      forall k: nat | height <= k < limit ensures !TallerThan(t, x, k) {
        if TallerThan(t, x, k) {
          var y := TallerHasDescendant(t, x, k);
          WalkAdd(t, y, k - height, height);
        }
      }
    }
  }

  datatype Department = Department(parent: string, deleting: bool, finalized: bool)

  type Departments = d: map<string, Department> | "" !in d witness map[]

  /** Reads the department tree off the departments. */
  function NewTree(departments: Departments): (t: Parents)
    ensures t.Keys == departments.Keys
  {
    map name | name in departments :: departments[name].parent
  }

  datatype Verdict =
    | Accepted
    | ParentMissing
    | ParentDeleting
    | MakesLoop(path: seq<string>)
    | NestsTooDeep

  /** No loop through `x`, and nothing at or below `x` is deeper than the limit. */
  ghost predicate Fits(t: Parents, x: string) {
    && !OnLoop(t, x)
    && forall y :: y in t && AtOrAbove(t, x, y) ==> LevelWithin(t, y, MAX_DEPTH)
  }

  /** In a loop-free tree the upward walk stops only by leaving the tree. */
  lemma StopsOutside(t: Parents, x: string, ancestors: seq<string>)
    requires LoopFree(t) && IsChain(t, x, ancestors) && StoppedAbove(t, x, ancestors)
    ensures Walk(t, x, |ancestors| + 1) !in t
  {
    var n := |ancestors|;
    forall j | 0 <= j < n
      ensures ancestors[j] != Walk(t, x, n + 1)
    {
      WalkAdd(t, x, j + 1, n - j);
      assert Walk(t, ancestors[j], n - j) == Walk(t, x, n + 1);
    }
  }

  /** Nothing at or below `x` is deeper than the levels above it plus its height. */
  lemma CountBoundsDepth(t: Parents, x: string, above: nat, height: nat, y: string, k: nat)
    requires x in t && x != "" && !OnLoop(t, x) && Walk(t, x, above + 1) !in t
    requires y in t && Walk(t, y, k) == x
    requires 0 < height && 0 < above && !TallerThan(t, x, height)
    ensures LevelWithin(t, y, above + height)
  {
    if k >= height {
      WalkAdd(t, y, k - height, height);
      DescendantMakesTaller(t, x, Walk(t, y, k - height), height);
    }
    WalkAdd(t, y, k, above + 1);
    LeftForGood(t, y, k + above + 1, above + height);
  }

  /** And something below `x` is that deep. */
  lemma CountIsReached(t: Parents, x: string, above: nat, height: nat, depth: nat)
    requires x in t && x != "" && 0 < above && 0 < height && Walk(t, x, above) in t && TallerThan(t, x, height - 1)
    requires forall y :: y in t && AtOrAbove(t, x, y) ==> LevelWithin(t, y, depth)
    ensures above + height <= depth
  {
    var y := TallerHasDescendant(t, x, height - 1);
    if y !in t {
      LeftForGood(t, y, 0, height - 1);
    }
    WalkAdd(t, y, height - 1, above);
    if height - 1 + above >= depth {
      LeftForGood(t, y, depth, height - 1 + above);
    }
  }

  /** The level count of the parent check is exact: levels above plus height, against the limit. */
  lemma CountIsExact(t: Parents, x: string, ancestors: seq<string>, height: nat)
    requires x in t && x != "" && !OnLoop(t, x)
    requires IsChain(t, x, ancestors) && |ancestors| < MAX_DEPTH
    requires Walk(t, x, |ancestors| + 1) !in t
    requires 0 < |ancestors| && 0 < height <= MAX_DEPTH
    requires forall k: nat :: k < MAX_DEPTH ==> (TallerThan(t, x, k) <==> k < height)
    ensures |ancestors| + height <= MAX_DEPTH <==> Fits(t, x)
  {
    var a, depth: nat := |ancestors|, MAX_DEPTH;
    if a + height <= depth {
      forall y | y in t && AtOrAbove(t, x, y) ensures LevelWithin(t, y, depth) {
        var k: nat :| Walk(t, y, k) == x;
        CountBoundsDepth(t, x, a, height, y, k);
        LeftForGood(t, y, a + height, depth);
      }
    }
    if Fits(t, x) {
      assert ancestors[a - 1] == Walk(t, x, a);
      assert TallerThan(t, x, height - 1);
      CountIsReached(t, x, a, height, depth);
    }
  }

  /** A chain as long as the limit proves that `x` sits too deep. */
  lemma FullChainDoesNotFit(t: Parents, x: string, ancestors: seq<string>)
    requires x in t && IsChain(t, x, ancestors) && |ancestors| == MAX_DEPTH
    ensures !Fits(t, x)
  {
    assert Walk(t, x, 0) == x;
    assert AtOrAbove(t, x, x);
    assert ancestors[MAX_DEPTH - 1] == Walk(t, x, MAX_DEPTH);
  }

  /** Decides whether department `name` may have parent `parent`. Whatever the tree looks like, an
      accepted parent closes no loop through `name`; on a loop-free tree the check is exact. */
  method ValidateParent(departments: Departments, name: string, parent: string) returns (verdict: Verdict)
    requires name != ""
    ensures parent == "" ==> verdict.Accepted?
    ensures parent != "" ==> (verdict.ParentMissing? <==> parent !in departments)
    ensures parent != "" && parent in departments ==> (verdict.ParentDeleting? <==> departments[parent].deleting)
    ensures parent != "" && verdict.Accepted? ==> !OnLoop(NewTree(departments)[name := parent], name)
    ensures verdict.MakesLoop? ==> OnLoop(NewTree(departments)[name := parent], name)
    ensures parent != "" && parent in departments && !departments[parent].deleting && LoopFree(NewTree(departments)) ==>
              (verdict.Accepted? <==> Fits(NewTree(departments)[name := parent], name))
  {
    if parent == "" {
      return Accepted;
    }
    if parent !in departments {
      return ParentMissing;
    }
    if departments[parent].deleting {
      return ParentDeleting;
    }
    var tree := NewTree(departments);
    tree := tree[parent := departments[parent].parent];
    assert tree == NewTree(departments);
    var t: Parents := tree[name := parent];
    var ancestors, inLoop := Ancestors(t, name, MAX_DEPTH);
    if inLoop {
      return MakesLoop([name] + ancestors + [name]);
    }
    var height := Height(t, name, MAX_DEPTH);
    if LoopFree(tree) && |ancestors| < MAX_DEPTH {
      LoopFreeAfter(tree, name, parent);
      StopsOutside(t, name, ancestors);
      CountIsExact(t, name, ancestors, height);
    }
    if |ancestors| == MAX_DEPTH {
      FullChainDoesNotFit(t, name, ancestors);
    }
    verdict := if |ancestors| + height > MAX_DEPTH then NestsTooDeep else Accepted;
  }

  lemma LoopFreeAfter(t: Parents, x: string, p: string)
    requires x != "" && LoopFree(t) && !OnLoop(t[x := p], x)
    ensures LoopFree(t[x := p])
  {
    var u: Parents := t[x := p];
    forall y | y in u ensures !OnLoop(u, y) {
      if OnLoop(u, y) {
        OnlyLoopsThroughChange(t, x, p, y);
      }
    }
  }
}
