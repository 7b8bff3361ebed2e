/** Parent maps: finite functional graphs in which every name has at most one parent.

    Department trees and queue trees are both read this way. The empty string stands for
    "no parent" and is never a name itself. A parent may be missing from the map, and a map
    may hold loops: nothing here assumes a well-formed tree. */
module Forest {

  type Parents = t: map<string, string> | "" !in t witness map[]

  /** The parent of `x`; a name the map does not hold has none. */
  function Up(t: Parents, x: string): string {
    if x in t then t[x] else ""
  }

  /** The name reached after following `n` parent links from `x`. */
  function Walk(t: Parents, x: string, n: nat): string
    decreases n
  {
    if n == 0 then x else Walk(t, Up(t, x), n - 1)
  }

  ghost predicate OnLoop(t: Parents, x: string) {
    x != "" && exists n: nat :: n > 0 && Walk(t, x, n) == x
  }

  ghost predicate LoopFree(t: Parents) {
    forall x :: x in t ==> !OnLoop(t, x)
  }

  /** Every parent that is named exists. */
  ghost predicate Closed(t: Parents) {
    forall x :: x in t && t[x] != "" ==> t[x] in t
  }

  /** `x` is at level `n` or above: following `n` links leaves the map. */
  ghost predicate LevelWithin(t: Parents, x: string, n: nat) {
    Walk(t, x, n) !in t
  }

  ghost predicate DepthWithin(t: Parents, n: nat) {
    forall x :: x in t ==> LevelWithin(t, x, n)
  }

  /** `x` is `y` itself or sits above it. */
  ghost predicate AtOrAbove(t: Parents, x: string, y: string) {
    exists n: nat :: Walk(t, y, n) == x
  }

  lemma {:induction false} WalkAdd(t: Parents, x: string, a: nat, b: nat)
    ensures Walk(t, x, a + b) == Walk(t, Walk(t, x, a), b)
    decreases a
  {
    if a > 0 {
      WalkAdd(t, Up(t, x), a - 1, b);
    }
  }

  lemma {:induction false} WalkFromNowhere(t: Parents, n: nat)
    ensures Walk(t, "", n) == ""
  {
    if n > 0 {
      WalkFromNowhere(t, n - 1);
    }
  }

  /** A walk that has left the map stays outside it. */
  lemma LeftForGood(t: Parents, x: string, m: nat, n: nat)
    requires m <= n && Walk(t, x, m) !in t
    ensures Walk(t, x, n) !in t
    ensures m < n ==> Walk(t, x, n) == ""
  {
    WalkAdd(t, x, m, n - m);
    if m < n {
      WalkFromNowhere(t, n - m - 1);
    }
  }

  lemma {:induction false} LoopNeverEnds(t: Parents, x: string, n: nat)
    requires OnLoop(t, x)
    ensures Walk(t, x, n) in t
  {
    var p: nat :| p > 0 && Walk(t, x, p) == x;
    if n >= p {
      WalkAdd(t, x, p, n - p);
      LoopNeverEnds(t, x, n - p);
    } else if Walk(t, x, n) !in t {
      LeftForGood(t, x, n, p);
    }
  }

  /** Everything met while walking up from a name on a loop is on that loop. */
  lemma LoopIsClosedUpwards(t: Parents, x: string, k: nat)
    requires OnLoop(t, x)
    ensures OnLoop(t, Walk(t, x, k))
  {
    var p: nat :| p > 0 && Walk(t, x, p) == x;
    WalkAdd(t, x, k, p);
    WalkAdd(t, x, p, k);
    assert Walk(t, Walk(t, x, k), p) == Walk(t, x, k);
    LoopNeverEnds(t, x, k);
  }

  /** Two parent maps that agree along a walk give the same walk. */
  lemma {:induction false} SameWalk(t: Parents, u: Parents, x: string, n: nat)
    requires forall k: nat :: k < n ==> Up(t, Walk(u, x, k)) == Up(u, Walk(u, x, k))
    ensures Walk(t, x, n) == Walk(u, x, n)
  {
    if n > 0 {
      forall k: nat | k < n - 1
        ensures Up(t, Walk(u, x, k)) == Up(u, Walk(u, x, k))
      {
      }
      SameWalk(t, u, x, n - 1);
      WalkAdd(t, x, n - 1, 1);
      WalkAdd(u, x, n - 1, 1);
      assert Up(t, Walk(u, x, n - 1)) == Up(u, Walk(u, x, n - 1));
      assert Walk(t, Walk(t, x, n - 1), 1) == Up(t, Walk(t, x, n - 1));
      assert Walk(u, Walk(u, x, n - 1), 1) == Up(u, Walk(u, x, n - 1));
    }
  }

  /** Re-parenting `x` makes no loop other than one through `x`. */
  lemma OnlyLoopsThroughChange(t: Parents, x: string, p: string, y: string)
    requires x != ""
    requires OnLoop(t[x := p], y) && !OnLoop(t[x := p], x)
    ensures OnLoop(t, y)
  {
    var u: Parents := t[x := p];
    var n: nat :| n > 0 && Walk(u, y, n) == y;
    forall k: nat | k < n
      ensures Up(t, Walk(u, y, k)) == Up(u, Walk(u, y, k))
    {
      LoopIsClosedUpwards(u, y, k);
    }
    SameWalk(t, u, y, n);
  }

  /** Dropping names makes no loop. */
  lemma FewerNamesNoNewLoop(t: Parents, u: Parents, y: string)
    requires forall x :: x in u ==> x in t && t[x] == u[x]
    requires OnLoop(u, y)
    ensures OnLoop(t, y)
  {
    var n: nat :| n > 0 && Walk(u, y, n) == y;
    forall k: nat | k < n
      ensures Up(t, Walk(u, y, k)) == Up(u, Walk(u, y, k))
    {
      LoopNeverEnds(u, y, k);
    }
    SameWalk(t, u, y, n);
  }

  /** Placing `x` under `p` closes a loop through `x` exactly when `x` is `p` or above it. */
  lemma PlacementLoops(t: Parents, x: string, p: string)
    requires x != ""
    ensures OnLoop(t[x := p], x) <==> AtOrAbove(t, x, p)
  {
    var u: Parents := t[x := p];
    if OnLoop(u, x) {
      var n: nat :| n > 0 && Walk(u, x, n) == x;
      FirstReturn(t, u, x, p, n);
    }
    if AtOrAbove(t, x, p) {
      var n: nat :| Walk(t, p, n) == x;
      ReachesAlsoAfter(t, u, x, p, p, n);
    }
  }

  lemma {:induction false} FirstReturn(t: Parents, u: Parents, x: string, p: string, n: nat)
    requires x != "" && u == t[x := p] && n > 0 && Walk(u, x, n) == x
    ensures AtOrAbove(t, x, p)
    decreases n
  {
    assert Walk(u, p, n - 1) == x;
    if k: nat :| k < n - 1 && Walk(u, p, k) == x {
      assert Walk(u, x, k + 1) == x;
      FirstReturn(t, u, x, p, k + 1);
    } else {
      SameWalk(t, u, p, n - 1);
    }
  }

  lemma {:induction false} ReachesAlsoAfter(t: Parents, u: Parents, x: string, p: string, y: string, n: nat)
    requires x != "" && u == t[x := p] && Walk(t, y, n) == x
    ensures exists k: nat :: Walk(u, y, k) == x
    ensures y == p ==> OnLoop(u, x)
    decreases n
  {
    if y == x {
      assert Walk(u, y, 0) == x;
    } else {
      if n == 0 { assert false; }
      ReachesAlsoAfter(t, u, x, p, Up(t, y), n - 1);
      var k: nat :| Walk(u, Up(t, y), k) == x;
      assert Walk(u, y, k + 1) == x;
    }
    if y == p {
      var k: nat :| Walk(u, p, k) == x;
      assert Walk(u, x, k + 1) == x;
    }
  }
}
