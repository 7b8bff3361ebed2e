/** Two controllers label the same node. With the cluster's configuration fixed and no pods to wait for, any
    interleaving of their steps moves the node at most twice, and where it ends up it stays. */
module TwoControllers {
  import opened Nodes
  import opened NodeDrain
  import opened PoolDeletion
  import opened Wrappers

  /** The labels the controllers write. */
  function Written(s: Settings): set<string> { {s.poolLabel, s.cordonLabel, s.excludeLabel} }

  /** The two label maps differ at most in labels the controllers write. */
  predicate SameOtherwise(s: Settings, a: map<string, string>, b: map<string, string>) {
    a - Written(s) == b - Written(s)
  }

  /** A pool that selects nodes by its own name in the pool label. */
  predicate SelectsItself(s: Settings, pool: Pool) { pool.labelKey == s.poolLabel && pool.labelValue == pool.name }

  predicate ProperPool(s: Settings, w: World, pool: Pool) {
    && pool.name != s.excludedPool && pool.name !in w.unmanaged
    && (pool.name == s.defaultPool ==> pool.labelKey == "")
    && (pool.labelKey !in Written(s) || SelectsItself(s, pool))
  }

  /** The configuration: names are apart, the default pool selects nothing, and neither the selectors nor the
      criteria read what the controllers write, except that a pool may select its own name. */
  ghost predicate Fixed(s: Settings, w: World) {
    && ProperSettings(s) && "" !in Written(s) && ProperWorld(w) && HasDefaultPool(s, w)
    && (forall p, q :: p in w.pools && q in w.pools && p.name == q.name ==> p == q)
    && (forall p :: p in w.pools ==> ProperPool(s, w, p))
    && (forall a, b :: SameOtherwise(s, a, b) ==> w.included(a) == w.included(b))
  }

  /** One sub-step, with the pools listed in some order. */
  datatype Act = Act(listing: seq<Pool>, step: SubStep)

  ghost predicate CanAct(s: Settings, w: World, act: Act) {
    (forall p :: p in act.listing <==> p in w.pools) && Allowed(s, w.(pools := act.listing), act.step)
  }

  function Acted(s: Settings, w: World, node: Node, act: Act): Node {
    Stepped(s, w.(pools := act.listing), node, act.step, false, false)
  }

  // ------------------------------------------------ how far a node is from settled

  /** An available pool other than the default one whose label pair the node carries, whatever its pool label. */
  ghost predicate HasMatch(s: Settings, w: World, node: Node) {
    exists p :: p in w.pools && Claims(s, p, node)
  }

  predicate Claims(s: Settings, pool: Pool, node: Node) {
    !pool.deleting && pool.name != s.defaultPool && pool.labelKey !in Written(s) && PairMatches(pool, node.labels)
  }

  /** The node pool controller leaves the node where it is. */
  ghost predicate Stable(s: Settings, w: World, node: Node) {
    || !ProperLabel(s, PoolLabel(s, node))
    || (PoolLabel(s, node).None? && !HasMatch(s, w, node))
    || (exists p :: p in w.pools && OfAvailablePool(s, node, p))
  }

  ghost function Rank(s: Settings, w: World, node: Node): nat {
    var mark := PoolLabel(s, node);
    if mark.Some? && mark.value in w.unmanaged then 0
    else if w.included(node.labels) then
      if mark == Some(s.excludedPool) then if HasMatch(s, w, node) then 2 else 1
      else if Stable(s, w, node) then 0 else 1
    else if mark == Some(s.excludedPool) then 0
    else if Stable(s, w, node) then 1 else 2
  }

  // ------------------------------------------------ what a step keeps

  lemma PatchKeepsOthers(s: Settings, labels: map<string, string>, adds: map<string, string>, removes: set<string>)
    requires adds.Keys <= Written(s) && removes <= Written(s)
    ensures SameOtherwise(s, labels, Patched(labels, adds, removes))
  {
  }

  lemma CordonKeepsOthers(s: Settings, node: Node)
    ensures SameOtherwise(s, node.labels, Cordoned(s, node).labels)
    ensures SameOtherwise(s, node.labels, Uncordoned(s, node).labels)
  {
    PatchKeepsOthers(s, node.labels, map[s.cordonLabel := "true"], {});
    PatchKeepsOthers(s, node.labels, map[], {s.cordonLabel});
  }

  lemma ChangedKeepsOthers(s: Settings, node: Node, busy: bool, target: string, pools: seq<Pool>)
    ensures SameOtherwise(s, node.labels, Changed(s, node, busy, target, pools).labels)
  {
    var free := Uncordoned(s, node);
    var pool := if target == "" then FindMatching(s, pools, free.labels) else target;
    CordonKeepsOthers(s, node);
    PatchKeepsOthers(s, free.labels, map[s.poolLabel := pool], {});
    PatchKeepsOthers(s, free.labels, map[], {s.poolLabel});
  }

  lemma MarkKeepsOthers(s: Settings, node: Node, waiting: bool)
    ensures SameOtherwise(s, node.labels, Marked(s, node, waiting).labels)
  {
    PatchKeepsOthers(s, node.labels, map[s.excludeLabel := "true"], {});
    PatchKeepsOthers(s, node.labels, map[], {s.excludeLabel});
  }

  lemma ManagedKeepsOthers(s: Settings, w: World, node: Node, same: bool, all: bool)
    ensures SameOtherwise(s, node.labels, ManagedStep(s, w, node, same, all).labels)
  {
    var back, out := ChangedTo(s, node, same, s.defaultPool), ChangedTo(s, node, same, s.excludedPool);
    ChangedKeepsOthers(s, node, same, s.defaultPool, []);
    ChangedKeepsOthers(s, node, same, s.excludedPool, []);
    MarkKeepsOthers(s, node, false);
    MarkKeepsOthers(s, back, false);
    MarkKeepsOthers(s, out, same);
  }

  lemma StepKeepsOthers(s: Settings, w: World, node: Node, step: SubStep, same: bool, different: bool)
    ensures SameOtherwise(s, node.labels, Stepped(s, w, node, step, same, different).labels)
  {
    var available := AvailablePools(w.pools);
    match step {
      case Misplaced(_) => ChangedKeepsOthers(s, node, same, "", available);
      case Unclaimed(pool) => ChangedKeepsOthers(s, node, same, pool.name, []);
      case InPlace(_) => CordonKeepsOthers(s, node);
      case InDefault =>
        CordonKeepsOthers(s, node);
        ChangedKeepsOthers(s, node, same, FindMatching(s, available, node.labels), []);
      case NotInDefault => ChangedKeepsOthers(s, node, same, "", available);
      case Evicted(pool) => ChangedKeepsOthers(s, node, same, "", OtherPools(available, pool.name));
      case Managed(all) => ManagedKeepsOthers(s, w, node, same, all);
    }
  }

  lemma SamePair(s: Settings, pool: Pool, a: Node, b: Node)
    requires SameOtherwise(s, a.labels, b.labels)
    requires pool.labelKey !in Written(s) || (SelectsItself(s, pool) && PoolLabel(s, a) == PoolLabel(s, b))
    ensures PairMatches(pool, a.labels) == PairMatches(pool, b.labels)
  {
    var x, y := a.labels - Written(s), b.labels - Written(s);
    assert pool.labelKey !in Written(s) ==>
           (pool.labelKey in a.labels <==> pool.labelKey in x) && (pool.labelKey in b.labels <==> pool.labelKey in y);
    if pool.labelKey !in Written(s) && pool.labelKey in x {
      assert a.labels[pool.labelKey] == x[pool.labelKey] == y[pool.labelKey] == b.labels[pool.labelKey];
    }
  }

  lemma SameMatch(s: Settings, w: World, a: Node, b: Node)
    requires SameOtherwise(s, a.labels, b.labels)
    ensures HasMatch(s, w, a) == HasMatch(s, w, b)
  {
    forall p | p in w.pools
      ensures Claims(s, p, a) == Claims(s, p, b)
    {
      if p.labelKey !in Written(s) {
        SamePair(s, p, a, b);
      }
    }
  }

  lemma SameRank(s: Settings, w: World, a: Node, b: Node)
    requires Fixed(s, w) && SameOtherwise(s, a.labels, b.labels) && PoolLabel(s, a) == PoolLabel(s, b)
    ensures Rank(s, w, a) == Rank(s, w, b)
  {
    SameMatch(s, w, a, b);
    forall p | p in w.pools
      ensures OfAvailablePool(s, a, p) == OfAvailablePool(s, b, p)
    {
      assert ProperPool(s, w, p);
      SamePair(s, p, a, b);
    }
  }

  // ------------------------------------------------ where a search leads

  lemma {:induction false} FoundMatches(s: Settings, pools: seq<Pool>, labels: map<string, string>)
    ensures var found := FindMatching(s, pools, labels);
            || (found == s.defaultPool && forall p :: p in pools ==> !PairMatches(p, labels))
            || (exists p :: p in pools && p.name == found && PairMatches(p, labels))
  {
    if pools != [] {
      if PairMatches(pools[0], labels) {
        assert pools[0] in pools;
      } else {
        FoundMatches(s, pools[1..], labels);
        assert forall p :: p in pools <==> p == pools[0] || p in pools[1..];
      }
    }
  }

  /** A pool label the node pool controller is content with, on a node that otherwise looks like this one. */
  ghost predicate GoodTarget(s: Settings, w: World, node: Node, pool: string) {
    || (pool == s.defaultPool && !HasMatch(s, w, node))
    || (exists p :: p in w.pools && p.name == pool && Claims(s, p, node))
  }

  /** A search from a node the controller is not content with leads to a pool it is content with. */
  lemma SearchIsGood(s: Settings, w: World, node: Node, labels: map<string, string>, pools: seq<Pool>)
    requires Fixed(s, w) && !Stable(s, w, node) && "" !in node.labels
    requires SameOtherwise(s, node.labels, labels) && LabelOf(labels, s.poolLabel) == PoolLabel(s, node)
    requires forall p :: p in pools <==> p in w.pools && !p.deleting
    ensures GoodTarget(s, w, node, FindMatching(s, pools, labels))
  {
    var seen := node.(labels := labels);
    FoundMatches(s, pools, labels);
    forall p | p in pools && PairMatches(p, labels)
      ensures Claims(s, p, node)
    {
      ClaimedInSearch(s, w, node, seen, p);
    }
    forall p | p in w.pools && Claims(s, p, node)
      ensures p in pools && PairMatches(p, labels)
    {
      SamePair(s, p, node, seen);
    }
  }

  lemma ClaimedInSearch(s: Settings, w: World, node: Node, seen: Node, p: Pool)
    requires Fixed(s, w) && !Stable(s, w, node) && "" !in node.labels
    requires SameOtherwise(s, node.labels, seen.labels) && PoolLabel(s, seen) == PoolLabel(s, node)
    requires p in w.pools && !p.deleting && PairMatches(p, seen.labels)
    ensures Claims(s, p, node)
  {
    assert ProperPool(s, w, p);
    SamePair(s, p, node, seen);
    assert p.labelKey in Written(s) ==> OfAvailablePool(s, node, p);
  }

  lemma AvailableListed(w: World, listing: seq<Pool>, name: string)
    requires forall p :: p in listing <==> p in w.pools
    requires forall p :: p in w.pools && p.name == name ==> p.deleting
    ensures forall p :: p in AvailablePools(listing) <==> p in w.pools && !p.deleting
    ensures forall p :: p in OtherPools(AvailablePools(listing), name) <==> p in w.pools && !p.deleting
  {
    forall p: Pool
      ensures p in AvailablePools(listing) <==> p in w.pools && !p.deleting
      ensures p in OtherPools(AvailablePools(listing), name) <==> p in w.pools && !p.deleting
    {
      AvailableAre(listing, p);
      OthersAre(AvailablePools(listing), name, p);
    }
  }

  /** An unlabelled node that a search would move is claimed by some pool. */
  lemma FoundClaims(s: Settings, w: World, node: Node, listing: seq<Pool>)
    requires Fixed(s, w) && "" !in node.labels && PoolLabel(s, node).None?
    requires forall p :: p in listing <==> p in w.pools
    ensures var found := FindMatching(s, AvailablePools(listing), node.labels);
            found != s.defaultPool ==> exists p :: p in w.pools && p.name == found && Claims(s, p, node)
  {
    var found := FindMatching(s, AvailablePools(listing), node.labels);
    FoundMatches(s, AvailablePools(listing), node.labels);
    if found != s.defaultPool {
      var p :| p in AvailablePools(listing) && p.name == found && PairMatches(p, node.labels);
      AvailableAre(listing, p);
      assert ProperPool(s, w, p);
      assert Claims(s, p, node);
    }
  }

  /** Only nodes the node pool controller is not content with are moved by it. */
  lemma MovesTheUnstable(s: Settings, w: World, node: Node, act: Act)
    requires Fixed(s, w) && CanAct(s, w, act) && "" !in node.labels && !act.step.Managed?
    requires Target(s, w.(pools := act.listing), node, act.step).Some?
    ensures !Stable(s, w, node)
    ensures PoolLabel(s, node).Some? ==>
            PoolLabel(s, node).value != s.excludedPool && PoolLabel(s, node).value !in w.unmanaged
  {
    var v := w.(pools := act.listing);
    match act.step {
      case Misplaced(pool) => assert ProperPool(s, w, pool);
      case Unclaimed(pool) =>
        assert ProperPool(s, w, pool);
        assert Claims(s, pool, node);
      case InDefault => FoundClaims(s, w, node, act.listing);
      case NotInDefault => UnknownIsUnstable(s, w, node, v);
      case Evicted(pool) => assert ProperPool(s, w, pool);
    }
  }

  lemma UnknownIsUnstable(s: Settings, w: World, node: Node, v: World)
    requires Fixed(s, w) && HasDefaultPool(s, v) && v.unmanaged == w.unmanaged
    requires forall p :: p in v.pools <==> p in w.pools
    requires PoolLabel(s, node).Some? && !KnownPool(s, v, PoolOf(s, PoolLabel(s, node)))
    ensures !Stable(s, w, node)
  {
    forall p | p in w.pools
      ensures !OfAvailablePool(s, node, p)
    {
      var i :| 0 <= i < |v.pools| && v.pools[i] == p;
      assert ProperPool(s, w, p);
    }
  }

  lemma MovesToGood(s: Settings, w: World, node: Node, act: Act)
    requires Fixed(s, w) && CanAct(s, w, act) && "" !in node.labels && !act.step.Managed?
    requires Target(s, w.(pools := act.listing), node, act.step).Some?
    ensures GoodTarget(s, w, node, Target(s, w.(pools := act.listing), node, act.step).value)
  {
    MovesTheUnstable(s, w, node, act);
    var free := Uncordoned(s, node).labels;
    CordonKeepsPool(s, node);
    CordonKeepsOthers(s, node);
    match act.step {
      case Misplaced(_) =>
        AvailableListed(w, act.listing, "");
        SearchIsGood(s, w, node, free, AvailablePools(act.listing));
      case Unclaimed(pool) =>
        assert ProperPool(s, w, pool);
        assert Claims(s, pool, node);
      case InDefault => FoundClaims(s, w, node, act.listing);
      case NotInDefault =>
        AvailableListed(w, act.listing, "");
        SearchIsGood(s, w, node, free, AvailablePools(act.listing));
      case Evicted(pool) =>
        AvailableListed(w, act.listing, pool.name);
        SearchIsGood(s, w, node, free, OtherPools(AvailablePools(act.listing), pool.name));
    }
  }

  /** Once there, the controller is content. */
  lemma GoodIsStable(s: Settings, w: World, node: Node, after: Node, pool: string)
    requires Fixed(s, w) && SameOtherwise(s, node.labels, after.labels)
    requires GoodTarget(s, w, node, pool) && PoolLabel(s, after) == LabelFor(s, pool)
    ensures Stable(s, w, after) && PoolLabel(s, after) != Some(s.excludedPool)
    ensures PoolLabel(s, after).Some? ==> PoolLabel(s, after).value !in w.unmanaged
  {
    SameMatch(s, w, node, after);
    if p :| p in w.pools && p.name == pool && Claims(s, p, node) {
      SamePair(s, p, node, after);
      assert OfAvailablePool(s, after, p) && ProperPool(s, w, p);
    }
  }

  // ------------------------------------------------ every interleaving

  /** A step that changes the pool label brings the node closer; any other step leaves it as far as it was. */
  lemma ActRank(s: Settings, w: World, node: Node, act: Act)
    requires Fixed(s, w) && CanAct(s, w, act) && "" !in node.labels
    ensures var after := Acted(s, w, node, act);
            && "" !in after.labels
            && (if PoolLabel(s, after) == PoolLabel(s, node) then Rank(s, w, after) == Rank(s, w, node)
                else Rank(s, w, after) < Rank(s, w, node))
  {
    var v, after := w.(pools := act.listing), Acted(s, w, node, act);
    StepKeepsOthers(s, v, node, act.step, false, false);
    NoEmptyKey(s, node, after);
    if PoolLabel(s, after) == PoolLabel(s, node) {
      SameRank(s, w, node, after);
    } else {
      RelistedIsProper(w, act.listing);
      SteppedLabel(s, v, node, act.step, false, false);
      if act.step.Managed? {
        ManagedRank(s, w, node, after);
      } else {
        MovesTheUnstable(s, w, node, act);
        MovesToGood(s, w, node, act);
        GoodIsStable(s, w, node, after, Target(s, v, node, act.step).value);
      }
    }
  }

  lemma ManagedRank(s: Settings, w: World, node: Node, after: Node)
    requires Fixed(s, w) && SameOtherwise(s, node.labels, after.labels)
    requires Target(s, w, node, Managed(true)).Some? &&
             PoolLabel(s, after) == LabelFor(s, Target(s, w, node, Managed(true)).value)
    ensures Rank(s, w, after) < Rank(s, w, node)
  {
    SameMatch(s, w, node, after);
  }

  lemma RelistedIsProper(w: World, listing: seq<Pool>)
    requires ProperWorld(w) && forall p :: p in listing <==> p in w.pools
    ensures ProperWorld(w.(pools := listing))
  {
    forall i | 0 <= i < |listing|
      ensures listing[i].name != ""
    {
      assert listing[i] in w.pools;
    }
  }

  lemma NoEmptyKey(s: Settings, a: Node, b: Node)
    requires "" !in Written(s) && "" !in a.labels && SameOtherwise(s, a.labels, b.labels)
    ensures "" !in b.labels
  {
    assert "" !in a.labels - Written(s);
  }

  ghost function Run(s: Settings, w: World, node: Node, acts: seq<Act>): Node
    decreases |acts|
  {
    if acts == [] then node
    else if CanAct(s, w, acts[0]) then Run(s, w, Acted(s, w, node, acts[0]), acts[1..])
    else Run(s, w, node, acts[1..])
  }

  /** How often the pool label changes in a run. */
  ghost function Moves(s: Settings, w: World, node: Node, acts: seq<Act>): nat
    decreases |acts|
  {
    if acts == [] then 0
    else if CanAct(s, w, acts[0]) then
      var after := Acted(s, w, node, acts[0]);
      (if PoolLabel(s, after) == PoolLabel(s, node) then 0 else 1) + Moves(s, w, after, acts[1..])
    else Moves(s, w, node, acts[1..])
  }

  lemma {:induction false} MovesWithinRank(s: Settings, w: World, node: Node, acts: seq<Act>)
    requires Fixed(s, w) && "" !in node.labels
    ensures Moves(s, w, node, acts) + Rank(s, w, Run(s, w, node, acts)) <= Rank(s, w, node)
    ensures Moves(s, w, node, acts) == 0 ==> PoolLabel(s, Run(s, w, node, acts)) == PoolLabel(s, node)
    decreases |acts|
  {
    if acts != [] {
      if CanAct(s, w, acts[0]) {
        ActRank(s, w, node, acts[0]);
        MovesWithinRank(s, w, Acted(s, w, node, acts[0]), acts[1..]);
      } else {
        MovesWithinRank(s, w, node, acts[1..]);
      }
    }
  }

  /** Any interleaving, however long, moves the node at most twice. */
  lemma AtMostTwoMoves(s: Settings, w: World, node: Node, acts: seq<Act>)
    requires Fixed(s, w) && "" !in node.labels
    ensures Moves(s, w, node, acts) <= 2
  {
    MovesWithinRank(s, w, node, acts);
  }

  /** The label is settled: no step of either controller would change it. */
  ghost predicate Settled(s: Settings, w: World, node: Node) {
    forall act :: CanAct(s, w, act) ==> PoolLabel(s, Acted(s, w, node, act)) == PoolLabel(s, node)
  }

  lemma SettledIsRankZero(s: Settings, w: World, node: Node)
    requires Fixed(s, w) && "" !in node.labels
    ensures Settled(s, w, node) <==> Rank(s, w, node) == 0
    ensures var mark := PoolLabel(s, node);
            Settled(s, w, node) <==> || (mark.Some? && mark.value in w.unmanaged)
                                     || (if w.included(node.labels)
                                         then mark != Some(s.excludedPool) && Stable(s, w, node)
                                         else mark == Some(s.excludedPool))
  {
    if Rank(s, w, node) == 0 {
      forall act | CanAct(s, w, act)
        ensures PoolLabel(s, Acted(s, w, node, act)) == PoolLabel(s, node)
      {
        ActRank(s, w, node, act);
      }
    } else {
      var act := UnsettledMoves(s, w, node);
    }
  }

  /** A pool the controller would be content with is not the one a node it is not content with is in. */
  lemma GoodIsElsewhere(s: Settings, w: World, node: Node, pool: string)
    requires Fixed(s, w) && !Stable(s, w, node) && GoodTarget(s, w, node, pool)
    ensures LabelFor(s, pool) != PoolLabel(s, node)
  {
    if p :| p in w.pools && p.name == pool && Claims(s, p, node) {
      assert PoolLabel(s, node) == Some(p.name) ==> OfAvailablePool(s, node, p);
    }
  }

  /** The sub-step that moves a node the node pool controller is not content with. */
  ghost predicate Suits(s: Settings, w: World, mark: Option<string>, step: SubStep) {
    match step
    case InDefault => mark.None?
    case Misplaced(pool) => pool in w.pools && !pool.deleting && mark == Some(pool.name)
    case NotInDefault => mark.Some? && forall p :: p in w.pools && p.name == mark.value ==> p.deleting
    case _ => false
  }

  lemma SomeStepSuits(s: Settings, w: World, node: Node) returns (step: SubStep)
    requires Fixed(s, w) && !Stable(s, w, node)
    ensures Allowed(s, w, step) && Suits(s, w, PoolLabel(s, node), step)
  {
    var mark := PoolLabel(s, node);
    if mark.None? {
      step := InDefault;
    } else if p :| p in w.pools && !p.deleting && p.name == mark.value {
      step := Misplaced(p);
    } else {
      step := NotInDefault;
    }
  }

  lemma SuitedHasTarget(s: Settings, w: World, node: Node, act: Act)
    requires Fixed(s, w) && CanAct(s, w, act) && "" !in node.labels && !Stable(s, w, node)
    requires PoolLabel(s, node).Some? ==>
             PoolLabel(s, node).value != s.excludedPool && PoolLabel(s, node).value !in w.unmanaged
    requires Suits(s, w, PoolLabel(s, node), act.step)
    ensures Target(s, w.(pools := act.listing), node, act.step).Some?
  {
    var v := w.(pools := act.listing);
    match act.step {
      case InDefault =>
        var p :| p in w.pools && Claims(s, p, node);
        AvailableListed(w, act.listing, "");
        FoundMatches(s, AvailablePools(act.listing), node.labels);
        assert forall q :: q in w.pools && PairMatches(q, node.labels) ==>
               ProperPool(s, w, q) && q.name != s.defaultPool;
      case Misplaced(p) => assert !OfAvailablePool(s, node, p);
      case NotInDefault =>
        assert forall i :: 0 <= i < |v.pools| ==> v.pools[i] in w.pools;
    }
  }

  /** The act that moves an unsettled node, whatever the listing order. */
  lemma SuitedMoves(s: Settings, w: World, node: Node, act: Act)
    requires Fixed(s, w) && CanAct(s, w, act) && "" !in node.labels && Rank(s, w, node) > 0
    requires act.step.Managed? <==> OutOfPlace(s, w, node)
    requires !act.step.Managed? ==> Suits(s, w, PoolLabel(s, node), act.step)
    ensures PoolLabel(s, Acted(s, w, node, act)) != PoolLabel(s, node)
  {
    var v := w.(pools := act.listing);
    RelistedIsProper(w, act.listing);
    SteppedLabel(s, v, node, act.step, false, false);
    if !act.step.Managed? {
      SuitedHasTarget(s, w, node, act);
      MovesToGood(s, w, node, act);
      GoodIsElsewhere(s, w, node, Target(s, v, node, act.step).value);
    }
  }

  /** Included nodes in the excluded pool, and excluded nodes anywhere else. */
  ghost predicate OutOfPlace(s: Settings, w: World, node: Node) {
    w.included(node.labels) <==> PoolLabel(s, node) == Some(s.excludedPool)
  }

  lemma UnsettledMoves(s: Settings, w: World, node: Node) returns (act: Act)
    requires Fixed(s, w) && "" !in node.labels && Rank(s, w, node) > 0
    ensures CanAct(s, w, act) && PoolLabel(s, Acted(s, w, node, act)) != PoolLabel(s, node)
  {
    act := Act(w.pools, Managed(true));
    assert w.(pools := w.pools) == w;
    if !OutOfPlace(s, w, node) {
      var step := SomeStepSuits(s, w, node);
      act := Act(w.pools, step);
    }
    SuitedMoves(s, w, node, act);
  }

  /** A settled label stays, whatever either controller does later. */
  lemma SettledStays(s: Settings, w: World, node: Node, acts: seq<Act>)
    requires Fixed(s, w) && "" !in node.labels && Settled(s, w, node)
    ensures PoolLabel(s, Run(s, w, node, acts)) == PoolLabel(s, node) && Settled(s, w, Run(s, w, node, acts))
  {
    SettledIsRankZero(s, w, node);
    MovesWithinRank(s, w, node, acts);
    RunKeepsKeys(s, w, node, acts);
    SettledIsRankZero(s, w, Run(s, w, node, acts));
  }

  lemma {:induction false} RunKeepsKeys(s: Settings, w: World, node: Node, acts: seq<Act>)
    requires Fixed(s, w) && "" !in node.labels
    ensures "" !in Run(s, w, node, acts).labels
    decreases |acts|
  {
    if acts != [] {
      if CanAct(s, w, acts[0]) {
        ActRank(s, w, node, acts[0]);
        RunKeepsKeys(s, w, Acted(s, w, node, acts[0]), acts[1..]);
      } else {
        RunKeepsKeys(s, w, node, acts[1..]);
      }
    }
  }

  // ------------------------------------------------ and it is reached

  /** A round: every sub-step the configuration allows is taken at least once, in any order, any number of
      times and with any listings. */
  ghost predicate IsRound(s: Settings, w: World, acts: seq<Act>) {
    && (exists i :: 0 <= i < |acts| && acts[i].step.Managed? && CanAct(s, w, acts[i]))
    && (forall step :: Allowed(s, w, step) && !step.Managed? ==> Takes(s, w, acts, step))
  }

  ghost predicate Takes(s: Settings, w: World, acts: seq<Act>, step: SubStep) {
    exists i :: 0 <= i < |acts| && acts[i].step == step && CanAct(s, w, acts[i])
  }

  /** A run that contains the act that moves the node moves it. */
  lemma {:induction false} RunWithMoverGains(s: Settings, w: World, node: Node, acts: seq<Act>, i: nat)
    requires Fixed(s, w) && "" !in node.labels && Rank(s, w, node) > 0 && i < |acts| && CanAct(s, w, acts[i])
    requires acts[i].step.Managed? <==> OutOfPlace(s, w, node)
    requires !acts[i].step.Managed? ==> Suits(s, w, PoolLabel(s, node), acts[i].step)
    ensures Rank(s, w, Run(s, w, node, acts)) < Rank(s, w, node)
    decreases |acts|
  {
    if i == 0 {
      SuitedMoves(s, w, node, acts[0]);
    }
    if !CanAct(s, w, acts[0]) {
      RunWithMoverGains(s, w, node, acts[1..], i - 1);
    } else {
      var after := Acted(s, w, node, acts[0]);
      ActRank(s, w, node, acts[0]);
      if PoolLabel(s, after) != PoolLabel(s, node) {
        MovesWithinRank(s, w, after, acts[1..]);
      } else {
        StepKeepsOthers(s, w.(pools := acts[0].listing), node, acts[0].step, false, false);
        RunWithMoverGains(s, w, after, acts[1..], i - 1);
      }
    }
  }

  lemma RoundGains(s: Settings, w: World, node: Node, acts: seq<Act>)
    requires Fixed(s, w) && "" !in node.labels && IsRound(s, w, acts) && Rank(s, w, node) > 0
    ensures Rank(s, w, Run(s, w, node, acts)) < Rank(s, w, node)
  {
    if OutOfPlace(s, w, node) {
      var i :| 0 <= i < |acts| && acts[i].step.Managed? && CanAct(s, w, acts[i]);
      RunWithMoverGains(s, w, node, acts, i);
    } else {
      var step := SomeStepSuits(s, w, node);
      assert Takes(s, w, acts, step);
      var i :| 0 <= i < |acts| && acts[i].step == step && CanAct(s, w, acts[i]);
      RunWithMoverGains(s, w, node, acts, i);
    }
  }

  lemma RoundKeepsSettled(s: Settings, w: World, node: Node, acts: seq<Act>)
    requires Fixed(s, w) && "" !in node.labels && IsRound(s, w, acts)
    ensures Rank(s, w, Run(s, w, node, acts)) <= if Rank(s, w, node) > 0 then Rank(s, w, node) - 1 else 0
  {
    if Rank(s, w, node) > 0 {
      RoundGains(s, w, node, acts);
    } else {
      MovesWithinRank(s, w, node, acts);
    }
  }

  /** Two rounds settle every node. */
  lemma SettlesInTwoRounds(s: Settings, w: World, node: Node, first: seq<Act>, second: seq<Act>)
    requires Fixed(s, w) && "" !in node.labels && IsRound(s, w, first) && IsRound(s, w, second)
    ensures Settled(s, w, Run(s, w, Run(s, w, node, first), second))
  {
    var halfway := Run(s, w, node, first);
    RunKeepsKeys(s, w, node, first);
    RunKeepsKeys(s, w, halfway, second);
    RoundKeepsSettled(s, w, node, first);
    RoundKeepsSettled(s, w, halfway, second);
    SettledIsRankZero(s, w, Run(s, w, halfway, second));
  }
}
