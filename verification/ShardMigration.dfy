/** The upgrade hook that hands pre-existing scheduling shards to node pools: it plans first and writes
    nothing if any check fails, and it may be stopped after any write and run again. */
module ShardMigration {
  import opened ShardSettings
  import opened Wrappers

  /** The controller of a shard: a node pool, or something else. */
  datatype Owner = NodePoolOwner(name: string, uid: string) | OtherOwner(name: string)

  datatype ShardObject = ShardObject(labels: map<string, string>, owner: Option<Owner>, spec: ShardSpec)

  datatype NodePool = NodePool(uid: string, labelKey: string, labelValue: string, config: Option<Config>)

  datatype Store = Store(shards: map<string, ShardObject>, pools: map<string, NodePool>)

  /** The hook's settings; `adoption` is the label an adopted shard gets, `ignoreKey` the label of a shard an
      administrator keeps out, `kaiKey` the label KAI reads partitions from if it is configured, `uidFor`
      the UIDs the API server will give to new pools. */
  datatype Options = Options(
    partitionKey: string,
    defaultPool: string,
    clusterArgs: map<string, string>,
    workerArgs: map<string, string>,
    ensureDefault: bool,
    defaultSpec: NodePool,
    kaiKey: Option<string>,
    validName: string -> bool,
    kai: map<string, string>,
    adoption: (string, string),
    ignoreKey: string,
    uidFor: string -> string)

  // ------------------------------------------------ planning

  predicate IsUnmanaged(o: Options, shard: ShardObject) {
    && o.ignoreKey in shard.labels && shard.labels[o.ignoreKey] == "true"
    && shard.spec.partition != ""
    && !(shard.owner.Some? && shard.owner.value.NodePoolOwner?)
  }

  predicate IsPending(o: Options, shard: ShardObject) { shard.owner.None? && !IsUnmanaged(o, shard) }

  function Pending(st: Store, o: Options): set<string> { set n | n in st.shards && IsPending(o, st.shards[n]) }

  function TargetPool(o: Options, shard: ShardObject): string {
    if shard.spec.partition == "" then o.defaultPool else shard.spec.partition
  }

  predicate NameAccepted(o: Options, partition: string) {
    partition == "" || (partition != o.defaultPool && o.validName(partition))
  }

  predicate Alone(st: Store, n: string)
    requires n in st.shards
  {
    forall m :: m in st.shards && st.shards[m].spec.partition == st.shards[n].spec.partition ==> m == n
  }

  /** An existing pool selects the very nodes the shard serves. */
  predicate SelectsPartition(st: Store, o: Options, shard: ShardObject) {
    var target := TargetPool(o, shard);
    target in st.pools && shard.spec.partition != "" ==>
      st.pools[target].labelKey == o.partitionKey && st.pools[target].labelValue == shard.spec.partition
  }

  ghost predicate Accepts(st: Store, o: Options, n: string)
    requires n in st.shards
  {
    var shard := st.shards[n];
    && (shard.spec.partition == "" ==> o.ensureDefault)
    && Alone(st, n)
    && NameAccepted(o, shard.spec.partition)
    && ArgsAccepted(shard.spec.args, o.clusterArgs, o.workerArgs)
    && ConfigFromShard(shard.spec, o.kai).Some?
    && SelectsPartition(st, o, shard)
  }

  /** With nothing to migrate there is nothing to check. */
  ghost predicate PlanOk(st: Store, o: Options) {
    Pending(st, o) != {} ==>
      && (o.kaiKey.Some? ==> o.kaiKey.value == o.partitionKey)
      && (forall n {:trigger Accepts(st, o, n)} :: n in Pending(st, o) ==> Accepts(st, o, n))
  }

  /** Distinct shards are never handed to the same pool. */
  lemma DistinctTargets(st: Store, o: Options, m: string, n: string)
    requires PlanOk(st, o) && m in Pending(st, o) && n in Pending(st, o)
    requires TargetPool(o, st.shards[m]) == TargetPool(o, st.shards[n])
    ensures m == n
  {
    assert Accepts(st, o, m) && Accepts(st, o, n);
  }

  // ------------------------------------------------ writing

  /** The shard owned by its pool. */
  function HandedOver(o: Options, shard: ShardObject, pool: NodePool): ShardObject {
    var labels := shard.labels[o.adoption.0 := o.adoption.1];
    ShardObject(if shard.spec.partition == "" then labels - {o.ignoreKey} else labels,
                Some(NodePoolOwner(TargetPool(o, shard), pool.uid)), shard.spec)
  }

  /** The pool made for the shard, or the existing one with the shard's settings. */
  function PoolWith(pools: map<string, NodePool>, o: Options, shard: ShardObject): NodePool {
    var target, config := TargetPool(o, shard), ConfigFromShard(shard.spec, o.kai);
    if target in pools then pools[target].(config := config)
    else if shard.spec.partition == "" then NodePool(o.uidFor(target), "", "", config)
    else NodePool(o.uidFor(target), o.partitionKey, shard.spec.partition, config)
  }

  ghost predicate IsTarget(st: Store, o: Options, some: set<string>, pool: string)
    requires some <= st.shards.Keys
  {
    exists n :: n in some && TargetPool(o, st.shards[n]) == pool
  }

  /** The store once the pools of some shards are written and some shards handed over. */
  ghost function At(st: Store, o: Options, handed: set<string>, touched: set<string>): Store
    requires handed <= st.shards.Keys && touched <= st.shards.Keys
  {
    Store(map n | n in st.shards ::
            if n in handed then HandedOver(o, st.shards[n], PoolWith(st.pools, o, st.shards[n])) else st.shards[n],
          PoolsAt(st, o, touched))
  }

  ghost function PoolsAt(st: Store, o: Options, touched: set<string>): map<string, NodePool>
    requires touched <= st.shards.Keys
  {
    map p | p in st.pools.Keys + (set n | n in touched :: TargetPool(o, st.shards[n])) ::
      if IsTarget(st, o, touched, p) then
        var n :| n in touched && TargetPool(o, st.shards[n]) == p;
        PoolWith(st.pools, o, st.shards[n])
      else st.pools[p]
  }

  function EnsureDefault(st: Store, o: Options): Store {
    if o.ensureDefault && o.defaultPool !in st.pools
        then st.(pools := st.pools[o.defaultPool := o.defaultSpec.(uid := o.uidFor(o.defaultPool))]) else st
  }

  /** Where an uninterrupted run ends. */
  ghost function Final(st: Store, o: Options): Store {
    EnsureDefault(At(st, o, Pending(st, o), Pending(st, o)), o)
  }

  // ------------------------------------------------ stopping and running again

  lemma TouchedPool(st: Store, o: Options, touched: set<string>, n: string)
    requires PlanOk(st, o) && touched <= Pending(st, o) && n in touched
    ensures var p := TargetPool(o, st.shards[n]);
            p in PoolsAt(st, o, touched) && PoolsAt(st, o, touched)[p] == PoolWith(st.pools, o, st.shards[n])
  {
    var p := TargetPool(o, st.shards[n]);
    forall m | m in touched && TargetPool(o, st.shards[m]) == p
      ensures m == n
    {
      DistinctTargets(st, o, m, n);
    }
  }

  lemma StillPending(st: Store, o: Options, handed: set<string>, touched: set<string>)
    requires handed <= Pending(st, o) && touched <= Pending(st, o)
    ensures Pending(At(st, o, handed, touched), o) == Pending(st, o) - handed
  {
  }

  /** The pool of a shard, written or not yet, still fits the shard and would be written the same. */
  lemma SamePoolWith(st: Store, o: Options, touched: set<string>, n: string)
    requires PlanOk(st, o) && touched <= Pending(st, o) && n in Pending(st, o)
    ensures SelectsPartition(st.(pools := PoolsAt(st, o, touched)), o, st.shards[n])
    ensures PoolWith(PoolsAt(st, o, touched), o, st.shards[n]) == PoolWith(st.pools, o, st.shards[n])
  {
    assert Accepts(st, o, n);
    var p := TargetPool(o, st.shards[n]);
    if n in touched {
      TouchedPool(st, o, touched, n);
    } else {
      forall m | m in touched
        ensures TargetPool(o, st.shards[m]) != p
      {
        if TargetPool(o, st.shards[m]) == p {
          DistinctTargets(st, o, m, n);
        }
      }
      assert !IsTarget(st, o, touched, p);
      assert p in PoolsAt(st, o, touched) <==> p in st.pools;
    }
  }

  lemma StillAccepted(st: Store, o: Options, handed: set<string>, touched: set<string>)
    requires PlanOk(st, o) && handed <= Pending(st, o) && touched <= Pending(st, o)
    ensures PlanOk(At(st, o, handed, touched), o)
  {
    var t := At(st, o, handed, touched);
    StillPending(st, o, handed, touched);
    forall n | n in Pending(t, o)
      ensures Accepts(t, o, n)
    {
      assert Accepts(st, o, n);
      SamePoolWith(st, o, touched, n);
    }
  }

  lemma SamePoolInTheEnd(st: Store, o: Options, handed: set<string>, touched: set<string>, p: string)
    requires PlanOk(st, o) && handed <= touched <= Pending(st, o)
    ensures var t, rest := At(st, o, handed, touched), Pending(st, o) - handed;
            && (p in PoolsAt(t, o, rest) <==> p in PoolsAt(st, o, Pending(st, o)))
            && (p in PoolsAt(t, o, rest) ==> PoolsAt(t, o, rest)[p] == PoolsAt(st, o, Pending(st, o))[p])
  {
    var t, rest := At(st, o, handed, touched), Pending(st, o) - handed;
    StillAccepted(st, o, handed, touched);
    StillPending(st, o, handed, touched);
    if n :| n in Pending(st, o) && TargetPool(o, st.shards[n]) == p {
      TouchedPool(st, o, Pending(st, o), n);
      if n in rest {
        TouchedPool(t, o, rest, n);
        SamePoolWith(st, o, touched, n);
      } else {
        TouchedPool(st, o, touched, n);
        forall m | m in rest
          ensures TargetPool(o, t.shards[m]) != p
        {
          if TargetPool(o, st.shards[m]) == p {
            DistinctTargets(st, o, m, n);
          }
        }
        assert !IsTarget(t, o, rest, p);
      }
    } else {
      assert !IsTarget(st, o, touched, p) && !IsTarget(t, o, rest, p) && !IsTarget(st, o, Pending(st, o), p);
    }
  }

  lemma SamePoolsInTheEnd(st: Store, o: Options, handed: set<string>, touched: set<string>)
    requires PlanOk(st, o) && handed <= touched <= Pending(st, o)
    ensures PoolsAt(At(st, o, handed, touched), o, Pending(st, o) - handed) == PoolsAt(st, o, Pending(st, o))
  {
    var a, b := PoolsAt(At(st, o, handed, touched), o, Pending(st, o) - handed), PoolsAt(st, o, Pending(st, o));
    forall p
      ensures SameAt(a, b, p)
    {
      SamePoolInTheEnd(st, o, handed, touched, p);
    }
    SameMaps(a, b);
  }

  lemma SameShardInTheEnd(st: Store, o: Options, handed: set<string>, touched: set<string>, n: string)
    requires PlanOk(st, o) && handed <= touched <= Pending(st, o) && n in st.shards
    ensures var t, rest := At(st, o, handed, touched), Pending(st, o) - handed;
            At(t, o, rest, rest).shards[n] == At(st, o, Pending(st, o), Pending(st, o)).shards[n]
  {
    if n in Pending(st, o) - handed {
      SamePoolWith(st, o, touched, n);
    }
  }

  lemma SameShardsInTheEnd(st: Store, o: Options, handed: set<string>, touched: set<string>)
    requires PlanOk(st, o) && handed <= touched <= Pending(st, o)
    ensures var t, rest := At(st, o, handed, touched), Pending(st, o) - handed;
            At(t, o, rest, rest).shards == At(st, o, Pending(st, o), Pending(st, o)).shards
  {
    var rest := Pending(st, o) - handed;
    var a := At(At(st, o, handed, touched), o, rest, rest).shards;
    var b := At(st, o, Pending(st, o), Pending(st, o)).shards;
    assert a.Keys == st.shards.Keys == b.Keys;
    forall n | n in st.shards ensures a[n] == b[n] {
      SameShardInTheEnd(st, o, handed, touched, n);
    }
    EqualMaps(a, b);
  }

  lemma EqualMaps(a: map<string, ShardObject>, b: map<string, ShardObject>)
    requires a.Keys == b.Keys && forall n :: n in a ==> a[n] == b[n]
    ensures a == b
  {
  }

  /** Wherever a run was stopped, the checks pass again and a new run ends where the first would have. */
  lemma StoppedRunResumes(st: Store, o: Options, handed: set<string>, touched: set<string>)
    requires PlanOk(st, o) && handed <= touched <= Pending(st, o)
    ensures PlanOk(At(st, o, handed, touched), o)
    ensures Final(At(st, o, handed, touched), o) == Final(st, o)
  {
    StillAccepted(st, o, handed, touched);
    StillPending(st, o, handed, touched);
    SamePoolsInTheEnd(st, o, handed, touched);
    SameShardsInTheEnd(st, o, handed, touched);
  }

  /** A finished migration is left as it is. */
  lemma FinalIsFinal(st: Store, o: Options)
    requires PlanOk(st, o)
    ensures Pending(Final(st, o), o) == {} && PlanOk(Final(st, o), o) && Final(Final(st, o), o) == Final(st, o)
  {
    var done, t := At(st, o, Pending(st, o), Pending(st, o)), Final(st, o);
    StillPending(st, o, Pending(st, o), Pending(st, o));
    assert Pending(t, o) == Pending(done, o) == {} by {
      assert t.shards == done.shards;
    }
    NothingWritten(t, o);
  }

  /** In the end every pending shard is adopted and owned by its own pool; no other shard has changed. */
  lemma FinalHandsOver(st: Store, o: Options, n: string)
    requires n in st.shards && o.adoption.0 != o.ignoreKey
    ensures n in Final(st, o).shards
    ensures var before, after := st.shards[n], Final(st, o).shards[n];
            if n in Pending(st, o) then
              && after.owner.Some? && after.owner.value.NodePoolOwner? &&
                  after.owner.value.name == TargetPool(o, before)
              && after.spec == before.spec
              && o.adoption.0 in after.labels && after.labels[o.adoption.0] == o.adoption.1
              && (before.spec.partition == "" ==> o.ignoreKey !in after.labels)
            else after == before
  {
  }

  /** And that pool selects the shard's partition and carries its settings. */
  lemma FinalPoolFits(st: Store, o: Options, n: string)
    requires PlanOk(st, o) && n in Pending(st, o)
    ensures var partition, target := st.shards[n].spec.partition, TargetPool(o, st.shards[n]);
            && target in Final(st, o).pools
            && var pool := Final(st, o).pools[target];
               && Final(st, o).shards[n].owner == Some(NodePoolOwner(target, pool.uid))
               && pool.config == ConfigFromShard(st.shards[n].spec, o.kai)
               && (partition != "" ==> pool.labelKey == o.partitionKey && pool.labelValue == partition)
  {
    assert Accepts(st, o, n);
    TouchedPool(st, o, Pending(st, o), n);
  }

  /** The pools of a finished migration: the old ones, the pools of pending shards and, if it is to be ensured, the
      default one, and no others. */
  lemma FinalPoolNames(st: Store, o: Options, p: string)
    ensures p in Final(st, o).pools <==>
            || p in st.pools
            || (exists n :: n in Pending(st, o) && p == if st.shards[n].spec.partition == "" then o.defaultPool
                                                        else st.shards[n].spec.partition)
            || (o.ensureDefault && p == o.defaultPool)
  {
    var done := PoolsAt(st, o, Pending(st, o));
    if n :| n in Pending(st, o) && TargetPool(o, st.shards[n]) == p {
      assert p in done;
    } else {
      UntouchedPool(st, o, Pending(st, o), p);
    }
  }

  /** A pool that is no pending shard's is left as it was; a default pool that nothing else made is as given. */
  lemma FinalKeepsOtherPools(st: Store, o: Options, p: string)
    requires forall n :: n in Pending(st, o) ==> TargetPool(o, st.shards[n]) != p
    ensures p in st.pools ==> p in Final(st, o).pools && Final(st, o).pools[p] == st.pools[p]
    ensures p !in st.pools && o.ensureDefault && p == o.defaultPool ==>
            p in Final(st, o).pools && Final(st, o).pools[p] == o.defaultSpec.(uid := o.uidFor(o.defaultPool))
  {
    UntouchedPool(st, o, Pending(st, o), p);
  }

  /** A pool made for a shard is new, or the old one with nothing but its settings changed. */
  lemma FinalPoolIsOldOrNew(st: Store, o: Options, n: string)
    requires PlanOk(st, o) && n in Pending(st, o)
    ensures var p, partition := TargetPool(o, st.shards[n]), st.shards[n].spec.partition;
            && p in Final(st, o).pools
            && var pool := Final(st, o).pools[p];
               if p in st.pools then
                 pool.uid == st.pools[p].uid && pool.labelKey == st.pools[p].labelKey &&
                     pool.labelValue == st.pools[p].labelValue
               else
                 && pool.uid == o.uidFor(p) && pool.labelValue == partition
                 && pool.labelKey == if partition == "" then "" else o.partitionKey
  {
    TouchedPool(st, o, Pending(st, o), n);
  }

  /** Pending are the shards without a controller, but for those of a partition of their own that are labelled to
      be left alone. */
  lemma PendingIff(st: Store, o: Options, n: string)
    ensures n in Pending(st, o) <==>
            && n in st.shards && st.shards[n].owner.None?
            && !(LabelIs(st.shards[n].labels, o.ignoreKey, "true") && st.shards[n].spec.partition != "")
  {
  }

  predicate LabelIs(labels: map<string, string>, key: string, value: string) { key in labels && labels[key] == value }

  /** Why the hook refuses a pending shard. */
  datatype Reason =
    | DefaultNotEnsured
    | PartitionShared(other: string)
    | NamedAsDefault
    | InvalidName
    | ArgOverwritten(key: string)
    | WindowUnreadable
    | PoolSelectsOthers

  ghost predicate Applies(st: Store, o: Options, n: string, why: Reason)
    requires n in st.shards
  {
    var spec := st.shards[n].spec;
    match why
    case DefaultNotEnsured => spec.partition == "" && !o.ensureDefault
    case PartitionShared(other) => other in st.shards && other != n && st.shards[other].spec.partition == spec.partition
    case NamedAsDefault => spec.partition != "" && spec.partition == o.defaultPool
    case InvalidName => spec.partition != "" && !o.validName(spec.partition)
    case ArgOverwritten(key) =>
      && key in spec.args
      && (key in o.clusterArgs || key in o.workerArgs)
      && spec.args[key] != (if key in o.clusterArgs then o.clusterArgs[key] else o.workerArgs[key])
    case WindowUnreadable => spec.usage.Some? && spec.usage.value.queries.Some? && !spec.usage.value.windowReadable
    case PoolSelectsOthers =>
      && spec.partition != "" && spec.partition in st.pools
      && (st.pools[spec.partition].labelKey != o.partitionKey || st.pools[spec.partition].labelValue != spec.partition)
  }

  lemma AcceptedIff(st: Store, o: Options, n: string)
    requires n in st.shards
    ensures Accepts(st, o, n) <==> forall why :: !Applies(st, o, n, why)
  {
    if Accepts(st, o, n) {
      forall why ensures !Applies(st, o, n, why) {
      }
    } else {
      var spec := st.shards[n].spec;
      if !Alone(st, n) {
        var m :| m in st.shards && st.shards[m].spec.partition == spec.partition && m != n;
        assert Applies(st, o, n, PartitionShared(m));
      } else if !ArgsAccepted(spec.args, o.clusterArgs, o.workerArgs) {
        var k :| k in spec.args && (k in o.clusterArgs || k in o.workerArgs)
                 && spec.args[k] != if k in o.clusterArgs then o.clusterArgs[k] else o.workerArgs[k];
        assert Applies(st, o, n, ArgOverwritten(k));
      } else {
        assert || Applies(st, o, n, DefaultNotEnsured) || Applies(st, o, n, NamedAsDefault) ||
               Applies(st, o, n, InvalidName)
               || Applies(st, o, n, WindowUnreadable) || Applies(st, o, n, PoolSelectsOthers);
      }
    }
  }

  /** The hook refuses exactly when some shard is pending and KAI reads partitions from another label, or some
      reason applies to a pending shard. */
  lemma RefusedIff(st: Store, o: Options)
    ensures !PlanOk(st, o) <==>
            && (exists n :: n in Pending(st, o))
            && (|| (o.kaiKey.Some? && o.kaiKey.value != o.partitionKey)
                || (exists n, why :: n in Pending(st, o) && Applies(st, o, n, why)))
  {
    forall n | n in Pending(st, o)
      ensures Accepts(st, o, n) <==> forall why :: !Applies(st, o, n, why)
    {
      AcceptedIff(st, o, n);
    }
  }

  // ------------------------------------------------ the hook

  datatype Outcome =
    /** Some check failed. */
    | Refused
    /** The run was stopped between two writes. */
    | Stopped
    | Finished

  /** So many more writes may be made. */
  predicate Enough(left: Option<nat>, writes: nat) { left.None? || left.value >= writes }

  class Migrator {
    var shards: map<string, ShardObject>
    var pools: map<string, NodePool>

    constructor (shards: map<string, ShardObject>, pools: map<string, NodePool>)
      ensures this.shards == shards && this.pools == pools
    {
      this.shards, this.pools := shards, pools;
    }

    function Value(): Store
      reads this
    {
      Store(shards, pools)
    }

    /** The shards that serve each partition. */
    method ShardsPerPartition() returns (per: map<string, set<string>>)
      ensures forall n :: n in shards ==>
              shards[n].spec.partition in per &&
              per[shards[n].spec.partition] == Serving(shards, shards.Keys, shards[n].spec.partition)
    {
      per := map[];
      var rest := shards.Keys;
      while rest != {}
        invariant rest <= shards.Keys
        invariant forall p :: p in per ==> per[p] == Serving(shards, shards.Keys - rest, p)
        invariant forall n :: n in shards && n !in rest ==> shards[n].spec.partition in per
        decreases rest
      {
        var n :| n in rest;
        rest := rest - {n};
        var p := shards[n].spec.partition;
        assert p !in per ==> Serving(shards, shards.Keys - rest - {n}, p) == {};
        per := per[p := (if p in per then per[p] else {}) + {n}];
      }
      assert shards.Keys - rest == shards.Keys;
    }

    method CheckShard(o: Options, n: string, serving: set<string>) returns (ok: bool)
      requires n in shards && serving == Serving(shards, shards.Keys, shards[n].spec.partition)
      ensures ok <==> Accepts(Value(), o, n)
    {
      var shard := shards[n];
      AloneIff(Value(), n, serving);
      if shard.spec.partition == "" && !o.ensureDefault {
        return false;
      }
      if serving - {n} != {} || !NameAccepted(o, shard.spec.partition) {
        return false;
      }
      var accepted := CheckShardArgs(shard.spec.args, o.clusterArgs, o.workerArgs);
      return accepted && ConfigFromShard(shard.spec, o.kai).Some? && SelectsPartition(Value(), o, shard);
    }

    /** Checks everything before anything is written. */
    method Plan(o: Options) returns (ok: bool)
      ensures ok <==> PlanOk(Value(), o)
    {
      var rest := Pending(Value(), o);
      if rest == {} {
        return true;
      }
      ok := o.kaiKey.Some? ==> o.kaiKey.value == o.partitionKey;
      var per := ShardsPerPartition();
      ghost var key := ok;
      while rest != {}
        invariant rest <= Pending(Value(), o)
        invariant ok <==> key && forall n :: n in Pending(Value(), o) && n !in rest ==> Accepts(Value(), o, n)
        decreases rest
      {
        var n :| n in rest;
        rest := rest - {n};
        var accepted := CheckShard(o, n, per[shards[n].spec.partition]);
        ok := ok && accepted;
      }
    }

    /** Writes the pool of one shard and hands the shard over, or stops before either write. */
    method Migrate(o: Options, start: Store, ghost done: set<string>, n: string, left: Option<nat>)
      requires PlanOk(start, o) && done <= Pending(start, o) && n in Pending(start, o) &&
               Value() == At(start, o, done, done)
      modifies this
      ensures Value() == At(start, o, if Enough(left, 2) then done + {n} else done,
                            if Enough(left, 1) then done + {n} else done)
    {
      if !Enough(left, 1) {
        return;
      }
      PoolWritten(start, o, done, n);
      pools := pools[TargetPool(o, start.shards[n]) := PoolWith(start.pools, o, start.shards[n])];
      if !Enough(left, 2) {
        return;
      }
      ShardHanded(start, o, done, done + {n}, n);
      shards := shards[n := HandedOver(o, start.shards[n], PoolWith(start.pools, o, start.shards[n]))];
    }

    /** Migrates the pending shards in any order; `stopped` when the writes ran out first. */
    method MigrateAll(o: Options, start: Store, limit: Option<nat>) returns (stopped: bool, left: Option<nat>)
      requires PlanOk(start, o) && Value() == start
      modifies this
      ensures stopped ==> StoppedAt(start, o, Value())
      ensures !stopped ==> Value() == At(start, o, Pending(start, o), Pending(start, o))
      ensures limit.None? ==> !stopped && left.None?
    {
      var rest := Pending(start, o);
      ghost var pending, done := rest, {};
      left := limit;
      NothingWritten(start, o);
      while rest != {}
        invariant done !! rest && done + rest == pending
        invariant Value() == At(start, o, done, done)
        invariant limit.None? ==> left.None?
        decreases rest
      {
        var n :| n in rest;
        Migrate(o, start, done, n, left);
        if !Enough(left, 2) {
          StoppedHere(start, o, done, if Enough(left, 1) then done + {n} else done);
          return true, Some(0);
        }
        rest, done := rest - {n}, done + {n};
        left := if left.Some? then Some(left.value - 2) else None;
      }
      assert done == pending;
      stopped := false;
    }

    /** Runs the hook; with a limit, it is stopped once it has made that many writes and wants to make more. */
    method MigrateShards(o: Options, limit: Option<nat>) returns (outcome: Outcome)
      modifies this
      ensures outcome.Refused? <==> !PlanOk(old(Value()), o)
      ensures outcome.Refused? ==> Value() == old(Value())
      ensures outcome.Stopped? ==> StoppedAt(old(Value()), o, Value())
      ensures outcome.Finished? ==> Value() == Final(old(Value()), o)
      ensures limit.None? ==> !outcome.Stopped?
    {
      var accepted := Plan(o);
      if !accepted {
        return Refused;
      }
      var stopped, left := MigrateAll(o, Value(), limit);
      if stopped {
        return Stopped;
      }
      if o.ensureDefault && o.defaultPool !in pools {
        if !Enough(left, 1) {
          return Stopped;
        }
        pools := pools[o.defaultPool := o.defaultSpec.(uid := o.uidFor(o.defaultPool))];
      }
      outcome := Finished;
    }

    /** Stopped any number of times, anywhere, the migration ends where one full run would. */
    method MigrateWithInterruptions(o: Options, limits: seq<nat>)
      requires PlanOk(Value(), o)
      modifies this
      ensures Value() == Final(old(Value()), o)
    {
      ghost var start := Value();
      for i := 0 to |limits|
        invariant PlanOk(Value(), o) && Final(Value(), o) == Final(start, o)
      {
        ghost var before := Value();
        var outcome := MigrateShards(o, Some(limits[i]));
        if outcome.Stopped? {
          ghost var handed, touched :| handed <= touched <= Pending(before, o) &&
              Value() == At(before, o, handed, touched);
          StoppedRunResumes(before, o, handed, touched);
        } else {
          FinalIsFinal(before, o);
        }
      }
      var _ := MigrateShards(o, None);
    }
  }

  function Serving(shards: map<string, ShardObject>, some: set<string>, partition: string): set<string>
    requires some <= shards.Keys
  {
    set n | n in some && shards[n].spec.partition == partition
  }

  lemma NothingWritten(st: Store, o: Options)
    ensures At(st, o, {}, {}) == st
  {
  }

  /** The store of a run that was stopped: every shard handed over has its pool written. */
  ghost predicate StoppedAt(st: Store, o: Options, t: Store) {
    exists handed, touched :: handed <= touched <= Pending(st, o) && t == At(st, o, handed, touched)
  }

  lemma StoppedHere(st: Store, o: Options, handed: set<string>, touched: set<string>)
    requires handed <= touched <= Pending(st, o)
    ensures StoppedAt(st, o, At(st, o, handed, touched))
  {
  }

  lemma ShardHanded(st: Store, o: Options, handed: set<string>, touched: set<string>, n: string)
    requires handed <= st.shards.Keys && touched <= st.shards.Keys && n in st.shards
    ensures At(st, o, handed + {n}, touched).shards ==
            At(st, o, handed, touched).shards[n := HandedOver(o, st.shards[n], PoolWith(st.pools, o, st.shards[n]))]
  {
  }

  lemma UntouchedPool(st: Store, o: Options, touched: set<string>, p: string)
    requires touched <= st.shards.Keys && !IsTarget(st, o, touched, p)
    ensures p in PoolsAt(st, o, touched) <==> p in st.pools
    ensures p in st.pools ==> PoolsAt(st, o, touched)[p] == st.pools[p]
  {
  }

  ghost predicate SameAt(a: map<string, NodePool>, b: map<string, NodePool>, q: string) {
    (q in a <==> q in b) && (q in a ==> a[q] == b[q])
  }

  lemma SameMaps(a: map<string, NodePool>, b: map<string, NodePool>)
    requires forall q :: SameAt(a, b, q)
    ensures a == b
  {
    assert forall q :: q in a ==> SameAt(a, b, q);
    assert forall q :: q in b ==> SameAt(a, b, q);
  }

  lemma PoolWrittenAt(st: Store, o: Options, touched: set<string>, n: string, q: string)
    requires PlanOk(st, o) && touched <= Pending(st, o) && n in Pending(st, o)
    ensures var p := TargetPool(o, st.shards[n]);
            SameAt(PoolsAt(st, o, touched + {n}), PoolsAt(st, o, touched)[p := PoolWith(st.pools, o, st.shards[n])], q)
  {
    if q == TargetPool(o, st.shards[n]) {
      TouchedPool(st, o, touched + {n}, n);
    } else if m :| m in touched && TargetPool(o, st.shards[m]) == q {
      TouchedPool(st, o, touched + {n}, m);
      TouchedPool(st, o, touched, m);
    } else {
      UntouchedPool(st, o, touched + {n}, q);
      UntouchedPool(st, o, touched, q);
    }
  }

  lemma PoolWritten(st: Store, o: Options, touched: set<string>, n: string)
    requires PlanOk(st, o) && touched <= Pending(st, o) && n in Pending(st, o)
    ensures var p := TargetPool(o, st.shards[n]);
            PoolsAt(st, o, touched + {n}) == PoolsAt(st, o, touched)[p := PoolWith(st.pools, o, st.shards[n])]
  {
    var p := TargetPool(o, st.shards[n]);
    var a, b := PoolsAt(st, o, touched + {n}), PoolsAt(st, o, touched)[p := PoolWith(st.pools, o, st.shards[n])];
    forall q
      ensures SameAt(a, b, q)
    {
      PoolWrittenAt(st, o, touched, n, q);
    }
    SameMaps(a, b);
  }

  lemma AloneIff(st: Store, n: string, serving: set<string>)
    requires n in st.shards && serving == Serving(st.shards, st.shards.Keys, st.shards[n].spec.partition)
    ensures Alone(st, n) <==> serving - {n} == {}
  {
    if serving - {n} == {} {
      forall m | m in st.shards && st.shards[m].spec.partition == st.shards[n].spec.partition
        ensures m == n
      {
        assert m in serving && m !in serving - {n};
      }
    }
  }
}
