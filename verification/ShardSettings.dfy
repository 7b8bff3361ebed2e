/** A shard's settings through a node pool: the migration turns a shard's spec into a pool's config, and the
    pool's first reconcile writes that config back into the shard. */
module ShardSettings {
  import opened ShardArgs
  import opened Wrappers

  datatype Usage = Usage(connection: string, queries: Option<map<string, string>>, windowReadable: bool)

  datatype ShardSpec = ShardSpec(
    partition: string,
    args: map<string, string>,
    placement: Option<string>,
    queueDepth: map<string, int>,
    minRuntime: Option<string>,
    plugins: map<string, string>,
    actions: map<string, string>,
    usage: Option<Usage>)

  datatype FairShare = FairShare(connection: Option<string>, queries: map<string, string>)

  datatype Config = Config(
    args: map<string, string>,
    placement: Option<string>,
    queueDepth: map<string, int>,
    minRuntime: Option<string>,
    plugins: map<string, string>,
    actions: map<string, string>,
    fairShare: Option<FairShare>)

  /** What the controller writes whatever the config: cluster-wide args, and the worker label args. `kai`
      are KAI's own usage queries. */
  datatype Controller = Controller(defaultPool: string, clusterArgs: map<string, string>,
      workerArgs: map<string, string>, metrics: string, kai: map<string, string>)

  // ------------------------------------------------ usage queries

  /** KAI's own usage queries. */
  const KAI_QUERIES: map<string, string> := map[
    "gpuAllocationMetric" := "kai_queue_allocated_gpus",
    "cpuAllocationMetric" := "kai_queue_allocated_cpu_cores",
    "memoryAllocationMetric" := "kai_queue_allocated_memory_bytes",
    "gpuCapacityMetric" := "sum(kube_node_status_capacity{resource=\"nvidia_com_gpu\"})",
    "cpuCapacityMetric" := "sum(kube_node_status_capacity{resource=\"cpu\"})",
    "memoryCapacityMetric" := "sum(kube_node_status_capacity{resource=\"memory\"})"]

  /** The queries the controller fills in for a pool. */
  function PoolQueries(metrics: string, pool: string): seq<(string, string)> {
    [("gpuAllocationMetric", metrics + "_queue_allocated_gpus"),
     ("cpuAllocationMetric", metrics + "_queue_allocated_cpu_cores"),
     ("memoryAllocationMetric", metrics + "_queue_allocated_memory_bytes"),
     ("gpuCapacityMetric", "resources_per_nodepool{resource=\"nvidia_com_gpu\", nodepool=\"" + pool + "\"}"),
     ("cpuCapacityMetric", "resources_per_nodepool{resource=\"cpu\", nodepool=\"" + pool + "\"}"),
     ("memoryCapacityMetric", "resources_per_nodepool{resource=\"memory\", nodepool=\"" + pool + "\"}")]
  }

  function WithDefault(queries: map<string, string>, key: string, value: string): map<string, string> {
    if key in queries && queries[key] != "" then queries else queries[key := value]
  }

  /** A missing or empty query gets its default, one after the other. */
  function WithDefaults(queries: map<string, string>, defaults: seq<(string, string)>): map<string, string>
    decreases |defaults|
  {
    if defaults == [] then queries else WithDefaults(WithDefault(queries, defaults[0].0, defaults[0].1), defaults[1..])
  }

  /** The default at `i` is a non-empty one for the key, and the first one for it. */
  predicate IsFirstDefault(defaults: seq<(string, string)>, i: int, key: string) {
    && 0 <= i < |defaults| && defaults[i].0 == key && defaults[i].1 != ""
    && forall j :: 0 <= j < i ==> defaults[j].0 != key
  }

  /** A query that is set stays, one without a default stays as it is, and a missing or empty one gets its first
      default. */
  lemma {:induction false} DefaultsFillGaps(queries: map<string, string>, defaults: seq<(string, string)>, key: string)
    ensures var filled := WithDefaults(queries, defaults);
            && (key in queries && queries[key] != "" ==> key in filled && filled[key] == queries[key])
            && ((forall i :: 0 <= i < |defaults| ==> defaults[i].0 != key) ==>
                  (key in filled <==> key in queries) && (key in filled ==> filled[key] == queries[key]))
            && (!(key in queries && queries[key] != "") ==>
                  forall i :: IsFirstDefault(defaults, i, key) ==> key in filled && filled[key] == defaults[i].1)
    decreases |defaults|
  {
    if defaults != [] {
      var one := WithDefault(queries, defaults[0].0, defaults[0].1);
      DefaultsFillGaps(one, defaults[1..], key);
      forall i | IsFirstDefault(defaults, i, key) && i > 0 ensures IsFirstDefault(defaults[1..], i - 1, key) {
        assert defaults[1..][i - 1] == defaults[i];
      }
    }
  }

  // ------------------------------------------------ from shard to config

  /** The reverse of the pool's reconcile, with KAI's own usage queries given; none when the usage window cannot
      be read as a duration. */
  function ConfigFromShard(spec: ShardSpec, kai: map<string, string>): Option<Config> {
    if spec.usage.Some? && spec.usage.value.queries.Some? && !spec.usage.value.windowReadable then None
    else Some(Config(spec.args, spec.placement, spec.queueDepth, spec.minRuntime, spec.plugins, spec.actions,
                     if spec.usage.None? then None else Some(FairShareFrom(spec.usage.value, kai))))
  }

  /** KAI's own queries are written out, so that the pool's defaults do not replace them. */
  function FairShareFrom(usage: Usage, kai: map<string, string>): FairShare {
    FairShare(if usage.connection == "" then None else Some(usage.connection),
              kai + if usage.queries.Some? then usage.queries.value else map[])
  }

  // ------------------------------------------------ from config to shard

  function PartitionFor(controller: Controller, pool: string): string {
    if pool == controller.defaultPool then "" else pool
  }

  function PoolFor(controller: Controller, partition: string): string {
    if partition == "" then controller.defaultPool else partition
  }

  /** Later ones win: the config's args, the cluster's, the worker label args. */
  function BuildArgs(controller: Controller, config: Config): map<string, string> {
    (config.args + controller.clusterArgs) + controller.workerArgs
  }

  /** Every arg of the shard comes from the worker label args if they set it, else from the cluster's, else from the
      config, and no arg is lost or made up. */
  lemma ArgsComeFrom(controller: Controller, config: Config, key: string)
    ensures var args := BuildArgs(controller, config);
            && (key in args <==> key in config.args || key in controller.clusterArgs || key in controller.workerArgs)
            && (key in controller.workerArgs ==> args[key] == controller.workerArgs[key])
            && (key in controller.clusterArgs && key !in controller.workerArgs ==>
                  args[key] == controller.clusterArgs[key])
            && (key in config.args && key !in controller.clusterArgs && key !in controller.workerArgs ==>
                  args[key] == config.args[key])
  {
  }

  function UsageFor(controller: Controller, pool: string, config: Config): Option<Usage> {
    if config.fairShare.None? then None
    else
      var fair := config.fairShare.value;
      Some(Usage(if fair.connection.Some? then fair.connection.value else "",
                 Some(WithDefaults(fair.queries, PoolQueries(controller.metrics, pool))), true))
  }

  /** What a reconcile of the pool makes of its shard. */
  function Reconciled(controller: Controller, pool: string, config: Config, shard: Tracked,
                      listing: Listing): (ShardSpec, Tracked) {
    var tracked := Merged(shard, BuildArgs(controller, config), listing);
    (ShardSpec(PartitionFor(controller, pool), tracked.args, config.placement, config.queueDepth, config.minRuntime,
               config.plugins, config.actions, UsageFor(controller, pool, config)), tracked)
  }

  class ShardObject {
    var spec: ShardSpec
    var managed: Option<string>

    constructor (spec: ShardSpec, managed: Option<string>)
      ensures this.spec == spec && this.managed == managed
    {
      this.spec, this.managed := spec, managed;
    }

    /** Writes the pool's settings into its shard, field by field. */
    method WriteFrom(controller: Controller, pool: string, config: Config, listing: Listing)
      modifies this
      ensures (spec, Tracked(spec.args, managed)) ==
              Reconciled(controller, pool, config, old(Tracked(spec.args, managed)), listing)
    {
      var shard := new Shard(spec.args, managed);
      shard.MergeArgs(BuildArgs(controller, config), listing);
      managed := shard.managed;
      spec := spec.(args := shard.args, placement := config.placement);
      spec := spec.(partition := PartitionFor(controller, pool), queueDepth := config.queueDepth);
      spec := spec.(minRuntime := config.minRuntime, usage := UsageFor(controller, pool, config));
      spec := spec.(plugins := config.plugins, actions := config.actions);
    }
  }

  // ------------------------------------------------ what planning accepts

  /** The hook refuses an arg the controller would overwrite with another value; here the cluster's args win
      over the worker label args. */
  method CheckShardArgs(args: map<string, string>, clusterArgs: map<string, string>, workerArgs: map<string, string>)
    returns (ok: bool)
    ensures ok <==> ArgsAccepted(args, clusterArgs, workerArgs)
  {
    var controllerArgs := workerArgs + clusterArgs;
    ok := true;
    var rest := args.Keys;
    while rest != {}
      invariant rest <= args.Keys
      invariant ok <==> forall k :: k in args && k !in rest && k in controllerArgs ==> controllerArgs[k] == args[k]
      decreases rest
    {
      var key :| key in rest;
      rest := rest - {key};
      if key in controllerArgs && controllerArgs[key] != args[key] {
        ok := false;
      }
    }
  }

  ghost predicate ArgsAccepted(args: map<string, string>, clusterArgs: map<string, string>,
                               workerArgs: map<string, string>) {
    forall k :: k in args && (k in clusterArgs || k in workerArgs) ==>
        args[k] == if k in clusterArgs then clusterArgs[k] else workerArgs[k]
  }

  /** Every arg the shard had is still there with its value. */
  ghost predicate ArgsKept(before: map<string, string>, after: map<string, string>) {
    forall k :: k in before ==> k in after && after[k] == before[k]
  }

  /** The first reconcile after a migration, whether the shard was tracked before or not. */
  function FirstReconcile(controller: Controller, spec: ShardSpec, managed: Option<string>,
                          listing: Listing): Option<ShardSpec> {
    var config := ConfigFromShard(spec, controller.kai);
    if config.None? then None
    else Some(Reconciled(controller, PoolFor(controller, spec.partition), config.value, Tracked(spec.args, managed),
        listing).0)
  }

  // ------------------------------------------------ migration keeps settings

  ghost predicate Accepted(controller: Controller, spec: ShardSpec) {
    ArgsAccepted(spec.args, controller.clusterArgs, controller.workerArgs) &&
        ConfigFromShard(spec, controller.kai).Some?
  }

  /** The cluster's args and the worker label args agree on the keys both set. */
  ghost predicate ArgsAgree(controller: Controller) {
    forall k :: k in controller.clusterArgs && k in controller.workerArgs ==>
        controller.clusterArgs[k] == controller.workerArgs[k]
  }

  lemma OverlaysKeep(args: map<string, string>, kept: map<string, string>, controller: Controller)
    requires ArgsAgree(controller) && ArgsAccepted(args, controller.clusterArgs, controller.workerArgs)
    ensures ArgsKept(args, kept + ((args + controller.clusterArgs) + controller.workerArgs))
  {
  }

  lemma AgreeingArgsAreKept(controller: Controller, spec: ShardSpec, managed: Option<string>, listing: Listing)
    requires ArgsAgree(controller) && Accepted(controller, spec)
    ensures ArgsKept(spec.args, FirstReconcile(controller, spec, managed, listing).value.args)
  {
    var kept := if managed.Some? then spec.args - PreviouslyManaged(managed.value) else map[];
    OverlaysKeep(spec.args, kept, controller);
  }

  /** The args of every accepted shard, tracked before or not, survive exactly when the cluster's args agree
      with the worker label args on the keys both set. */
  lemma ArgsKeptIff(controller: Controller, managed: Option<string>, listing: Listing)
    ensures (forall spec :: Accepted(controller, spec) ==>
            ArgsKept(spec.args, FirstReconcile(controller, spec, managed, listing).value.args))
       <==> ArgsAgree(controller)
  {
    if ArgsAgree(controller) {
      forall spec | Accepted(controller, spec)
        ensures ArgsKept(spec.args, FirstReconcile(controller, spec, managed, listing).value.args)
      {
        AgreeingArgsAreKept(controller, spec, managed, listing);
      }
    } else {
      var k :| k in controller.clusterArgs && k in controller.workerArgs &&
          controller.clusterArgs[k] != controller.workerArgs[k];
      var spec := LostArg(controller, k, managed, listing);
    }
  }

  lemma LostArg(controller: Controller, k: string, managed: Option<string>, listing: Listing) returns (spec: ShardSpec)
    requires k in controller.clusterArgs && k in controller.workerArgs &&
             controller.clusterArgs[k] != controller.workerArgs[k]
    ensures Accepted(controller, spec) &&
            !ArgsKept(spec.args, FirstReconcile(controller, spec, managed, listing).value.args)
  {
    spec := ShardSpec("", map[k := controller.clusterArgs[k]], None, map[], None, map[], map[], None);
    var after := FirstReconcile(controller, spec, managed, listing).value;
    assert k in spec.args && after.args[k] == controller.workerArgs[k];
  }

  /** Everything but args and usage queries comes back as it was, for a partition not named after the
      default pool. */
  lemma SettingsComeBack(controller: Controller, spec: ShardSpec, managed: Option<string>, listing: Listing)
    requires ConfigFromShard(spec, controller.kai).Some?
    ensures var after := FirstReconcile(controller, spec, managed, listing).value;
            && after.placement == spec.placement && after.queueDepth == spec.queueDepth &&
                after.minRuntime == spec.minRuntime
            && after.plugins == spec.plugins && after.actions == spec.actions
            && (after.usage.Some? <==> spec.usage.Some?)
            && (spec.usage.Some? ==> after.usage.value.connection == spec.usage.value.connection)
            && (after.partition == spec.partition <==>
                spec.partition != controller.defaultPool || controller.defaultPool == "")
  {
  }

  /** The six queries KAI has defaults for are the six the pool fills in, and the defaults are not empty. */
  predicate ProperQueries(kai: map<string, string>, metrics: string, pool: string) {
    && (forall k :: k in kai ==> kai[k] != "")
    && (forall i :: 0 <= i < |PoolQueries(metrics, pool)| ==> PoolQueries(metrics, pool)[i].0 in kai)
  }

  lemma KaiQueriesAreProper(metrics: string, pool: string)
    ensures ProperQueries(KAI_QUERIES, metrics, pool)
  {
  }

  function QueriesAfter(controller: Controller, spec: ShardSpec): map<string, string>
    requires spec.usage.Some?
  {
    WithDefaults(FairShareFrom(spec.usage.value, controller.kai).queries,
                 PoolQueries(controller.metrics, PoolFor(controller, spec.partition)))
  }

  /** A query that is set is kept, one of KAI's that is missing becomes explicit, and no other query
      appears or changes. */
  lemma QueriesComeBack(controller: Controller, spec: ShardSpec, managed: Option<string>, listing: Listing, key: string)
    requires ConfigFromShard(spec, controller.kai).Some? && spec.usage.Some?
    requires ProperQueries(controller.kai, controller.metrics, PoolFor(controller, spec.partition))
    ensures var before := if spec.usage.value.queries.Some? then spec.usage.value.queries.value else map[];
            var after := QueriesAfter(controller, spec);
            && FirstReconcile(controller, spec, managed, listing).value.usage
               == Some(Usage(spec.usage.value.connection, Some(after), true))
            && (key in before && before[key] != "" ==> key in after && after[key] == before[key])
            && (key !in before && key in controller.kai ==> key in after && after[key] == controller.kai[key])
            && (key !in controller.kai && key !in before ==> key !in after)
            && (key !in controller.kai && key in before ==> key in after && after[key] == before[key])
  {
    var queries := PoolQueries(controller.metrics, PoolFor(controller, spec.partition));
    DefaultsFillGaps(FairShareFrom(spec.usage.value, controller.kai).queries, queries, key);
  }

  /** What a reconcile writes into a shard, setting by setting. The args the controller manages or managed are replaced,
      every other arg of a tracked shard stays, and a pool's usage queries are its own, completed by the defaults. */
  lemma ShardGets(controller: Controller, pool: string, config: Config, shard: Tracked, listing: Listing, key: string)
    ensures var (spec, tracked) := Reconciled(controller, pool, config, shard, listing);
            && (spec.partition == if pool == controller.defaultPool then "" else pool)
            && spec.placement == config.placement && spec.queueDepth == config.queueDepth
            && spec.minRuntime == config.minRuntime && spec.plugins == config.plugins && spec.actions == config.actions
            && (spec.usage.Some? <==> config.fairShare.Some?)
            && spec.args == tracked.args
            && (key in controller.workerArgs ==> key in spec.args && spec.args[key] == controller.workerArgs[key])
            && (key in controller.clusterArgs && key !in controller.workerArgs ==>
                  key in spec.args && spec.args[key] == controller.clusterArgs[key])
            && (key in config.args && key !in controller.clusterArgs && key !in controller.workerArgs ==>
                  key in spec.args && spec.args[key] == config.args[key])
            && (key !in config.args && key !in controller.clusterArgs && key !in controller.workerArgs ==>
                  (key in spec.args <==> key in shard.args && KeepsForeign(shard, key)) &&
                  (key in spec.args ==> spec.args[key] == shard.args[key]))
  {
    ArgsComeFrom(controller, config, key);
  }

  /** The shard is tracked and its annotation does not list the key. */
  predicate KeepsForeign(shard: Tracked, key: string) {
    shard.managed.Some? && key !in PreviouslyManaged(shard.managed.value)
  }

  /** The usage a pool's reconcile writes: its queries that are set, then the first defaults, and its connection. */
  lemma UsageIs(controller: Controller, pool: string, config: Config, key: string)
    requires config.fairShare.Some?
    ensures var fair := config.fairShare.value;
            var usage := UsageFor(controller, pool, config);
            var defaults := PoolQueries(controller.metrics, pool);
            && usage.Some? && usage.value.queries.Some?
            && (usage.value.connection == if fair.connection.Some? then fair.connection.value else "")
            && (key in fair.queries && fair.queries[key] != "" ==>
                  key in usage.value.queries.value && usage.value.queries.value[key] == fair.queries[key])
            && (!(key in fair.queries && fair.queries[key] != "") ==>
                  forall i :: IsFirstDefault(defaults, i, key) ==>
                    key in usage.value.queries.value && usage.value.queries.value[key] == defaults[i].1)
  {
    DefaultsFillGaps(config.fairShare.value.queries, PoolQueries(controller.metrics, pool), key);
  }
}
