/** The list of node pools a workload requests, and the round trip from a project's default pools
    through a pod's affinity back to that list. */
module PoolRoundTrip {
  import opened Affinity
  import opened Strings
  import opened NodePoolNames
  import opened Wrappers

  /** Everything a requested list can come from besides the object's own labels. */
  datatype Sources = Sources(
    annotations: map<string, string>,
    affinity: Option<Affinity>,
    ignoreConversionErrors: bool,
    projectDefaults: Option<seq<string>>)

  /** The requested pools: the pods' annotation, else their affinity, else the object's pool label
      unless it is the sentinel, else the project's defaults, else the default pool. */
  function Requested(ids: Identifiers, pools: seq<NodePool>, labels: map<string, string>,
                     sources: Sources): (r: Result<seq<string>>)
    ensures r.Ok? ==> r.value != []
  {
    var notes := sources.annotations;
    if ids.annotationKey in notes && notes[ids.annotationKey] != "" then Ok(Split(notes[ids.annotationKey], ' '))
    else
      var converted := if sources.affinity.Some? then Converted(ids, pools, sources.affinity) else Ok([]);
      if converted.Failed? && !sources.ignoreConversionErrors then Failed
      else if converted.Ok? && converted.value != [] then converted
      else if ids.poolKey in labels && labels[ids.poolKey] != ids.sentinel then Ok([labels[ids.poolKey]])
      else if sources.projectDefaults.Some? && sources.projectDefaults.value != []
      then Ok(sources.projectDefaults.value)
      else Ok([ids.defaultPool])
  }

  /** Where the requested pools come from: a non-empty annotation decides; then whatever pools the affinity names;
      then a pool label other than the sentinel; then the project's defaults; and the default pool if nothing else.
      Affinity that cannot be read is an error unless such errors are ignored. */
  lemma RequestedFrom(ids: Identifiers, pools: seq<NodePool>, labels: map<string, string>, sources: Sources)
    ensures var r := Requested(ids, pools, labels, sources);
            var noted := ids.annotationKey in sources.annotations && sources.annotations[ids.annotationKey] != "";
            var unreadable := RequiredTerms(sources.affinity) != [] && pools == [];
            var named := exists name :: AnyTermAsksFor(ids, pools, RequiredTerms(sources.affinity), name);
            var labelled := ids.poolKey in labels && labels[ids.poolKey] != ids.sentinel;
            var defaulted := sources.projectDefaults.Some? && sources.projectDefaults.value != [];
            && (noted ==> r == Ok(Split(sources.annotations[ids.annotationKey], ' ')))
            && (r.Failed? <==> !noted && unreadable && !sources.ignoreConversionErrors)
            && (!noted && !unreadable && named ==>
                  r.Ok? && forall name :: name in r.value <==>
                      AnyTermAsksFor(ids, pools, RequiredTerms(sources.affinity), name))
            && (!noted && r.Ok? && (unreadable || !named) ==>
                  r == Ok(if labelled then [labels[ids.poolKey]]
                          else if defaulted then sources.projectDefaults.value else [ids.defaultPool]))
  {
    forall name ensures Converted(ids, pools, sources.affinity).Ok? ==>
                        (name in Converted(ids, pools, sources.affinity).value <==>
                         AnyTermAsksFor(ids, pools, RequiredTerms(sources.affinity), name)) {
      ConvertedAre(ids, pools, sources.affinity, name);
    }
    var converted := Converted(ids, pools, sources.affinity);
    ConvertedAre(ids, pools, sources.affinity, "");
    if converted.Ok? && converted.value != [] {
      assert converted.value[0] in converted.value;
    }
  }

  /** What admission of node pools guarantees: names and label pairs are unique, the default pool
      alone has no label key. */
  ghost predicate ProperPools(ids: Identifiers, pools: seq<NodePool>) {
    && (forall i, j :: 0 <= i < j < |pools| ==> pools[i].name != pools[j].name)
    && (forall i, j :: 0 <= i < j < |pools| ==>
        pools[i].labelKey != pools[j].labelKey || pools[i].labelValue != pools[j].labelValue)
    && (forall i :: 0 <= i < |pools| ==> (pools[i].name == ids.defaultPool <==> pools[i].labelKey == ""))
  }

  ghost predicate KeysGiven(terms: seq<Term>) {
    forall i, j :: 0 <= i < |terms| && 0 <= j < |terms[i].expressions| ==> terms[i].expressions[j].key != ""
  }

  lemma {:induction false} LabelFindsPool(pools: seq<NodePool>, i: nat)
    requires i < |pools|
    requires forall j, k :: 0 <= j < k < |pools| ==>
             pools[j].labelKey != pools[k].labelKey || pools[j].labelValue != pools[k].labelValue
    ensures PoolWithLabel(pools, pools[i].labelKey, pools[i].labelValue) == Some(pools[i].name)
    decreases |pools|
  {
    var n := |pools| - 1;
    if i < n {
      assert pools[i].labelKey != pools[n].labelKey || pools[i].labelValue != pools[n].labelValue;
      LabelFindsPool(pools[..n], i);
    }
  }

  lemma {:induction false} LabelFindsNone(pools: seq<NodePool>, key: string, value: string)
    requires forall i :: 0 <= i < |pools| ==> pools[i].labelKey != key || pools[i].labelValue != value
    ensures PoolWithLabel(pools, key, value) == None
    decreases |pools|
  {
    if pools != [] {
      LabelFindsNone(pools[..|pools| - 1], key, value);
    }
  }

  lemma {:induction false} FindPoolFinds(pools: seq<NodePool>, name: string) returns (i: nat)
    requires FindPool(pools, name).Some?
    ensures i < |pools| && pools[i] == FindPool(pools, name).value && pools[i].name == name
  {
    if pools[0].name == name {
      i := 0;
    } else {
      i := FindPoolFinds(pools[1..], name);
      i := i + 1;
    }
  }

  /** The requirement written for a pool reads back as that pool alone. */
  lemma RequirementReadsBack(ids: Identifiers, pools: seq<NodePool>, name: string)
    requires ProperPools(ids, pools) && RequirementFor(ids, pools, name).Needs?
    ensures NamesFor(ids, pools, RequirementFor(ids, pools, name).requirement) == [name]
  {
    if name != ids.defaultPool {
      var i := FindPoolFinds(pools, name);
      LabelFindsPool(pools, i);
      var values := [pools[i].labelValue];
      assert values[..0] == [];
      assert NamesForValues(pools, pools[i].labelKey, values[..0]) == [];
    }
  }

  /** An expression that names no pool reads as none. */
  lemma ForeignReadsAsNone(ids: Identifiers, pools: seq<NodePool>, e: Requirement)
    requires ProperPools(ids, pools) && e.key != "" && !NamesPool(ids, pools, e)
    ensures NamesFor(ids, pools, e) == []
  {
    if e.op.In? {
      ForeignValues(ids, pools, e, e.values);
    }
  }

  lemma {:induction false} ForeignValues(ids: Identifiers, pools: seq<NodePool>, e: Requirement, values: seq<string>)
    requires ProperPools(ids, pools) && e.key != "" && e.op.In? && !NamesPool(ids, pools, e)
    requires values <= e.values
    ensures NamesForValues(pools, e.key, values) == []
    decreases |values|
  {
    if values != [] {
      var n := |values| - 1;
      ForeignValues(ids, pools, e, values[..n]);
      forall i | 0 <= i < |pools| ensures pools[i].labelKey != e.key || pools[i].labelValue != values[n] {
        assert values[n] == e.values[n];
      }
      LabelFindsNone(pools, e.key, values[n]);
    }
  }

  ghost predicate Foreign(ids: Identifiers, pools: seq<NodePool>, expressions: seq<Requirement>) {
    forall i :: 0 <= i < |expressions| ==> NamesFor(ids, pools, expressions[i]) == []
  }

  lemma {:induction false} ForeignThen(ids: Identifiers, pools: seq<NodePool>, expressions: seq<Requirement>,
                                       e: Requirement)
    requires Foreign(ids, pools, expressions)
    ensures NamesForTerm(ids, pools, expressions + [e]) == NamesFor(ids, pools, e)
    decreases |expressions|
  {
    var all := expressions + [e];
    if expressions == [] {
      assert all[0] == e && all[1..] == [];
    } else {
      assert all[0] == expressions[0] && all[1..] == expressions[1..] + [e];
      assert NamesFor(ids, pools, expressions[0]) == [];
      ForeignThen(ids, pools, expressions[1..], e);
    }
  }

  lemma {:induction false} WithoutStaysForeign(ids: Identifiers, pools: seq<NodePool>, expressions: seq<Requirement>,
                                               key: string)
    requires Foreign(ids, pools, expressions)
    ensures Foreign(ids, pools, Without(expressions, key))
    decreases |expressions|
  {
    if expressions != [] {
      var n := |expressions| - 1;
      WithoutStaysForeign(ids, pools, expressions[..n], key);
    }
  }

  /** A foreign term narrowed by a pool's requirement reads as that pool. */
  lemma NarrowedReadsBack(ids: Identifiers, pools: seq<NodePool>, term: Term, add: Requirement)
    requires Foreign(ids, pools, term.expressions)
    ensures NamesForTerm(ids, pools, Narrowed(term, add).expressions) == NamesFor(ids, pools, add)
  {
    WithoutStaysForeign(ids, pools, term.expressions, add.key);
    ForeignThen(ids, pools, Without(term.expressions, add.key), add);
  }

  // ------------------------------------------------ repetitions do not matter

  lemma SplitLast(xs: seq<string>, x: string)
    ensures (xs + [x])[..|xs|] == xs && (xs + [x])[|xs|] == x
  {
  }

  /** `xs` and `ys` read the same once duplicates are removed. */
  ghost predicate Alike(xs: seq<string>, ys: seq<string>) {
    Unique(xs) == Unique(ys)
  }

  lemma AlikeAppend(xs: seq<string>, ys: seq<string>, x: string)
    requires Alike(xs, ys)
    ensures Alike(xs + [x], ys + [x])
    ensures x in xs ==> Alike(xs + [x], ys)
  {
    SplitLast(xs, x);
    SplitLast(ys, x);
    UniqueHas(xs, x);
    UniqueHas(ys, x);
  }

  ghost predicate ForeignTerms(ids: Identifiers, pools: seq<NodePool>, terms: seq<Term>) {
    forall j :: 0 <= j < |terms| ==> Foreign(ids, pools, terms[j].expressions)
  }

  /** Appending one narrowed copy of every term adds one pool, however many copies. */
  lemma ReadOneMore(ids: Identifiers, pools: seq<NodePool>, terms: seq<Term>, term: Term)
    ensures NamesForTerms(ids, pools, terms + [term])
            == NamesForTerms(ids, pools, terms) + NamesForTerm(ids, pools, term.expressions)
  {
    assert (terms + [term])[..|terms|] == terms;
  }

  lemma {:induction false} CopiesReadAsOne(ids: Identifiers, pools: seq<NodePool>, before: seq<Term>, copies: seq<Term>,
                                           names: seq<string>, name: string)
    requires copies != [] && Alike(NamesForTerms(ids, pools, before), names)
    requires forall j :: 0 <= j < |copies| ==> NamesForTerm(ids, pools, copies[j].expressions) == [name]
    ensures Alike(NamesForTerms(ids, pools, before + copies), names + [name])
    ensures name in NamesForTerms(ids, pools, before + copies)
    decreases |copies|
  {
    var n := |copies| - 1;
    assert before + copies == (before + copies[..n]) + [copies[n]];
    ReadOneMore(ids, pools, before + copies[..n], copies[n]);
    if n == 0 {
      assert before + copies[..n] == before;
      AlikeAppend(NamesForTerms(ids, pools, before), names, name);
    } else {
      CopiesReadAsOne(ids, pools, before, copies[..n], names, name);
      AlikeAppend(NamesForTerms(ids, pools, before + copies[..n]), names + [name], name);
    }
  }

  lemma NarrowedAllReadBack(ids: Identifiers, pools: seq<NodePool>, terms: seq<Term>, add: Requirement, name: string,
                            j: nat)
    requires j < |terms| && ForeignTerms(ids, pools, terms) && NamesFor(ids, pools, add) == [name]
    ensures NamesForTerm(ids, pools, NarrowedAll(terms, add)[j].expressions) == [name]
  {
    NarrowedReadsBack(ids, pools, terms[j], add);
  }

  /** Each requirement reads back as the pool at its place. */
  ghost predicate StandFor(ids: Identifiers, pools: seq<NodePool>, adds: seq<Requirement>, names: seq<string>) {
    |adds| == |names| && forall i :: 0 <= i < |adds| ==> NamesFor(ids, pools, adds[i]) == [names[i]]
  }

  lemma {:induction false} DistributedReadsBack(ids: Identifiers, pools: seq<NodePool>, terms: seq<Term>,
                                                adds: seq<Requirement>, names: seq<string>)
    requires terms != [] && ForeignTerms(ids, pools, terms) && StandFor(ids, pools, adds, names)
    ensures Alike(NamesForTerms(ids, pools, Distributed(terms, adds)), names)
    decreases |adds|
  {
    if adds != [] {
      var n := |adds| - 1;
      DistributedReadsBack(ids, pools, terms, adds[..n], names[..n]);
      var copies := NarrowedAll(terms, adds[n]);
      forall j | 0 <= j < |copies| ensures NamesForTerm(ids, pools, copies[j].expressions) == [names[n]] {
        NarrowedAllReadBack(ids, pools, terms, adds[n], names[n], j);
      }
      CopiesReadAsOne(ids, pools, Distributed(terms, adds[..n]), copies, names[..n], names[n]);
      assert names == names[..n] + [names[n]];
    }
  }

  lemma {:induction false} AloneReadsBack(ids: Identifiers, pools: seq<NodePool>, adds: seq<Requirement>,
                                          names: seq<string>)
    requires StandFor(ids, pools, adds, names)
    ensures NamesForTerms(ids, pools, Rewritten([], adds)) == names
    decreases |adds|
  {
    if adds != [] {
      var n := |adds| - 1;
      AloneReadsBack(ids, pools, adds[..n], names[..n]);
      var terms := Rewritten([], adds);
      assert terms[..n] == Rewritten([], adds[..n]);
      assert Foreign(ids, pools, []);
      ForeignThen(ids, pools, [], adds[n]);
      assert [] + [adds[n]] == [adds[n]];
      assert names == names[..n] + [names[n]];
    }
  }

  lemma RewrittenReadsBack(ids: Identifiers, pools: seq<NodePool>, terms: seq<Term>, adds: seq<Requirement>,
                           names: seq<string>)
    requires adds != [] && ForeignTerms(ids, pools, terms) && StandFor(ids, pools, adds, names)
    ensures Alike(NamesForTerms(ids, pools, Rewritten(terms, adds)), names)
    ensures Rewritten(terms, adds) != []
  {
    if terms == [] {
      AloneReadsBack(ids, pools, adds, names);
    } else {
      DistributedReadsBack(ids, pools, terms, adds, names);
      if Distributed(terms, adds) == [] { DistributedEmpty(terms, adds); }
    }
  }

  // ------------------------------------------------ there and back

  /** The listed pools that are not being deleted; the default pool always counts. */
  function Usable(ids: Identifiers, pools: seq<NodePool>, names: seq<string>): seq<string> {
    if names == [] then []
    else
      var n := |names| - 1;
      Usable(ids, pools, names[..n]) + (if RequirementFor(ids, pools, names[n]).Needs? then [names[n]] else [])
  }

  lemma {:induction false} RequirementsStandFor(ids: Identifiers, pools: seq<NodePool>, names: seq<string>)
    requires ProperPools(ids, pools)
    requires forall i :: 0 <= i < |names| ==> !RequirementFor(ids, pools, names[i]).NoSuchPool?
    ensures var rs := RequirementsFor(ids, pools, names);
            rs.Ok? && StandFor(ids, pools, rs.value, Usable(ids, pools, names))
    decreases |names|
  {
    if names != [] {
      var n := |names| - 1;
      RequirementsStandFor(ids, pools, names[..n]);
      if RequirementFor(ids, pools, names[n]).Needs? {
        RequirementReadsBack(ids, pools, names[n]);
      }
    }
  }

  lemma NoPoolMeansForeign(ids: Identifiers, pools: seq<NodePool>, terms: seq<Term>)
    requires ProperPools(ids, pools) && KeysGiven(terms) && !HasPool(ids, pools, terms)
    ensures ForeignTerms(ids, pools, terms)
  {
    forall i, j | 0 <= i < |terms| && 0 <= j < |terms[i].expressions|
      ensures NamesFor(ids, pools, terms[i].expressions[j]) == []
    {
      ForeignReadsAsNone(ids, pools, terms[i].expressions[j]);
    }
  }

  /** A pod that names no pool is given its project's default pools, and what is read back from it is
      exactly those of them that are not being deleted, in order and without duplicates, whatever
      other affinity the pod had. */
  lemma MutateThenConvert(ids: Identifiers, pools: seq<NodePool>, pod: Pod, defaults: seq<string>,
                          labels: map<string, string>, sources: Sources)
    requires ProperPools(ids, pools) && pools != []
    requires ids.poolKey !in pod.labels && ids.annotationKey !in pod.annotations
    requires KeysGiven(RequiredTerms(pod.affinity)) && !HasPool(ids, pools, RequiredTerms(pod.affinity))
    requires forall i :: 0 <= i < |defaults| ==> !RequirementFor(ids, pools, defaults[i]).NoSuchPool?
    requires Usable(ids, pools, defaults) != []
    requires var mutated := Mutated(ids, pools, pod, Some(defaults));
             sources.annotations == mutated.annotations && sources.affinity == mutated.affinity
    ensures Requested(ids, pools, labels, sources) == Ok(Unique(Usable(ids, pools, defaults)))
  {
    var terms := RequiredTerms(pod.affinity);
    NoPoolMeansForeign(ids, pools, terms);
    RequirementsStandFor(ids, pools, defaults);
    var rs := RequirementsFor(ids, pools, defaults).value;
    var names := Usable(ids, pools, defaults);
    RewrittenReadsBack(ids, pools, terms, rs, names);
    UniqueHas(names, names[0]);
  }

  /** A default pool is usable exactly when it is the default pool or exists and is not being deleted. */
  lemma {:induction false} UsableAre(ids: Identifiers, pools: seq<NodePool>, names: seq<string>, name: string)
    ensures name in Usable(ids, pools, names) <==>
            name in names && (name == ids.defaultPool ||
                (FindPool(pools, name).Some? && FindPool(pools, name).value.phase != DELETING))
    decreases |names|
  {
    if names != [] {
      var n := |names| - 1;
      UsableAre(ids, pools, names[..n], name);
      assert names == names[..n] + [names[n]];
    }
  }
}
