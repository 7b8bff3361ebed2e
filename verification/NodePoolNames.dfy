/** From node pool names to node affinity and back: the pod mutator writes the pools a pod may use
    into its affinity, the converter reads them out again. */
module NodePoolNames {
  import opened Affinity
  import opened Wrappers

  datatype NodePool = NodePool(name: string, labelKey: string, labelValue: string, phase: string)

  const DELETING := "Deleting"

  datatype Identifiers = Identifiers(poolKey: string, defaultPool: string, sentinel: string, annotationKey: string)

  // ------------------------------------------------ reading pools out of affinity

  /** The pool with this label pair, the last one listed if several have it. */
  function PoolWithLabel(pools: seq<NodePool>, key: string, value: string): Option<string> {
    if pools == [] then None
    else
      var last := pools[|pools| - 1];
      if last.labelKey == key && last.labelValue == value then Some(last.name)
      else PoolWithLabel(pools[..|pools| - 1], key, value)
  }

  function DeletingNames(pools: seq<NodePool>): set<string> {
    set i | 0 <= i < |pools| && pools[i].phase == DELETING :: pools[i].name
  }

  /** The two-level table by label key and value, and the names of the pools being deleted. */
  method NodePoolsMap(pools: seq<NodePool>) returns (byLabel: map<string, map<string, string>>, deleting: set<string>)
    ensures forall key, value :: PoolWithLabel(pools, key, value) ==
              if key in byLabel && value in byLabel[key] then Some(byLabel[key][value]) else None
    ensures deleting == DeletingNames(pools)
  {
    byLabel, deleting := map[], {};
    for i := 0 to |pools|
      invariant forall key, value :: PoolWithLabel(pools[..i], key, value) ==
                  if key in byLabel && value in byLabel[key] then Some(byLabel[key][value]) else None
      invariant deleting == DeletingNames(pools[..i])
    {
      var pool := pools[i];
      assert pools[..i + 1][..i] == pools[..i];
      var values := if pool.labelKey in byLabel then byLabel[pool.labelKey] else map[];
      byLabel := byLabel[pool.labelKey := values[pool.labelValue := pool.name]];
      if pool.phase == DELETING {
        deleting := deleting + {pool.name};
      }
      assert DeletingNames(pools[..i + 1]) ==
             DeletingNames(pools[..i]) + (if pool.phase == DELETING then {pool.name} else {}) by {
        DeletingStep(pools, i);
      }
    }
    assert pools[..|pools|] == pools;
  }

  lemma DeletingStep(pools: seq<NodePool>, i: nat)
    requires i < |pools|
    ensures DeletingNames(pools[..i + 1]) ==
            DeletingNames(pools[..i]) + (if pools[i].phase == DELETING then {pools[i].name} else {})
  {
    var more, less := pools[..i + 1], pools[..i];
    forall n | n in DeletingNames(less) ensures n in DeletingNames(more) {
      var k :| 0 <= k < |less| && less[k].phase == DELETING && less[k].name == n;
      assert more[k] == less[k];
    }
    forall n | n in DeletingNames(more) && n !in DeletingNames(less)
      ensures pools[i].phase == DELETING && n == pools[i].name
    {
      var k :| 0 <= k < |more| && more[k].phase == DELETING && more[k].name == n;
    }
    if pools[i].phase == DELETING {
      assert more[i].phase == DELETING;
    }
  }

  /** The pools the listed values of a key stand for, skipping unknown ones and ones being deleted. */
  function NamesForValues(pools: seq<NodePool>, key: string, values: seq<string>): seq<string> {
    if values == [] then []
    else
      var n := |values| - 1;
      var pool := PoolWithLabel(pools, key, values[n]);
      NamesForValues(pools, key, values[..n]) +
      (if pool.Some? && pool.value !in DeletingNames(pools) then [pool.value] else [])
  }

  /** The pools one expression stands for: only "in", and absence of the pool label for the default pool. */
  function NamesFor(ids: Identifiers, pools: seq<NodePool>, e: Requirement): seq<string> {
    if e.op.In? then NamesForValues(pools, e.key, e.values)
    else if e.op.DoesNotExist? && e.key == ids.poolKey then [ids.defaultPool]
    else []
  }

  /** The pools a term stands for: those of its first expression that stands for any. */
  function NamesForTerm(ids: Identifiers, pools: seq<NodePool>, expressions: seq<Requirement>): seq<string> {
    if expressions == [] then []
    else
      var names := NamesFor(ids, pools, expressions[0]);
      if names != [] then names else NamesForTerm(ids, pools, expressions[1..])
  }

  function NamesForTerms(ids: Identifiers, pools: seq<NodePool>, terms: seq<Term>): seq<string> {
    if terms == [] then []
    else
      var n := |terms| - 1;
      NamesForTerms(ids, pools, terms[..n]) + NamesForTerm(ids, pools, terms[n].expressions)
  }

  /** First occurrences, in order. */
  function Unique(list: seq<string>): seq<string> {
    if list == [] then []
    else
      var n := |list| - 1;
      if list[n] in list[..n] then Unique(list[..n]) else Unique(list[..n]) + [list[n]]
  }

  /** The same elements. */
  lemma {:induction false} UniqueHas(list: seq<string>, x: string)
    ensures x in Unique(list) <==> x in list
  {
    if list != [] {
      var n := |list| - 1;
      UniqueHas(list[..n], x);
      assert list == list[..n] + [list[n]];
    }
  }

  /** None twice. */
  lemma {:induction false} UniqueIsDistinct(list: seq<string>, i: nat, j: nat)
    requires i < j < |Unique(list)|
    ensures Unique(list)[i] != Unique(list)[j]
  {
    var n := |list| - 1;
    UniqueHas(list[..n], list[n]);
    if j < |Unique(list[..n])| {
      UniqueIsDistinct(list[..n], i, j);
    }
  }

  method RemoveDuplicates(list: seq<string>) returns (r: seq<string>)
    ensures r == Unique(list)
  {
    r := [];
    var known: set<string> := {};
    for i := 0 to |list|
      invariant r == Unique(list[..i])
      invariant forall x :: x in known <==> x in list[..i]
    {
      assert list[..i + 1][..i] == list[..i];
      if list[i] !in known {
        known := known + {list[i]};
        r := r + [list[i]];
      }
    }
    assert list[..|list|] == list;
  }

  method AppendNamesFor(ids: Identifiers, pools: seq<NodePool>, e: Requirement,
                        byLabel: map<string, map<string, string>>,
                        deleting: set<string>, sofar: seq<string>)
    returns (r: seq<string>, found: bool)
    requires deleting == DeletingNames(pools)
    requires forall key, value :: PoolWithLabel(pools, key, value) ==
               if key in byLabel && value in byLabel[key] then Some(byLabel[key][value]) else None
    ensures r == sofar + NamesFor(ids, pools, e)
    ensures found <==> NamesFor(ids, pools, e) != []
  {
    if e.op != In {
      if e.op == DoesNotExist && e.key == ids.poolKey {
        return sofar + [ids.defaultPool], true;
      }
      return sofar, false;
    }
    r, found := sofar, false;
    for i := 0 to |e.values|
      invariant r == sofar + NamesForValues(pools, e.key, e.values[..i])
      invariant found <==> NamesForValues(pools, e.key, e.values[..i]) != []
    {
      assert e.values[..i + 1][..i] == e.values[..i];
      assert PoolWithLabel(pools, e.key, e.values[i]).Some? <==> e.key in byLabel && e.values[i] in byLabel[e.key];
      if e.key !in byLabel || e.values[i] !in byLabel[e.key] {
        continue;
      }
      var pool := byLabel[e.key][e.values[i]];
      if pool in deleting {
        continue;
      }
      r := r + [pool];
      found := true;
    }
    assert e.values[..|e.values|] == e.values;
  }

  datatype Result<+T> = Ok(value: T) | Failed

  /** The pools an affinity asks for. Without any pool in the cluster it cannot be resolved. */
  function Converted(ids: Identifiers, pools: seq<NodePool>, affinity: Option<Affinity>): Result<seq<string>> {
    var terms := RequiredTerms(affinity);
    if terms == [] then Ok([])
    else if pools == [] then Failed
    else Ok(Unique(NamesForTerms(ids, pools, terms)))
  }

  method Convert(ids: Identifiers, pools: seq<NodePool>, affinity: Option<Affinity>) returns (r: Result<seq<string>>)
    ensures r == Converted(ids, pools, affinity)
  {
    var terms := RequiredTerms(affinity);
    if terms == [] {
      return Ok([]);
    }
    if pools == [] {
      return Failed;
    }
    var byLabel, deleting := NodePoolsMap(pools);
    var names: seq<string> := [];
    for i := 0 to |terms|
      invariant names == NamesForTerms(ids, pools, terms[..i])
    {
      assert terms[..i + 1][..i] == terms[..i];
      ghost var before := names;
      var expressions := terms[i].expressions;
      var j, found := 0, false;
      while j < |expressions| && !found
        invariant 0 <= j <= |expressions|
        invariant !found ==> names == before
        invariant !found ==> NamesForTerm(ids, pools, expressions) == NamesForTerm(ids, pools, expressions[j..])
        invariant found ==> names == before + NamesForTerm(ids, pools, expressions)
        decreases |expressions| - j
      {
        assert expressions[j..][1..] == expressions[j + 1..];
        names, found := AppendNamesFor(ids, pools, expressions[j], byLabel, deleting, names);
        j := j + 1;
      }
    }
    assert terms[..|terms|] == terms;
    var unique := RemoveDuplicates(names);
    return Ok(unique);
  }

  // ------------------------------------------------ what the answer contains

  /** The pool listed at `i` is the one for the label pair: it has the pair, and none listed later has. */
  predicate HoldsPair(pools: seq<NodePool>, i: int, key: string, value: string) {
    && 0 <= i < |pools| && pools[i].labelKey == key && pools[i].labelValue == value
    && forall k :: i < k < |pools| ==> pools[k].labelKey != key || pools[k].labelValue != value
  }

  predicate BeingDeleted(pools: seq<NodePool>, name: string) {
    exists k :: 0 <= k < |pools| && pools[k].name == name && pools[k].phase == "Deleting"
  }

  /** The expression asks for the pool: one of its values with its key is the pool's label pair and the pool is not
      being deleted; or it wants the pool label absent, which stands for the default pool. */
  ghost predicate AsksFor(ids: Identifiers, pools: seq<NodePool>, e: Requirement, name: string) {
    || (e.op == DoesNotExist && e.key == ids.poolKey && name == ids.defaultPool)
    || (e.op == In && !BeingDeleted(pools, name)
        && exists v, i :: 0 <= v < |e.values| && HoldsPair(pools, i, e.key, e.values[v]) && pools[i].name == name)
  }

  ghost predicate AsksForAny(ids: Identifiers, pools: seq<NodePool>, e: Requirement) {
    exists name :: AsksFor(ids, pools, e, name)
  }

  /** The first expression of the term that asks for any pool asks for this one. */
  ghost predicate TermAsksFor(ids: Identifiers, pools: seq<NodePool>, expressions: seq<Requirement>, name: string) {
    exists j :: FirstAsks(ids, pools, expressions, j) && AsksFor(ids, pools, expressions[j], name)
  }

  ghost predicate FirstAsks(ids: Identifiers, pools: seq<NodePool>, expressions: seq<Requirement>, j: int) {
    0 <= j < |expressions| && forall k :: 0 <= k < j ==> !AsksForAny(ids, pools, expressions[k])
  }

  lemma {:induction false} PairIsLast(pools: seq<NodePool>, key: string, value: string)
    ensures PoolWithLabel(pools, key, value).Some? ==>
            exists i :: HoldsPair(pools, i, key, value) && pools[i].name == PoolWithLabel(pools, key, value).value
    ensures forall i :: HoldsPair(pools, i, key, value) ==> PoolWithLabel(pools, key, value) == Some(pools[i].name)
  {
    if pools != [] {
      var n := |pools| - 1;
      if pools[n].labelKey == key && pools[n].labelValue == value {
        assert HoldsPair(pools, n, key, value);
      } else {
        PairIsLast(pools[..n], key, value);
        if i :| HoldsPair(pools[..n], i, key, value) {
          assert HoldsPair(pools, i, key, value);
        }
        forall i | HoldsPair(pools, i, key, value) ensures HoldsPair(pools[..n], i, key, value) {
        }
      }
    }
  }

  lemma {:induction false} ValuesAskFor(pools: seq<NodePool>, key: string, values: seq<string>, name: string)
    ensures name in NamesForValues(pools, key, values) <==>
            && !BeingDeleted(pools, name)
            && exists v :: 0 <= v < |values| && PoolWithLabel(pools, key, values[v]) == Some(name)
  {
    if values != [] {
      var n := |values| - 1;
      ValuesAskFor(pools, key, values[..n], name);
      assert BeingDeleted(pools, name) <==> name in DeletingNames(pools);
      if v :| 0 <= v < n && PoolWithLabel(pools, key, values[..n][v]) == Some(name) {
        assert values[v] == values[..n][v];
      }
    }
  }

  lemma ExpressionAsksFor(ids: Identifiers, pools: seq<NodePool>, e: Requirement, name: string)
    ensures name in NamesFor(ids, pools, e) <==> AsksFor(ids, pools, e, name)
  {
    ValuesAskFor(pools, e.key, e.values, name);
    forall v | 0 <= v < |e.values|
      ensures PoolWithLabel(pools, e.key, e.values[v]) == Some(name) <==>
              exists i :: HoldsPair(pools, i, e.key, e.values[v]) && pools[i].name == name
    {
      PairIsLast(pools, e.key, e.values[v]);
    }
  }

  lemma {:induction false} TermNamesAre(ids: Identifiers, pools: seq<NodePool>, expressions: seq<Requirement>,
                                        name: string)
    ensures name in NamesForTerm(ids, pools, expressions) <==> TermAsksFor(ids, pools, expressions, name)
    decreases |expressions|
  {
    if expressions != [] {
      var first, rest := expressions[0], expressions[1..];
      TermNamesAre(ids, pools, rest, name);
      forall x ensures x in NamesFor(ids, pools, first) <==> AsksFor(ids, pools, first, x) {
        ExpressionAsksFor(ids, pools, first, x);
      }
      if NamesFor(ids, pools, first) != [] {
        assert AsksFor(ids, pools, first, NamesFor(ids, pools, first)[0]);
        assert FirstAsks(ids, pools, expressions, 0);
      } else {
        FirstAsksShifts(ids, pools, expressions);
      }
    }
  }

  lemma FirstAsksShifts(ids: Identifiers, pools: seq<NodePool>, expressions: seq<Requirement>)
    requires expressions != [] && !AsksForAny(ids, pools, expressions[0])
    ensures forall j :: FirstAsks(ids, pools, expressions[1..], j) ==> FirstAsks(ids, pools, expressions, j + 1)
    ensures forall j :: j > 0 && FirstAsks(ids, pools, expressions, j) ==>
            FirstAsks(ids, pools, expressions[1..], j - 1)
  {
    var rest := expressions[1..];
    forall j | FirstAsks(ids, pools, rest, j) ensures FirstAsks(ids, pools, expressions, j + 1) {
      forall k | 0 <= k < j + 1 ensures !AsksForAny(ids, pools, expressions[k]) {
        assert k > 0 ==> expressions[k] == rest[k - 1];
      }
    }
    forall j | j > 0 && FirstAsks(ids, pools, expressions, j) ensures FirstAsks(ids, pools, rest, j - 1) {
      forall k | 0 <= k < j - 1 ensures !AsksForAny(ids, pools, rest[k]) {
        assert rest[k] == expressions[k + 1];
      }
    }
  }

  ghost predicate AnyTermAsksFor(ids: Identifiers, pools: seq<NodePool>, terms: seq<Term>, name: string) {
    exists i :: 0 <= i < |terms| && TermAsksFor(ids, pools, terms[i].expressions, name)
  }

  lemma {:induction false} TermsNamesAre(ids: Identifiers, pools: seq<NodePool>, terms: seq<Term>, name: string)
    ensures name in NamesForTerms(ids, pools, terms) <==>
            exists i :: 0 <= i < |terms| && TermAsksFor(ids, pools, terms[i].expressions, name)
  {
    if terms != [] {
      var n := |terms| - 1;
      TermsNamesAre(ids, pools, terms[..n], name);
      TermNamesAre(ids, pools, terms[n].expressions, name);
      if i :| 0 <= i < n && TermAsksFor(ids, pools, terms[..n][i].expressions, name) {
        assert terms[i] == terms[..n][i];
      }
    }
  }

  /** The pools read from an affinity are exactly those that some term asks for in its first expression that asks for
      any; without terms there are none, and without any pool in the cluster terms cannot be resolved. */
  lemma ConvertedAre(ids: Identifiers, pools: seq<NodePool>, affinity: Option<Affinity>, name: string)
    ensures var r, terms := Converted(ids, pools, affinity), RequiredTerms(affinity);
            && (r.Failed? <==> terms != [] && pools == [])
            && (r.Ok? ==> (name in r.value <==> AnyTermAsksFor(ids, pools, terms, name)))
  {
    TermsNamesAre(ids, pools, RequiredTerms(affinity), name);
    UniqueHas(NamesForTerms(ids, pools, RequiredTerms(affinity)), name);
  }

  // ------------------------------------------------ writing pools into affinity

  datatype Created = NotNeeded | Needs(requirement: Requirement) | NoSuchPool

  function FindPool(pools: seq<NodePool>, name: string): Option<NodePool> {
    if pools == [] then None else if pools[0].name == name then Some(pools[0]) else FindPool(pools[1..], name)
  }

  /** The requirement that stands for a pool; a pool being deleted is skipped. */
  function RequirementFor(ids: Identifiers, pools: seq<NodePool>, name: string): Created {
    if name == ids.defaultPool then Needs(Requirement(ids.poolKey, DoesNotExist, []))
    else
      match FindPool(pools, name)
      case None => NoSuchPool
      case Some(pool) =>
        if pool.phase == DELETING then NotNeeded
        else Needs(Requirement(pool.labelKey, In, [pool.labelValue]))
  }

  /** The requirements for a list of pools, or the failure of the first pool that does not exist. */
  function RequirementsFor(ids: Identifiers, pools: seq<NodePool>, names: seq<string>): Result<seq<Requirement>> {
    if names == [] then Ok([])
    else
      var n := |names| - 1;
      match RequirementsFor(ids, pools, names[..n])
      case Failed => Failed
      case Ok(rs) =>
        match RequirementFor(ids, pools, names[n])
        case NoSuchPool => Failed
        case NotNeeded => Ok(rs)
        case Needs(r) => Ok(rs + [r])
  }

  /** The affinity names a pool already: a pool's label pair, or absence of the pool label. */
  predicate NamesPool(ids: Identifiers, pools: seq<NodePool>, e: Requirement) {
    if !e.op.In? then e.op.DoesNotExist? && e.key == ids.poolKey
    else exists i, v :: 0 <= i < |pools| && 0 <= v < |e.values| && pools[i].name != ids.defaultPool
                        && pools[i].labelKey == e.key && pools[i].labelValue == e.values[v]
  }

  predicate HasPool(ids: Identifiers, pools: seq<NodePool>, terms: seq<Term>) {
    exists i, j :: 0 <= i < |terms| && 0 <= j < |terms[i].expressions| && NamesPool(ids, pools, terms[i].expressions[j])
  }

  datatype Pod = Pod(labels: map<string, string>, annotations: map<string, string>, affinity: Option<Affinity>)

  function SetPools(ids: Identifiers, pools: seq<NodePool>, pod: Pod, names: seq<string>): Pod {
    match RequirementsFor(ids, pools, names)
    case Failed => pod
    case Ok(rs) =>
      if rs == [] then pod
      else pod.(affinity := WithTerms(pod.affinity, Rewritten(RequiredTerms(pod.affinity), rs)))
  }

  /** What admission makes of a pod: its pool label wins; else the project's default pools, unless
      the pod names a pool itself. Anything that cannot be resolved leaves the pod as it is. */
  function Mutated(ids: Identifiers, pools: seq<NodePool>, pod: Pod, projectDefaults: Option<seq<string>>): Pod {
    if ids.poolKey in pod.labels then SetPools(ids, pools, pod, [pod.labels[ids.poolKey]])
    else if projectDefaults.None? || projectDefaults.value == [] then pod
    else if HasPool(ids, pools, RequiredTerms(pod.affinity)) then pod
    else SetPools(ids, pools, pod, projectDefaults.value)
  }

  /** The mutation carried out on the pod, collecting the requirements one pool at a time. */
  method SetNodeAffinity(ids: Identifiers, pools: seq<NodePool>, spec: PodSpec, names: seq<string>) returns (ok: bool)
    modifies spec`affinity
    ensures ok <==> RequirementsFor(ids, pools, names).Ok?
    ensures forall labels, annotations ::
              SetPools(ids, pools, Pod(labels, annotations, old(spec.affinity)), names) ==
                  Pod(labels, annotations, spec.affinity)
  {
    var adds: seq<Requirement> := [];
    for i := 0 to |names|
      invariant RequirementsFor(ids, pools, names[..i]) == Ok(adds)
      invariant spec.affinity == old(spec.affinity)
    {
      assert names[..i + 1][..i] == names[..i];
      var created := RequirementFor(ids, pools, names[i]);
      if created.NoSuchPool? {
        FailsForGood(ids, pools, names, i + 1);
        return false;
      }
      if created.Needs? {
        adds := adds + [created.requirement];
      }
    }
    assert names[..|names|] == names;
    if |adds| > 0 {
      spec.AddNodeAffinity(adds);
    }
    ok := true;
  }

  lemma {:induction false} FailsForGood(ids: Identifiers, pools: seq<NodePool>, names: seq<string>, i: nat)
    requires i <= |names| && RequirementsFor(ids, pools, names[..i]).Failed?
    ensures RequirementsFor(ids, pools, names).Failed?
    decreases |names|
  {
    if i < |names| {
      var n := |names| - 1;
      assert names[..n][..i] == names[..i];
      FailsForGood(ids, pools, names[..n], i);
    } else {
      assert names[..i] == names;
    }
  }

  /** What stands for a pool in an affinity: absence of the pool label for the default pool, else its label pair; a
      pool being deleted needs nothing, and one that does not exist is an error. */
  lemma RequirementIs(ids: Identifiers, pools: seq<NodePool>, name: string)
    ensures var r := RequirementFor(ids, pools, name);
            if name == ids.defaultPool then r == Needs(Requirement(ids.poolKey, DoesNotExist, []))
            else if forall i :: 0 <= i < |pools| ==> pools[i].name != name then r == NoSuchPool
            else exists i :: IsFirstNamed(pools, name, i) && r == if pools[i].phase == "Deleting" then NotNeeded
                             else Needs(Requirement(pools[i].labelKey, In, [pools[i].labelValue]))
  {
    FoundPoolIsFirst(pools, name);
  }

  predicate IsFirstNamed(pools: seq<NodePool>, name: string, i: int) {
    0 <= i < |pools| && pools[i].name == name && forall j :: 0 <= j < i ==> pools[j].name != name
  }

  lemma {:induction false} FoundPoolIsFirst(pools: seq<NodePool>, name: string)
    ensures FindPool(pools, name).None? ==> forall i :: 0 <= i < |pools| ==> pools[i].name != name
    ensures FindPool(pools, name).Some? ==>
            exists i :: IsFirstNamed(pools, name, i) && pools[i] == FindPool(pools, name).value
  {
    if pools != [] {
      FoundPoolIsFirst(pools[1..], name);
      if pools[0].name == name {
        assert IsFirstNamed(pools, name, 0);
      } else if i :| IsFirstNamed(pools[1..], name, i) && pools[1..][i] == FindPool(pools, name).value {
        assert IsFirstNamed(pools, name, i + 1);
      }
    }
  }

  /** Admission changes nothing of a pod but its required terms. Without a pool label, it leaves a pod whose project has
      no default pools, or that asks for a pool itself, as it is; and it leaves every pod as it is for which some
      pool cannot be found. */
  lemma MutationLeavesAlone(ids: Identifiers, pools: seq<NodePool>, pod: Pod, projectDefaults: Option<seq<string>>)
    ensures var r := Mutated(ids, pools, pod, projectDefaults);
            && r.labels == pod.labels && r.annotations == pod.annotations
            && (ids.poolKey !in pod.labels && (projectDefaults.None? || projectDefaults.value == []) ==> r == pod)
            && (ids.poolKey !in pod.labels && HasPool(ids, pools, RequiredTerms(pod.affinity)) ==> r == pod)
            && (ids.poolKey in pod.labels && RequirementFor(ids, pools, pod.labels[ids.poolKey]).NoSuchPool? ==>
                r == pod)
  {
  }

  /** A pod asks for a pool itself exactly when some expression wants the pool label absent, or lists with `In` the
      label value of a pool other than the default one under that pool's label key. */
  lemma AsksItselfIff(ids: Identifiers, pools: seq<NodePool>, terms: seq<Term>)
    ensures HasPool(ids, pools, terms) <==>
            exists i, j :: 0 <= i < |terms| && 0 <= j < |terms[i].expressions| &&
              var e := terms[i].expressions[j];
              || (e.op == DoesNotExist && e.key == ids.poolKey)
              || (e.op == In && exists p :: p in pools && p.name != ids.defaultPool && p.labelKey == e.key &&
                                            p.labelValue in e.values)
  {
    forall i, j | 0 <= i < |terms| && 0 <= j < |terms[i].expressions|
      ensures var e := terms[i].expressions[j];
              NamesPool(ids, pools, e) <==>
              || (e.op == DoesNotExist && e.key == ids.poolKey)
              || (e.op == In && exists p :: p in pools && p.name != ids.defaultPool && p.labelKey == e.key &&
                                            p.labelValue in e.values)
    {
    }
  }

  /** A pod with a pool label gets that pool's requirement, whatever its project and its own terms say. */
  lemma LabelledPodGetsItsPool(ids: Identifiers, pools: seq<NodePool>, pod: Pod, projectDefaults: Option<seq<string>>)
    requires ids.poolKey in pod.labels && RequirementFor(ids, pools, pod.labels[ids.poolKey]).Needs?
    ensures var r := Mutated(ids, pools, pod, projectDefaults);
            RequiredTerms(r.affinity)
            == Rewritten(RequiredTerms(pod.affinity), [RequirementFor(ids, pools, pod.labels[ids.poolKey]).requirement])
  {
    var names := [pod.labels[ids.poolKey]];
    assert names[..0] == [] && RequirementsFor(ids, pools, []) == Ok([]);
    assert RequirementsFor(ids, pools, names) == Ok([] + [RequirementFor(ids, pools, names[0]).requirement]);
  }
}
