/** Required node affinity and the rewriting that adds alternatives to it. */
module Affinity {
  import opened Wrappers

  datatype Operator = In | NotIn | Exists | DoesNotExist | Gt | Lt

  datatype Requirement = Requirement(key: string, op: Operator, values: seq<string>)

  /** All of a term's expressions and fields must hold; a term with neither matches nothing. */
  datatype Term = Term(expressions: seq<Requirement>, fields: seq<Requirement>)

  datatype NodeSelector = NodeSelector(terms: seq<Term>)

  datatype NodeAffinity = NodeAffinity(required: Option<NodeSelector>, preferred: seq<Term>)

  datatype Affinity = Affinity(node: Option<NodeAffinity>)

  /** The required terms; none where any part of the way is missing. */
  function RequiredTerms(affinity: Option<Affinity>): seq<Term> {
    if affinity.Some? && affinity.value.node.Some? && affinity.value.node.value.required.Some?
    then affinity.value.node.value.required.value.terms
    else []
  }

  function Preferred(affinity: Option<Affinity>): seq<Term> {
    if affinity.Some? && affinity.value.node.Some? then affinity.value.node.value.preferred else []
  }

  function WithTerms(affinity: Option<Affinity>, terms: seq<Term>): (a: Option<Affinity>)
    ensures RequiredTerms(a) == terms
    ensures Preferred(a) == Preferred(affinity)
  {
    Some(Affinity(Some(NodeAffinity(Some(NodeSelector(terms)), Preferred(affinity)))))
  }

  function Without(expressions: seq<Requirement>, key: string): seq<Requirement> {
    if expressions == [] then []
    else
      var n := |expressions| - 1;
      Without(expressions[..n], key) + (if expressions[n].key != key then [expressions[n]] else [])
  }

  /** The term with `add` in place of whatever it said about that key. */
  function Narrowed(term: Term, add: Requirement): Term {
    term.(expressions := Without(term.expressions, add.key) + [add])
  }

  function NarrowedAll(terms: seq<Term>, add: Requirement): (r: seq<Term>)
    ensures |r| == |terms|
  {
    seq(|terms|, i requires 0 <= i < |terms| => Narrowed(terms[i], add))
  }

  /** Every existing term narrowed by every addition, one addition after the other. */
  function Distributed(terms: seq<Term>, adds: seq<Requirement>): seq<Term> {
    if adds == [] then []
    else Distributed(terms, adds[..|adds| - 1]) + NarrowedAll(terms, adds[|adds| - 1])
  }

  function Rewritten(terms: seq<Term>, adds: seq<Requirement>): seq<Term> {
    if terms == [] then seq(|adds|, i requires 0 <= i < |adds| => Term([adds[i]], []))
    else if adds == [] then terms
    else Distributed(terms, adds)
  }

  lemma {:induction false} DistributedEmpty(terms: seq<Term>, adds: seq<Requirement>)
    requires Distributed(terms, adds) == [] && adds != []
    ensures terms == []
  {
  }

  class PodSpec {
    var affinity: Option<Affinity>

    constructor (affinity: Option<Affinity>)
      ensures this.affinity == affinity
    {
      this.affinity := affinity;
    }

    /** Adds the requirements as alternatives: each gets its own copy of every existing term. */
    method AddNodeAffinity(adds: seq<Requirement>)
      modifies this`affinity
      ensures affinity == WithTerms(old(affinity), Rewritten(RequiredTerms(old(affinity)), adds))
      ensures old(affinity.Some? && affinity.value.node.Some?) ==>
              affinity.value.node.value.preferred == old(affinity.value.node.value.preferred)
    {
      var terms := RequiredTerms(affinity);
      if |terms| == 0 {
        var alone: seq<Term> := [];
        for i := 0 to |adds|
          invariant alone == seq(i, k requires 0 <= k < i => Term([adds[k]], []))
        {
          alone := alone + [Term([adds[i]], [])];
        }
        affinity := WithTerms(affinity, alone);
        return;
      }
      var updated: seq<Term> := [];
      for i := 0 to |adds|
        invariant updated == Distributed(terms, adds[..i])
      {
        ghost var before := updated;
        for j := 0 to |terms|
          invariant updated == before + NarrowedAll(terms, adds[i])[..j]
        {
          var expressions := [];
          for k := 0 to |terms[j].expressions|
            invariant expressions == Without(terms[j].expressions[..k], adds[i].key)
          {
            assert terms[j].expressions[..k + 1][..k] == terms[j].expressions[..k];
            if terms[j].expressions[k].key != adds[i].key {
              expressions := expressions + [terms[j].expressions[k]];
            }
          }
          assert terms[j].expressions[..|terms[j].expressions|] == terms[j].expressions;
          expressions := expressions + [adds[i]];
          updated := updated + [terms[j].(expressions := expressions)];
        }
        assert NarrowedAll(terms, adds[i])[..|terms|] == NarrowedAll(terms, adds[i]);
        assert adds[..i + 1][..i] == adds[..i];
      }
      assert adds[..|adds|] == adds;
      if |updated| > 0 {
        affinity := WithTerms(affinity, updated);
      } else {
        if adds != [] { DistributedEmpty(terms, adds); }
        affinity := WithTerms(affinity, terms);
      }
    }
  }

  // ------------------------------------------------ what it means

  /** A reading of the requirements: which hold of the labels of a node, and which of its fields. What is proved
      for every reading holds in particular for the labels and the name of every node, see below. */
  datatype Node = Node(labelsMeet: Requirement -> bool, fieldsMeet: Requirement -> bool)

  predicate AllHold(requirements: seq<Requirement>, holds: Requirement -> bool) {
    forall i :: 0 <= i < |requirements| ==> holds(requirements[i])
  }

  predicate TermMatches(term: Term, node: Node) {
    && (term.expressions != [] || term.fields != [])
    && AllHold(term.expressions, node.labelsMeet)
    && AllHold(term.fields, node.fieldsMeet)
  }

  predicate Matches(terms: seq<Term>, node: Node) {
    exists i :: 0 <= i < |terms| && TermMatches(terms[i], node)
  }

  /** The term as far as it does not speak of `key`. */
  predicate MatchesBeside(term: Term, key: string, node: Node) {
    AllHold(Without(term.expressions, key), node.labelsMeet) && AllHold(term.fields, node.fieldsMeet)
  }

  lemma AllHoldAppend(a: seq<Requirement>, b: seq<Requirement>, holds: Requirement -> bool)
    ensures AllHold(a + b, holds) <==> AllHold(a, holds) && AllHold(b, holds)
  {
    if AllHold(a + b, holds) {
      forall i | 0 <= i < |a| ensures holds(a[i]) { assert (a + b)[i] == a[i]; }
      forall i | 0 <= i < |b| ensures holds(b[i]) { assert (a + b)[|a| + i] == b[i]; }
    }
  }

  lemma NarrowedMeans(term: Term, add: Requirement, node: Node)
    ensures TermMatches(Narrowed(term, add), node) <==> node.labelsMeet(add) && MatchesBeside(term, add.key, node)
  {
    AllHoldAppend(Without(term.expressions, add.key), [add], node.labelsMeet);
    assert AllHold([add], node.labelsMeet) <==> node.labelsMeet(add) by {
      assert [add][0] == add;
    }
  }

  /** Some addition holds, and some old term beside it. */
  ghost predicate SomePair(terms: seq<Term>, adds: seq<Requirement>, node: Node) {
    exists i, j :: 0 <= i < |adds| && 0 <= j < |terms| && node.labelsMeet(adds[i]) &&
        MatchesBeside(terms[j], adds[i].key, node)
  }

  lemma MatchesAppend(a: seq<Term>, b: seq<Term>, node: Node)
    ensures Matches(a + b, node) <==> Matches(a, node) || Matches(b, node)
  {
    if Matches(a, node) {
      var i :| 0 <= i < |a| && TermMatches(a[i], node);
      assert (a + b)[i] == a[i];
    }
    if Matches(b, node) {
      var i :| 0 <= i < |b| && TermMatches(b[i], node);
      assert (a + b)[|a| + i] == b[i];
    }
  }

  /** One added requirement and some term of the pod together admit the node. */
  ghost predicate SomeBeside(terms: seq<Term>, add: Requirement, node: Node) {
    exists j :: 0 <= j < |terms| && node.labelsMeet(add) && MatchesBeside(terms[j], add.key, node)
  }

  lemma NarrowedAllMeans(terms: seq<Term>, add: Requirement, node: Node)
    ensures Matches(NarrowedAll(terms, add), node) <==> SomeBeside(terms, add, node)
  {
    forall j | 0 <= j < |terms|
      ensures TermMatches(NarrowedAll(terms, add)[j], node) <==>
              node.labelsMeet(add) && MatchesBeside(terms[j], add.key, node)
    {
      NarrowedMeans(terms[j], add, node);
    }
    if SomeBeside(terms, add, node) {
      var j :| 0 <= j < |terms| && node.labelsMeet(add) && MatchesBeside(terms[j], add.key, node);
      assert TermMatches(NarrowedAll(terms, add)[j], node);
    }
  }

  lemma SomePairSplits(terms: seq<Term>, adds: seq<Requirement>, node: Node)
    requires adds != []
    ensures var n := |adds| - 1;
            SomePair(terms, adds, node) <==> SomePair(terms, adds[..n], node) || SomeBeside(terms, adds[n], node)
  {
    var n := |adds| - 1;
    if SomePair(terms, adds, node) {
      var i, j :| 0 <= i < |adds| && 0 <= j < |terms| && node.labelsMeet(adds[i]) &&
          MatchesBeside(terms[j], adds[i].key, node);
      assert i < n ==> adds[..n][i] == adds[i];
    }
    if SomePair(terms, adds[..n], node) {
      var i, j :| 0 <= i < n && 0 <= j < |terms| && node.labelsMeet(adds[..n][i]) &&
          MatchesBeside(terms[j], adds[..n][i].key, node);
      assert adds[..n][i] == adds[i];
    }
  }

  lemma {:induction false} DistributedMeans(terms: seq<Term>, adds: seq<Requirement>, node: Node)
    ensures Matches(Distributed(terms, adds), node) <==> SomePair(terms, adds, node)
  {
    if adds != [] {
      var n := |adds| - 1;
      DistributedMeans(terms, adds[..n], node);
      MatchesAppend(Distributed(terms, adds[..n]), NarrowedAll(terms, adds[n]), node);
      NarrowedAllMeans(terms, adds[n], node);
      SomePairSplits(terms, adds, node);
    }
  }

  /** What the rewritten selector means, whatever was there: some addition holds and, beside it,
      some old term with its expressions on that key dropped; or just some addition, if there were
      no terms. */
  lemma RewrittenMeans(terms: seq<Term>, adds: seq<Requirement>, node: Node)
    requires adds != []
    ensures Matches(Rewritten(terms, adds), node) <==>
            if terms == [] then exists i :: 0 <= i < |adds| && node.labelsMeet(adds[i]) else SomePair(terms, adds, node)
  {
    if terms == [] {
      var r := Rewritten(terms, adds);
      forall i | 0 <= i < |adds| ensures TermMatches(r[i], node) <==> node.labelsMeet(adds[i]) {
        assert r[i].expressions[0] == adds[i];
      }
      if i :| 0 <= i < |adds| && node.labelsMeet(adds[i]) {
        assert TermMatches(r[i], node);
      }
    } else {
      DistributedMeans(terms, adds, node);
    }
  }

  /** No old expression is on a key that is added. */
  ghost predicate Separate(terms: seq<Term>, adds: seq<Requirement>) {
    forall i, j :: 0 <= i < |adds| && 0 <= j < |terms| ==> KeyFree(terms[j].expressions, adds[i].key)
  }

  predicate IsEmpty(term: Term) { term.expressions == [] && term.fields == [] }

  predicate NoneEmpty(terms: seq<Term>) {
    forall j :: 0 <= j < |terms| ==> !IsEmpty(terms[j])
  }

  predicate KeyFree(expressions: seq<Requirement>, key: string) {
    forall k :: 0 <= k < |expressions| ==> expressions[k].key != key
  }

  lemma {:induction false} WithoutAbsentKey(expressions: seq<Requirement>, key: string)
    requires KeyFree(expressions, key)
    ensures Without(expressions, key) == expressions
  {
    if expressions != [] {
      var n := |expressions| - 1;
      assert KeyFree(expressions[..n], key);
      WithoutAbsentKey(expressions[..n], key);
      assert expressions == expressions[..n] + [expressions[n]];
    }
  }

  /** On this node the rewriting is an AND distributed over an OR: the node matches exactly when it matched
      before (or there was nothing to match) and some addition holds. */
  ghost predicate IsConjunction(terms: seq<Term>, adds: seq<Requirement>, node: Node) {
    Matches(Rewritten(terms, adds), node) <==>
    (terms == [] || Matches(terms, node)) && exists i :: 0 <= i < |adds| && node.labelsMeet(adds[i])
  }

  lemma RewritingIsConjunction(terms: seq<Term>, adds: seq<Requirement>, node: Node)
    requires adds != [] && Separate(terms, adds) && NoneEmpty(terms)
    ensures IsConjunction(terms, adds, node)
  {
    RewrittenMeans(terms, adds, node);
    forall i, j | 0 <= i < |adds| && 0 <= j < |terms|
      ensures MatchesBeside(terms[j], adds[i].key, node) <==> TermMatches(terms[j], node)
    {
      WithoutAbsentKey(terms[j].expressions, adds[i].key);
    }
    if terms != [] && Matches(terms, node) && exists i :: 0 <= i < |adds| && node.labelsMeet(adds[i]) {
      var j :| 0 <= j < |terms| && TermMatches(terms[j], node);
      var i :| 0 <= i < |adds| && node.labelsMeet(adds[i]);
      assert MatchesBeside(terms[j], adds[i].key, node);
    }
  }

  ghost predicate SomeAddition(adds: seq<Requirement>, node: Node) {
    exists i :: 0 <= i < |adds| && node.labelsMeet(adds[i])
  }

  /** An empty term matches no node, but narrowed it matches like the addition: a node that meets an addition
      and did not match before matches after. */
  lemma EmptyTermMatchesLater(terms: seq<Term>, adds: seq<Requirement>, node: Node)
    requires adds != [] && !NoneEmpty(terms) && SomeAddition(adds, node)
    ensures Matches(Rewritten(terms, adds), node)
  {
    var i :| 0 <= i < |adds| && node.labelsMeet(adds[i]);
    var j :| 0 <= j < |terms| && IsEmpty(terms[j]);
    assert MatchesBeside(terms[j], adds[i].key, node);
    RewrittenMeans(terms, adds, node);
  }

  /** A node that already matched goes on matching with any addition it meets. */
  lemma MatchingGoesOn(terms: seq<Term>, adds: seq<Requirement>, node: Node)
    requires adds != [] && Separate(terms, adds) && Matches(terms, node) && SomeAddition(adds, node)
    ensures Matches(Rewritten(terms, adds), node)
  {
    var i :| 0 <= i < |adds| && node.labelsMeet(adds[i]);
    var j :| 0 <= j < |terms| && TermMatches(terms[j], node);
    WithoutAbsentKey(terms[j].expressions, adds[i].key);
    assert MatchesBeside(terms[j], adds[i].key, node);
    RewrittenMeans(terms, adds, node);
  }

  /** Without key clashes the rewriting is the conjunction on a node exactly when no term is empty, or the node
      matched before, or it meets no addition. */
  lemma ConjunctionIff(terms: seq<Term>, adds: seq<Requirement>, node: Node)
    requires adds != [] && Separate(terms, adds)
    ensures IsConjunction(terms, adds, node) <==> NoneEmpty(terms) || Matches(terms, node) || !SomeAddition(adds, node)
  {
    if NoneEmpty(terms) {
      RewritingIsConjunction(terms, adds, node);
    } else if !SomeAddition(adds, node) {
      RewrittenMeans(terms, adds, node);
    } else if Matches(terms, node) {
      MatchingGoesOn(terms, adds, node);
    } else {
      EmptyTermMatchesLater(terms, adds, node);
    }
  }

  // ------------------------------------------------ labels of real nodes

  /** What a requirement means of labels; `greater` compares the numbers that two values stand for. */
  predicate LabelMeets(labels: map<string, string>, greater: (string, string) -> bool, r: Requirement) {
    match r.op
    case In => r.key in labels && labels[r.key] in r.values
    case NotIn => r.key !in labels || labels[r.key] !in r.values
    case Exists => r.key in labels
    case DoesNotExist => r.key !in labels
    case Gt => r.key in labels && |r.values| == 1 && greater(labels[r.key], r.values[0])
    case Lt => r.key in labels && |r.values| == 1 && greater(r.values[0], labels[r.key])
  }

  /** The only field a term may ask about is the name. */
  predicate NameMeets(name: string, r: Requirement) {
    r.key == "metadata.name" && ((r.op.In? && name in r.values) || (r.op.NotIn? && name !in r.values))
  }

  function RealNode(labels: map<string, string>, name: string, greater: (string, string) -> bool): Node {
    Node(r => LabelMeets(labels, greater, r), r => NameMeets(name, r))
  }

  /** The requirement asks for a label to be there. */
  predicate AsksForLabel(r: Requirement) { r.op.In? || r.op.Exists? || r.op.Gt? || r.op.Lt? }

  /** Every term is empty or asks for some label. */
  predicate AskForLabels(terms: seq<Term>) {
    forall j :: 0 <= j < |terms| && !IsEmpty(terms[j]) ==>
                  exists k :: 0 <= k < |terms[j].expressions| && AsksForLabel(terms[j].expressions[k])
  }

  /** Labels that meet the requirement, and no others. */
  function JustEnough(r: Requirement): map<string, string> {
    match r.op
    case In => if r.values == [] then map[] else map[r.key := r.values[0]]
    case Exists => map[r.key := ""]
    case _ => map[]
  }

  /** A failing node: with an empty term among terms that otherwise ask for labels, a node with just the labels
      of the first addition did not match before and matches after. */
  lemma EmptyTermComesAlive(terms: seq<Term>, adds: seq<Requirement>, name: string, greater: (string, string) -> bool)
    requires adds != [] && Separate(terms, adds) && !NoneEmpty(terms) && AskForLabels(terms)
    requires adds[0].op.NotIn? || adds[0].op.Exists? || adds[0].op.DoesNotExist? ||
             (adds[0].op.In? && adds[0].values != [])
    ensures var node := RealNode(JustEnough(adds[0]), name, greater);
            !Matches(terms, node) && Matches(Rewritten(terms, adds), node) && !IsConjunction(terms, adds, node)
  {
    var node := RealNode(JustEnough(adds[0]), name, greater);
    forall j | 0 <= j < |terms|
      ensures !TermMatches(terms[j], node)
    {
      assert KeyFree(terms[j].expressions, adds[0].key);
      if !IsEmpty(terms[j]) {
        var k :| 0 <= k < |terms[j].expressions| && AsksForLabel(terms[j].expressions[k]);
        assert !node.labelsMeet(terms[j].expressions[k]);
      }
    }
    assert node.labelsMeet(adds[0]);
    EmptyTermMatchesLater(terms, adds, node);
  }

  /** An empty term may also do no harm: beside two terms of which every node matches one, the rewriting is the
      conjunction on every node. */
  lemma EmptyTermMayBeHidden(key: string, values: seq<string>, adds: seq<Requirement>, labels: map<string, string>,
                             name: string, greater: (string, string) -> bool)
    requires adds != [] && forall i :: 0 <= i < |adds| ==> adds[i].key != key
    ensures var terms := [Term([], []), Term([Requirement(key, NotIn, values)], []),
            Term([Requirement(key, In, values)], [])];
            !NoneEmpty(terms) && IsConjunction(terms, adds, RealNode(labels, name, greater))
  {
    var terms := [Term([], []), Term([Requirement(key, NotIn, values)], []), Term([Requirement(key, In, values)], [])];
    var node := RealNode(labels, name, greater);
    assert IsEmpty(terms[0]);
    assert TermMatches(terms[1], node) || TermMatches(terms[2], node);
    ConjunctionIff(terms, adds, node);
  }
}
