/** Which node pool a pod group is assigned to next: round robin over the requested pools,
    skipping the unavailable ones. */
module AssignmentParams {
  import opened Wrappers

  const NO_BACKOFF := -1
  const SINGLE_BACKOFF := 1
  const DELETING := "Deleting"
  const UNSCHEDULABLE := "Unschedulable"

  datatype Status = Available | Unavailable | Unknown

  /** What the phase of a node pool says about scheduling on it; a pool that cannot be read is unknown. */
  function StatusOf(phases: map<string, string>, pool: string): Status {
    if pool !in phases then Unknown
    else if phases[pool] != "" && phases[pool] != DELETING && phases[pool] != UNSCHEDULABLE then Available
    else Unavailable
  }

  datatype Params = Params(pool: string, mark: bool, backoff: int, removeCondition: bool)

  datatype Result = Assigned(params: Params) | LookupFailed(pool: string) | NoneAvailable

  function IndexOf(list: seq<string>, item: string): (i: int)
    ensures -1 <= i < |list|
    ensures i >= 0 ==> list[i] == item
    ensures i == -1 <==> item !in list
  {
    if list == [] then -1
    else if list[0] == item then 0
    else var i := IndexOf(list[1..], item); if i < 0 then -1 else i + 1
  }

  predicate Distinct(list: seq<string>) {
    forall i, j :: 0 <= i < j < |list| ==> list[i] != list[j]
  }

  lemma {:induction false} IndexOfElement(list: seq<string>, i: nat)
    requires Distinct(list) && i < |list|
    ensures IndexOf(list, list[i]) == i
  {
    if i > 0 {
      assert list[0] != list[i];
      assert Distinct(list[1..]) by {
        forall a, b | 0 <= a < b < |list[1..]| ensures list[1..][a] != list[1..][b] {
          assert list[a + 1] != list[b + 1];
        }
      }
      IndexOfElement(list[1..], i - 1);
    }
  }

  /** One trip round a list of length `n`. */
  function Round(x: int, n: nat): (r: int)
    requires 0 <= x < 2 * n
    ensures 0 <= r < n
  {
    if x < n then x else x - n
  }

  lemma MultipleIsLarge(n: nat, d: int)
    requires d > 0
    ensures n * d >= n
  {
  }

  lemma UniqueRemainder(x: int, q: int, r: int, n: nat)
    requires n > 0 && x == n * q + r && 0 <= r < n
    ensures x % n == r
  {
    var d := q - x / n;
    assert x == n * (x / n) + x % n;
    assert n * d == x % n - r by {
      assert n * d == n * q - n * (x / n);
    }
    if d > 0 {
      MultipleIsLarge(n, d);
    } else if d < 0 {
      assert n * -d == -(n * d);
      MultipleIsLarge(n, -d);
    }
  }

  /** On the positions that come up, going round is the remainder. */
  lemma RoundIsRemainder(x: int, n: nat)
    requires 0 <= x < 2 * n
    ensures x % n == Round(x, n)
  {
    if x >= n {
      assert x == n * 1 + (x - n);
      UniqueRemainder(x, 1, x - n, n);
    }
  }

  /** The pool `k` places after position `from`, going round. */
  function Place(requested: seq<string>, from: int, k: nat): string
    requires -1 <= from < |requested| && 1 <= k <= |requested|
  {
    requested[Round(from + k, |requested|)]
  }

  /** The first of the places `k`, `k + 1`, ... after `from`, below `limit`, that is not
      unavailable; `limit` if all are. */
  function FirstStop(requested: seq<string>, phases: map<string, string>, from: int, k: nat, limit: nat): (j: nat)
    requires -1 <= from < |requested| && 1 <= k <= limit <= |requested| + 1
    ensures k <= j <= limit
    ensures j < limit ==> !StatusOf(phases, Place(requested, from, j)).Unavailable?
    decreases limit - k
  {
    if k == limit || !StatusOf(phases, Place(requested, from, k)).Unavailable? then k
    else FirstStop(requested, phases, from, k + 1, limit)
  }

  lemma {:induction false} FirstStopSkips(requested: seq<string>, phases: map<string, string>, from: int, k: nat,
                                          limit: nat, i: nat)
    requires -1 <= from < |requested| && 1 <= k <= limit <= |requested| + 1
    requires k <= i < FirstStop(requested, phases, from, k, limit)
    ensures StatusOf(phases, Place(requested, from, i)).Unavailable?
    decreases limit - k
  {
    if i > k {
      FirstStopSkips(requested, phases, from, k + 1, limit, i);
    }
  }

  function Backoff(requested: seq<string>): int {
    if |requested| == 1 then NO_BACKOFF else SINGLE_BACKOFF
  }

  function MarkValue(mark: Option<bool>): bool {
    mark.None? || mark.value
  }

  /** The first candidate: stay, or start at the front, while nothing failed; else one place on. */
  function Initial(mark: Option<bool>, last: Option<string>, current: string, requested: seq<string>): Params
    requires requested != []
  {
    match last
    case None =>
      Params(
        if IndexOf(requested, current) >= 0 then current else requested[0],
        |requested| == 1 || (mark.Some? && mark.value),
        Backoff(requested), false)
    case Some(previous) =>
      var next := Round(IndexOf(requested, previous) + 1, |requested|);
      Params(requested[next], MarkValue(mark) || next == |requested| - 1, Backoff(requested), false)
  }

  method GetInitial(mark: Option<bool>, last: Option<string>, current: string, requested: seq<string>)
    returns (params: Params)
    requires requested != []
    ensures params == Initial(mark, last, current, requested)
  {
    var backoff := Backoff(requested);
    if last.None? {
      var pool := requested[0];
      if IndexOf(requested, current) >= 0 {
        pool := current;
      }
      var visible := |requested| == 1;
      if !visible && mark.Some? && mark.value {
        visible := true;
      }
      return Params(pool, visible, backoff, false);
    }
    var previous := IndexOf(requested, last.value);
    RoundIsRemainder(previous + 1, |requested|);
    var next := (previous + 1) % |requested|;
    return Params(requested[next], MarkValue(mark) || next == |requested| - 1, backoff, false);
  }

  /** What the search past an unavailable candidate finds. Unschedulability is made visible once the
      search reaches the last pool or goes round. */
  function NextFound(requested: seq<string>, phases: map<string, string>, params: Params): Result
    requires requested != []
  {
    var previous := IndexOf(requested, params.pool);
    var k := FirstStop(requested, phases, previous, 1, |requested|);
    if k == |requested| then NoneAvailable
    else
      var next := Round(previous + k, |requested|);
      if StatusOf(phases, requested[next]).Unknown? then LookupFailed(requested[next])
      else Assigned(params.(pool := requested[next], mark := params.mark || next == |requested| - 1 || next < previous))
  }

  method FindNext(requested: seq<string>, phases: map<string, string>, params: Params) returns (r: Result)
    requires requested != []
    ensures r == NextFound(requested, phases, params)
  {
    var previous := IndexOf(requested, params.pool);
    var index := 1;
    while index < |requested|
      invariant 1 <= index <= |requested|
      invariant FirstStop(requested, phases, previous, 1, |requested|) ==
                FirstStop(requested, phases, previous, index, |requested|)
    {
      RoundIsRemainder(previous + index, |requested|);
      var next := (previous + index) % |requested|;
      var pool := requested[next];
      var status := StatusOf(phases, pool);
      if status.Unknown? {
        return LookupFailed(pool);
      }
      if status.Unavailable? {
        index := index + 1;
        continue;
      }
      var mark := params.mark;
      if !mark && (next == |requested| - 1 || next < previous) {
        mark := true;
      }
      return Assigned(params.(pool := pool, mark := mark));
    }
    return NoneAvailable;
  }

  /** The candidate if it is available, else what the search past it finds. */
  function FromCandidate(requested: seq<string>, phases: map<string, string>, initial: Params): Result
    requires requested != []
  {
    match StatusOf(phases, initial.pool)
    case Unknown => LookupFailed(initial.pool)
    case Available => Assigned(initial)
    case Unavailable => NextFound(requested, phases, initial)
  }

  function Calculated(mark: Option<bool>, last: Option<string>, current: string, requested: seq<string>,
                      phases: map<string, string>): Result
    requires requested != []
  {
    FromCandidate(requested, phases, Initial(mark, last, current, requested))
  }

  /** The whole decision. Coming back to the pool that just failed clears its condition instead. */
  function Decision(mark: Option<bool>, last: Option<string>, current: string, requested: seq<string>,
                    phases: map<string, string>): Result
    requires requested != []
  {
    match Calculated(mark, last, current, requested, phases)
    case Assigned(p) => Assigned(p.(removeCondition := |requested| > 1 && last == Some(p.pool)))
    case other => other
  }

  lemma DecisionIsListed(mark: Option<bool>, last: Option<string>, current: string, requested: seq<string>,
                         phases: map<string, string>)
    requires requested != []
    ensures var d := Decision(mark, last, current, requested, phases);
            d.Assigned? ==> d.params.pool in requested
  {
  }

  method GetParams(mark: Option<bool>, last: Option<string>, current: string, requested: seq<string>,
                   phases: map<string, string>)
    returns (r: Result)
    requires requested != []
    ensures r == Decision(mark, last, current, requested, phases)
  {
    var params := GetInitial(mark, last, current, requested);
    var status := StatusOf(phases, params.pool);
    if status.Unknown? {
      return LookupFailed(params.pool);
    }
    r := Assigned(params);
    if status.Unavailable? {
      r := FindNext(requested, phases, params);
    }
    if r.Assigned? && |requested| > 1 && last.Some? && r.params.pool == last.value {
      r := Assigned(r.params.(removeCondition := true));
    }
  }

  // ------------------------------------------------ the choice is the next one round

  lemma {:induction false} SameStops(requested: seq<string>, phases: map<string, string>, base: int, k: nat)
    requires -1 <= base < |requested| && 1 <= k <= |requested|
    ensures FirstStop(requested, phases, Round(base + 1, |requested|), k, |requested|) + 1
            == FirstStop(requested, phases, base, k + 1, |requested| + 1)
    decreases |requested| - k
  {
    if k < |requested| {
      SameStops(requested, phases, base, k + 1);
    }
  }

  /** `r` follows the `j`-th place after `base`: the pool there, or why there is none. */
  predicate Follows(r: Result, requested: seq<string>, phases: map<string, string>, base: int, j: nat)
    requires -1 <= base < |requested| && 1 <= j <= |requested| + 1
  {
    if j == |requested| + 1 then r.NoneAvailable?
    else
      var pool := Place(requested, base, j);
      if StatusOf(phases, pool).Unknown? then r == LookupFailed(pool)
      else r.Assigned? && r.params.pool == pool
  }

  lemma SearchFollows(requested: seq<string>, phases: map<string, string>, params: Params, base: int, at: nat)
    requires requested != [] && -1 <= base < |requested| && at == Round(base + 1, |requested|)
    requires IndexOf(requested, params.pool) == at
    ensures Follows(NextFound(requested, phases, params), requested, phases, base,
            FirstStop(requested, phases, base, 2, |requested| + 1))
  {
    SameStops(requested, phases, base, 1);
  }

  lemma CalculationFollows(mark: Option<bool>, previous: string, current: string, requested: seq<string>,
                           phases: map<string, string>, base: int)
    requires requested != [] && Distinct(requested) && base == IndexOf(requested, previous)
    ensures Follows(Calculated(mark, Some(previous), current, requested, phases), requested, phases, base,
                    FirstStop(requested, phases, base, 1, |requested| + 1))
  {
    var at := Round(base + 1, |requested|);
    IndexOfElement(requested, at);
    var initial := Initial(mark, Some(previous), current, requested);
    assert initial.pool == Place(requested, base, 1);
    SearchFollows(requested, phases, initial, base, at);
  }

  /** After a failure the decision is the first pool in cyclic order after the failed one, itself
      last, that is not unavailable; and it is an error when all are. */
  lemma DecisionIsNextRound(mark: Option<bool>, previous: string, current: string, requested: seq<string>,
                            phases: map<string, string>)
    requires requested != [] && Distinct(requested)
    ensures var base := IndexOf(requested, previous);
            var d := Decision(mark, Some(previous), current, requested, phases);
            && Follows(d, requested, phases, base, FirstStop(requested, phases, base, 1, |requested| + 1))
            && (d.Assigned? ==> (d.params.removeCondition <==> |requested| > 1 && previous == d.params.pool))
  {
    CalculationFollows(mark, previous, current, requested, phases, IndexOf(requested, previous));
  }

  /** The mark is on if it was to be on at the candidate, or the search past it reached the end of the list or
      went round. */
  lemma SearchMarks(requested: seq<string>, phases: map<string, string>, params: Params, base: int, at: nat)
    requires requested != [] && -1 <= base < |requested| && at == Round(base + 1, |requested|)
    requires IndexOf(requested, params.pool) == at
    ensures var r, j := NextFound(requested, phases, params), FirstStop(requested, phases, base, 2, |requested| + 1);
            r.Assigned? ==>
              && j <= |requested| && r.params.backoff == params.backoff &&
                  r.params.removeCondition == params.removeCondition
              && var pos := Round(base + j, |requested|);
                 r.params.mark <==> params.mark || pos == |requested| - 1 || pos < at
  {
    SameStops(requested, phases, base, 1);
  }

  /** What goes with the pool when the candidate is at `at`: its backoff, and the mark if the candidate had it, or
      the search from there reached the last place or went round. */
  predicate MarkedFrom(r: Result, initial: Params, requested: seq<string>, phases: map<string, string>, base: int,
                       at: int)
    requires -1 <= base < |requested|
  {
    var n, j := |requested|, FirstStop(requested, phases, base, 1, |requested| + 1);
    r.Assigned? ==>
      && r.params.backoff == initial.backoff && j <= n
      && var pos := Round(base + j, n);
         r.params.mark <==> initial.mark || (j > 1 && (pos == n - 1 || pos < at))
  }

  lemma CandidateDecides(requested: seq<string>, phases: map<string, string>, initial: Params, base: int, at: nat)
    requires requested != [] && Distinct(requested) && -1 <= base < |requested| && at == Round(base + 1, |requested|)
    requires initial.pool == requested[at] && !initial.removeCondition
    ensures var r := FromCandidate(requested, phases, initial);
            && Follows(r, requested, phases, base, FirstStop(requested, phases, base, 1, |requested| + 1))
            && MarkedFrom(r, initial, requested, phases, base, at)
            && (r.Assigned? ==> !r.params.removeCondition)
  {
    IndexOfElement(requested, at);
    assert initial.pool == Place(requested, base, 1);
    SearchFollows(requested, phases, initial, base, at);
    SearchMarks(requested, phases, initial, base, at);
  }

  /** After a failure the mark is on exactly when it was on (or unset), or the next place is the last, or the search
      from there reached the last place or went round; the backoff is infinite exactly for a single requested
      pool. */
  lemma DecisionMarks(mark: Option<bool>, previous: string, current: string, requested: seq<string>,
                      phases: map<string, string>)
    requires requested != [] && Distinct(requested)
    ensures var n, base := |requested|, IndexOf(requested, previous);
            var at := Round(base + 1, n);
            MarkedFrom(Decision(mark, Some(previous), current, requested, phases),
                       Params(requested[at], mark != Some(false) || at == n - 1, if n == 1 then -1 else 1, false),
                       requested, phases, base, at)
  {
    var base := IndexOf(requested, previous);
    var initial := Initial(mark, Some(previous), current, requested);
    CandidateDecides(requested, phases, initial, base, Round(base + 1, |requested|));
  }

  /** Without a failure the group stays on its pool if that is requested and available; else the choice is the
      first available pool in cyclic order, from its pool if that is requested and from the front if not. The
      mark is on exactly when it was on, one pool is requested, or the search reached the last place or went
      round; the backoff is infinite exactly for a single requested pool. */
  lemma DecisionWithoutFailure(mark: Option<bool>, current: string, requested: seq<string>, phases: map<string, string>)
    requires requested != [] && Distinct(requested)
    ensures var n, at := |requested|, if current in requested then IndexOf(requested, current) else 0;
            var d := Decision(mark, None, current, requested, phases);
            && (current in requested && StatusOf(phases, current).Available? ==>
                d.Assigned? && d.params.pool == current)
            && Follows(d, requested, phases, at - 1, FirstStop(requested, phases, at - 1, 1, n + 1))
            && MarkedFrom(d, Params(requested[at], mark == Some(true) || n == 1, if n == 1 then -1 else 1, false),
                          requested, phases, at - 1, at)
            && (d.Assigned? ==> !d.params.removeCondition)
  {
    var at: nat := if current in requested then IndexOf(requested, current) else 0;
    CandidateDecides(requested, phases, Initial(mark, None, current, requested), at - 1, at);
  }

  /** A pool takes groups in every phase but none, "Deleting" and "Unschedulable". */
  lemma StatusIs(phases: map<string, string>, pool: string)
    ensures StatusOf(phases, pool) ==
            if pool !in phases then Unknown
            else if phases[pool] in {"", "Deleting", "Unschedulable"} then Unavailable else Available
  {
  }

  /** A search that finds nothing has looked at every other pool. */
  lemma SearchSeesAll(requested: seq<string>, phases: map<string, string>, at: nat, i: nat)
    requires at < |requested| && i < |requested| && i != at
    requires FirstStop(requested, phases, at, 1, |requested|) == |requested|
    ensures StatusOf(phases, requested[i]).Unavailable?
  {
    var d := if i > at then i - at else i - at + |requested|;
    FirstStopSkips(requested, phases, at, 1, |requested|, d);
    assert Round(at + d, |requested|) == i;
  }

  /** When every requested pool can be read, the decision fails exactly when none is available,
      whether something failed before or not. */
  lemma FailsOnlyWhenNoneAvailable(mark: Option<bool>, last: Option<string>, current: string, requested: seq<string>,
                                   phases: map<string, string>)
    requires requested != []
    requires forall i :: 0 <= i < |requested| ==> requested[i] in phases
    ensures !Decision(mark, last, current, requested, phases).Assigned? <==>
            forall i :: 0 <= i < |requested| ==> StatusOf(phases, requested[i]).Unavailable?
  {
    var initial := Initial(mark, last, current, requested);
    var at := IndexOf(requested, initial.pool);
    if FirstStop(requested, phases, at, 1, |requested|) == |requested| && StatusOf(phases, initial.pool).Unavailable? {
      forall i | 0 <= i < |requested| && i != at ensures StatusOf(phases, requested[i]).Unavailable? {
        SearchSeesAll(requested, phases, at, i);
      }
    }
  }
}
