/** Which of a shard's args the controller owns. An annotation remembers the keys it wrote last; the next
    merge takes those back, keeps every other arg, and writes the args desired now. */
module ShardArgs {
  import opened Strings
  import opened Wrappers

  /** The args of a shard and the annotation that tracks the managed ones. */
  datatype Tracked = Tracked(args: map<string, string>, managed: Option<string>)

  /** A fixed way to list keys, such as sorting them. */
  type Listing = set<string> -> seq<string>

  ghost predicate ListsAll(listing: Listing) {
    forall keys :: Listed(listing(keys)) == keys
  }

  function Listed(keys: seq<string>): set<string> { set i | 0 <= i < |keys| :: keys[i] }

  function PreviouslyManaged(managed: string): set<string> { Listed(Split(managed, ',')) }

  /** An untracked shard keeps none of its args. */
  function Merged(shard: Tracked, desired: map<string, string>, listing: Listing): Tracked {
    var kept := if shard.managed.Some? then shard.args - PreviouslyManaged(shard.managed.value) else map[];
    Tracked(kept + desired, Some(Join(listing(desired.Keys), ',')))
  }

  class Shard {
    var args: map<string, string>
    var managed: Option<string>

    constructor (args: map<string, string>, managed: Option<string>)
      ensures this.args == args && this.managed == managed
    {
      this.args, this.managed := args, managed;
    }

    function Value(): Tracked
      reads this
    {
      Tracked(args, managed)
    }

    method MergeArgs(desired: map<string, string>, listing: Listing)
      modifies this
      ensures Value() == Merged(old(Value()), desired, listing)
    {
      var merged: map<string, string> := map[];
      if managed.Some? {
        var previous := PreviouslyManaged(managed.value);
        var rest := args.Keys;
        while rest != {}
          invariant rest <= args.Keys && merged == map k | k in args && k !in rest && k !in previous :: args[k]
          decreases rest
        {
          var key :| key in rest;
          rest := rest - {key};
          if key !in previous {
            merged := merged[key := args[key]];
          }
        }
        assert merged == args - previous;
      }
      args := merged + desired;
      managed := Some(Join(listing(desired.Keys), ','));
    }
  }

  // ------------------------------------------------ many merges

  /** Keys the annotation can carry: at least one, none with a comma. */
  predicate Plain(desired: map<string, string>) {
    desired != map[] && forall k :: k in desired ==> ',' !in k
  }

  ghost function MergedAll(shard: Tracked, all: seq<map<string, string>>, listing: Listing): Tracked {
    if all == [] then shard else Merged(MergedAll(shard, all[..|all| - 1], listing), all[|all| - 1], listing)
  }

  /** Every key that some of these merges desired. */
  ghost function KeysOf(all: seq<map<string, string>>): set<string> {
    if all == [] then {} else KeysOf(all[..|all| - 1]) + all[|all| - 1].Keys
  }

  /** The annotation reads back as the keys it was written from. */
  lemma AnnotationReadsBack(desired: map<string, string>, listing: Listing)
    requires ListsAll(listing) && Plain(desired)
    ensures PreviouslyManaged(Join(listing(desired.Keys), ',')) == desired.Keys
  {
    var keys := listing(desired.Keys);
    assert Listed(keys) == desired.Keys;
    forall i | 0 <= i < |keys|
      ensures ',' !in keys[i]
    {
      assert keys[i] in Listed(keys);
    }
    var some :| some in desired;
    assert some in Listed(keys);
    SplitJoin(keys, ',');
  }

  /** After any number of merges: what was not managed at the start and was never desired before the last
      merge, overlaid by what is desired last. */
  lemma {:induction false} MergedAllIs(shard: Tracked, all: seq<map<string, string>>, listing: Listing)
    requires ListsAll(listing) && shard.managed.Some? && all != []
    requires forall i :: 0 <= i < |all| ==> Plain(all[i])
    ensures var last := |all| - 1;
            && MergedAll(shard, all, listing).args
               == (shard.args - (PreviouslyManaged(shard.managed.value) + KeysOf(all[..last]))) + all[last]
            && MergedAll(shard, all, listing).managed == Some(Join(listing(all[last].Keys), ','))
  {
    var last := |all| - 1;
    var earlier := all[..last];
    if last > 0 {
      MergedAllIs(shard, earlier, listing);
      AnnotationReadsBack(earlier[last - 1], listing);
      OneMoreMerge(shard.args, PreviouslyManaged(shard.managed.value), KeysOf(earlier[..last - 1]), earlier[last - 1]);
    }
  }

  lemma OneMoreMerge(args: map<string, string>, first: set<string>, between: set<string>, desired: map<string, string>)
    ensures ((args - (first + between)) + desired) - desired.Keys == args - (first + (between + desired.Keys))
  {
    var l := ((args - (first + between)) + desired) - desired.Keys;
    var r := args - (first + (between + desired.Keys));
    assert l.Keys == r.Keys;
    assert forall k :: k in l ==> l[k] == r[k];
  }

  /** An arg under a key that is never managed is never touched; a managed arg that is no longer desired is
      gone; and every arg desired last has its desired value. */
  lemma OwnershipHolds(shard: Tracked, all: seq<map<string, string>>, listing: Listing, key: string)
    requires ListsAll(listing) && shard.managed.Some? && all != []
    requires forall i :: 0 <= i < |all| ==> Plain(all[i])
    ensures var args, last := MergedAll(shard, all, listing).args, all[|all| - 1];
            var ours := PreviouslyManaged(shard.managed.value) + KeysOf(all);
            && (key !in ours ==> (key in args <==> key in shard.args) && (key in args ==> args[key] == shard.args[key]))
            && (key in ours && key !in last ==> key !in args)
            && (key in last ==> key in args && args[key] == last[key])
  {
    MergedAllIs(shard, all, listing);
  }

  /** Merging twice is merging once, also for the first merge of an untracked shard. */
  lemma MergingTwice(shard: Tracked, desired: map<string, string>, listing: Listing)
    requires ListsAll(listing) && Plain(desired)
    ensures Merged(Merged(shard, desired, listing), desired, listing) == Merged(shard, desired, listing)
  {
    AnnotationReadsBack(desired, listing);
    var once := Merged(shard, desired, listing);
    var kept := if shard.managed.Some? then shard.args - PreviouslyManaged(shard.managed.value) else map[];
    assert once.args - desired.Keys == kept - desired.Keys;
    assert (kept - desired.Keys) + desired == kept + desired;
  }
}
