/**
 * The list comprehensions `VariantSet.__init__` uses to match samples to a
 * watch-list and to its entries (usher_PDF_report.py), the frequency
 * `VariantInfo.printTableLine` reports, and what the counts add up to.
 */
module Aggregate {
  import opened Samples

  /** `[s for s in samples if s.hasIssue == issue]`. */
  function WithIssue(samples: seq<Sample>, issue: Issue): (r: seq<Sample>)
    ensures |r| <= |samples|
    ensures forall s :: s in r <==> s in samples && s.issue == issue
    ensures forall s {:trigger multiset(r)[s]} :: multiset(r)[s] == if s.issue == issue then multiset(samples)[s] else 0
    decreases |samples|
  {
    if samples == [] then []
    else
      assert samples == [samples[0]] + samples[1..];
      (if samples[0].issue == issue then [samples[0]] else []) + WithIssue(samples[1..], issue)
  }

  /** `[s for s in samples if s.neighbor in keys]`. */
  function NeighborIn(samples: seq<Sample>, keys: seq<string>): (r: seq<Sample>)
    ensures |r| <= |samples|
    ensures forall s :: s in r <==> s in samples && s.neighbor in keys
    ensures forall s {:trigger multiset(r)[s]} :: multiset(r)[s] == if s.neighbor in keys then multiset(samples)[s] else 0
    decreases |samples|
  {
    if samples == [] then []
    else
      assert samples == [samples[0]] + samples[1..];
      (if samples[0].neighbor in keys then [samples[0]] else []) + NeighborIn(samples[1..], keys)
  }

  /** `[m for m in matched if m.neighbor == variant]`. */
  function WithNeighbor(matched: seq<Sample>, variant: string): (r: seq<Sample>)
    ensures |r| <= |matched|
    ensures forall s :: s in r <==> s in matched && s.neighbor == variant
    ensures forall s {:trigger multiset(r)[s]} :: multiset(r)[s] == if s.neighbor == variant then multiset(matched)[s] else 0
    decreases |matched|
  {
    if matched == [] then []
    else
      assert matched == [matched[0]] + matched[1..];
      (if matched[0].neighbor == variant then [matched[0]] else []) + WithNeighbor(matched[1..], variant)
  }

  /** Every sample has the `spikeMuts` attribute (so `variant in m.spikeMuts` cannot raise). */
  predicate HaveSpikeMuts(samples: seq<Sample>)
  {
    forall s :: s in samples ==> s.spikeMuts.Some?
  }

  /** `[m for m in matched if variant in m.spikeMuts]`. */
  function Carrying(matched: seq<Sample>, variant: string): (r: seq<Sample>)
    requires HaveSpikeMuts(matched)
    ensures |r| <= |matched|
    ensures forall s :: s in r <==> s in matched && variant in s.spikeMuts.value
    ensures forall s {:trigger multiset(r)[s]} :: multiset(r)[s] == if s in matched && variant in s.spikeMuts.value then multiset(matched)[s] else 0
    decreases |matched|
  {
    if matched == [] then []
    else
      assert matched == [matched[0]] + matched[1..];
      (if variant in matched[0].spikeMuts.value then [matched[0]] else []) + Carrying(matched[1..], variant)
  }

  /** The samples a `VariantSet` matches: by label for the mutation set, by neighbour otherwise. */
  function Matched(samples: seq<Sample>, variantDict: WatchList, isMutation: bool): seq<Sample>
  {
    if isMutation then WithIssue(samples, MutationOfConcern) else NeighborIn(samples, Keys(variantDict))
  }

  /** What the mutation set needs of the samples: those labelled mutation of concern have `spikeMuts`. */
  predicate MutationReady(samples: seq<Sample>)
  {
    forall s :: s in samples && s.issue == MutationOfConcern ==> s.spikeMuts.Some?
  }

  /** The samples a `VariantInfo` for `variant` receives. */
  function Group(matched: seq<Sample>, variant: string, isMutation: bool): seq<Sample>
    requires isMutation ==> HaveSpikeMuts(matched)
  {
    if isMutation then Carrying(matched, variant) else WithNeighbor(matched, variant)
  }

  /** The sum of the group sizes over a list of keys. */
  function GroupSizes(matched: seq<Sample>, keys: seq<string>, isMutation: bool): nat
    requires isMutation ==> HaveSpikeMuts(matched)
    decreases |keys|
  {
    if keys == [] then 0 else |Group(matched, keys[0], isMutation)| + GroupSizes(matched, keys[1..], isMutation)
  }

  /** The frequency cell: the integer 0 without hits, else the exact ratio behind `round(hits / total, 2)`. */
  datatype Fraction = IntZero | Ratio(hits: nat, total: nat)

  function Frequency(hitCount: nat, totalSampleCount: nat): Fraction
  {
    if hitCount > 0 then Ratio(hitCount, totalSampleCount) else IntZero
  }

  /** The mutation set's matched samples all carry `spikeMuts`. */
  lemma MatchedMutationReady(samples: seq<Sample>, variantDict: WatchList)
    requires MutationReady(samples)
    ensures HaveSpikeMuts(Matched(samples, variantDict, true))
  {
  }

  /**
   * A group holds at most the matched samples, which are at most all samples;
   * so the frequency is 0 exactly for an empty group, and otherwise a ratio
   * with 0 < hits <= total: the division never sees a zero total.
   */
  lemma GroupFrequency(samples: seq<Sample>, variantDict: WatchList, isMutation: bool, variant: string)
    requires isMutation ==> MutationReady(samples)
    ensures isMutation ==> HaveSpikeMuts(Matched(samples, variantDict, isMutation))
    ensures var matched := Matched(samples, variantDict, isMutation);
      var hits := |Group(matched, variant, isMutation)|;
      var f := Frequency(hits, |samples|);
      && hits <= |matched| <= |samples|
      && (f == IntZero <==> hits == 0)
      && (f.Ratio? ==> f.hits == hits && f.total == |samples| && 0 < f.hits <= f.total)
  {
  }

  /** Splitting off the first key splits the neighbour filter in two disjoint parts. */
  lemma {:induction false} NeighborInCons(ms: seq<Sample>, k: string, ks: seq<string>)
    requires k !in ks
    ensures |NeighborIn(ms, [k] + ks)| == |WithNeighbor(ms, k)| + |NeighborIn(ms, ks)|
    decreases |ms|
  {
    if ms != [] {
      NeighborInCons(ms[1..], k, ks);
    }
  }

  /** Filtering samples that already pass keeps them all. */
  lemma {:induction false} NeighborInAll(ms: seq<Sample>, keys: seq<string>)
    requires forall s :: s in ms ==> s.neighbor in keys
    ensures NeighborIn(ms, keys) == ms
    decreases |ms|
  {
    if ms != [] {
      assert ms[0] in ms;
      forall s | s in ms[1..]
        ensures s.neighbor in keys
      {
        assert s in ms;
      }
      NeighborInAll(ms[1..], keys);
      assert [ms[0]] + ms[1..] == ms;
    }
  }

  /** Over distinct keys, the per-key neighbour groups add up to the neighbour filter. */
  lemma {:induction false} NeighborGroupsAddUp(ms: seq<Sample>, keys: seq<string>)
    requires NoDuplicates(keys)
    ensures GroupSizes(ms, keys, false) == |NeighborIn(ms, keys)|
    decreases |keys|
  {
    if keys == [] {
      NeighborInEmpty(ms);
    } else {
      NeighborGroupsAddUp(ms, keys[1..]);
      assert keys[0] !in keys[1..];
      NeighborInCons(ms, keys[0], keys[1..]);
      assert [keys[0]] + keys[1..] == keys;
    }
  }

  lemma {:induction false} NeighborInEmpty(ms: seq<Sample>)
    ensures NeighborIn(ms, []) == []
    decreases |ms|
  {
    if ms != [] {
      NeighborInEmpty(ms[1..]);
    }
  }

  lemma DistinctKeysOf(w: WatchList)
    requires DistinctKeys(w)
    ensures NoDuplicates(Keys(w))
  {
  }

  /**
   * In a variant set every matched sample falls in exactly one group: the group
   * counts add up to `sCount`.
   */
  lemma VariantGroupsPartition(samples: seq<Sample>, variantDict: WatchList)
    requires DistinctKeys(variantDict)
    ensures GroupSizes(Matched(samples, variantDict, false), Keys(variantDict), false)
         == |Matched(samples, variantDict, false)|
  {
    var matched := Matched(samples, variantDict, false);
    DistinctKeysOf(variantDict);
    NeighborGroupsAddUp(matched, Keys(variantDict));
    NeighborInAll(matched, Keys(variantDict));
  }

  /** Sample `s` carries at least one of `keys`. */
  predicate CarriesAny(s: Sample, keys: seq<string>)
    requires s.spikeMuts.Some?
  {
    exists k :: k in keys && k in s.spikeMuts.value
  }

  /** `[m for m in ms if any(k in m.spikeMuts for k in keys)]`. */
  function CarryingAny(ms: seq<Sample>, keys: seq<string>): (r: seq<Sample>)
    requires HaveSpikeMuts(ms)
    decreases |ms|
  {
    if ms == [] then []
    else (if CarriesAny(ms[0], keys) then [ms[0]] else []) + CarryingAny(ms[1..], keys)
  }

  /** A sample carrying one of `[k] + ks` carries `k` or one of `ks`: a union bound. */
  lemma {:induction false} CarryingAnyCons(ms: seq<Sample>, k: string, ks: seq<string>)
    requires HaveSpikeMuts(ms)
    ensures |CarryingAny(ms, [k] + ks)| <= |Carrying(ms, k)| + |CarryingAny(ms, ks)|
    decreases |ms|
  {
    if ms != [] {
      CarryingAnyCons(ms[1..], k, ks);
      var s := ms[0];
      if CarriesAny(s, [k] + ks) && k !in s.spikeMuts.value {
        var k' :| k' in [k] + ks && k' in s.spikeMuts.value;
        assert k' in ks;
      }
    }
  }

  /** The mutation group sizes add up to at least the samples carrying any key. */
  lemma {:induction false} MutationGroupsAtLeast(ms: seq<Sample>, keys: seq<string>)
    requires HaveSpikeMuts(ms)
    ensures GroupSizes(ms, keys, true) >= |CarryingAny(ms, keys)|
    decreases |keys|
  {
    if keys == [] {
      CarryingNothing(ms);
    } else {
      MutationGroupsAtLeast(ms, keys[1..]);
      CarryingAnyCons(ms, keys[0], keys[1..]);
      assert [keys[0]] + keys[1..] == keys;
    }
  }

  lemma {:induction false} CarryingNothing(ms: seq<Sample>)
    requires HaveSpikeMuts(ms)
    ensures CarryingAny(ms, []) == []
    decreases |ms|
  {
    if ms != [] {
      CarryingNothing(ms[1..]);
    }
  }

  /** When every sample carries a key, none is filtered out. */
  lemma {:induction false} CarryingAnyAll(ms: seq<Sample>, keys: seq<string>)
    requires HaveSpikeMuts(ms)
    requires forall s :: s in ms ==> CarriesAny(s, keys)
    ensures CarryingAny(ms, keys) == ms
    decreases |ms|
  {
    if ms != [] {
      assert forall s :: s in ms[1..] ==> s in ms;
      CarryingAnyAll(ms[1..], keys);
    }
  }

  /** Each mutation group holds at most the matched samples. */
  lemma {:induction false} MutationGroupsAtMost(ms: seq<Sample>, keys: seq<string>)
    requires HaveSpikeMuts(ms)
    ensures GroupSizes(ms, keys, true) <= |keys| * |ms|
    decreases |keys|
  {
    if keys != [] {
      MutationGroupsAtMost(ms, keys[1..]);
      var first := |Group(ms, keys[0], true)|;
      var rest := GroupSizes(ms, keys[1..], true);
      assert GroupSizes(ms, keys, true) == first + rest;
      assert first <= |ms|;
      MulSucc(|keys[1..]|, |ms|);
    }
  }

  lemma MulSucc(n: nat, m: nat)
    ensures (n + 1) * m == m + n * m
  {
  }

  /**
   * In a mutation set built from classified samples every matched sample is
   * in at least one group and at most in all of them, so the group counts add
   * up to between `sCount` and `sCount` times the number of entries.
   */
  lemma MutationGroupsCover(samples: seq<Sample>, vocs: WatchList, vois: WatchList, mocs: WatchList)
    requires forall s :: s in samples ==> Classified(s, vocs, vois, mocs)
    ensures MutationReady(samples)
    ensures var matched := Matched(samples, mocs, true);
      HaveSpikeMuts(matched)
      && |matched| <= GroupSizes(matched, Keys(mocs), true) <= |Keys(mocs)| * |matched|
  {
    var matched := Matched(samples, mocs, true);
    forall s | s in matched ensures CarriesAny(s, Keys(mocs)) {
      var m := s.spikeMuts.value[0];
      assert m in s.spikeMuts.value;
    }
    CarryingAnyAll(matched, Keys(mocs));
    MutationGroupsAtLeast(matched, Keys(mocs));
    MutationGroupsAtMost(matched, Keys(mocs));
  }

  /** A sample with two mutations of concern is in both groups: mutation groups may overlap. */
  lemma MutationGroupsOverlap(s: Sample, ms: seq<Sample>, a: string, b: string)
    requires s in ms && HaveSpikeMuts(ms)
    requires a in s.spikeMuts.value && b in s.spikeMuts.value
    ensures s in Group(ms, a, true) && s in Group(ms, b, true)
  {
  }

  /** No key of one watch-list is a key of the other. */
  predicate DisjointKeys(v: WatchList, w: WatchList)
  {
    forall k :: k in Keys(v) ==> k !in Keys(w)
  }

  /**
   * With disjoint variant watch-lists, the three section counts and the
   * unlabelled samples add up to the number of samples: every sample is
   * counted exactly once.
   */
  lemma {:induction false} CountsConserved(samples: seq<Sample>, vocs: WatchList, vois: WatchList, mocs: WatchList)
    requires DisjointKeys(vocs, vois)
    requires forall s :: s in samples ==> Classified(s, vocs, vois, mocs)
    ensures |Matched(samples, vocs, false)| + |Matched(samples, vois, false)| + |Matched(samples, mocs, true)|
          + |WithIssue(samples, NoIssue)| == |samples|
    decreases |samples|
  {
    if samples != [] {
      assert forall s :: s in samples[1..] ==> s in samples;
      CountsConserved(samples[1..], vocs, vois, mocs);
      assert Classified(samples[0], vocs, vois, mocs);
    }
  }

  /**
   * Without disjointness the counts are not conserved: a sample whose
   * neighbour is a key of both lists is a variant of concern and is still
   * counted in the variants-of-interest section.
   */
  lemma SharedKeyCountedTwice(s: Sample, vocs: WatchList, vois: WatchList, mocs: WatchList)
    requires Classified(s, vocs, vois, mocs)
    requires s.neighbor in Keys(vocs) && s.neighbor in Keys(vois)
    ensures s.issue == VariantOfConcern
    ensures |Matched([s], vocs, false)| + |Matched([s], vois, false)| + |Matched([s], mocs, true)|
          + |WithIssue([s], NoIssue)| == 2
  {
    assert [s][1..] == [];
  }

  /**
   * The script's own watch-lists meet what the count lemmas require: no list
   * repeats a key, and no variant is both of concern and of interest.
   */
  lemma ScriptWatchLists()
    ensures DistinctKeys(Vocs) && DistinctKeys(Vois) && DistinctKeys(Mocs)
    ensures DisjointKeys(Vocs, Vois)
  {
  }

  /**
   * So with the script's watch-lists every sample is counted exactly once, and
   * each variant section's group counts add up to its sample count.
   */
  lemma ScriptCountsConserved(samples: seq<Sample>)
    requires forall s :: s in samples ==> Classified(s, Vocs, Vois, Mocs)
    ensures |Matched(samples, Vocs, false)| + |Matched(samples, Vois, false)| + |Matched(samples, Mocs, true)|
          + |WithIssue(samples, NoIssue)| == |samples|
    ensures GroupSizes(Matched(samples, Vocs, false), Keys(Vocs), false) == |Matched(samples, Vocs, false)|
    ensures GroupSizes(Matched(samples, Vois, false), Keys(Vois), false) == |Matched(samples, Vois, false)|
  {
    ScriptWatchLists();
    CountsConserved(samples, Vocs, Vois, Mocs);
    VariantGroupsPartition(samples, Vocs);
    VariantGroupsPartition(samples, Vois);
  }
}
