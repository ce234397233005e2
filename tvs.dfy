/**
  The aggregation inside `fetchRedStoneTVS`: every value of `currentChainTvls`
  is added to the total, and also to exactly one breakdown bucket chosen by the
  first marker its key contains. Values are exact reals.
*/
module Tvs {
  import opened Wrappers
  import opened Text

  /** One entry of `currentChainTvls`: a chain key and its value. */
  type Entry = (string, real)

  /** The bucket of keys that contain none of the markers. */
  const BaseBucket: string := "tvl"

  /** The markers, in the order they are tested, and the bucket each one selects. */
  const Markers: seq<string> :=
    ["-staking", "-pool2", "-borrowed", "-doublecounted", "-liquidstaking", "-vesting"]
  const MarkedBuckets: seq<string> :=
    ["staking", "pool2", "borrowed", "doublecounted", "liquidstaking", "vesting"]

  /** Every bucket a key can be put in. */
  const AllBuckets: seq<string> := MarkedBuckets + [BaseBucket]

  /** The part of the response body the aggregation reads. */
  datatype ProtocolData = ProtocolData(currentChainTvls: Option<seq<Entry>>)

  ghost predicate Distinct(names: seq<string>)
  {
    forall i, j :: 0 <= i < j < |names| ==> names[i] != names[j]
  }

  /**
    The bucket of a key: the first marker the key contains, in the fixed order,
    decides; a key with no marker goes to the base bucket.
  */
  function Classify(key: string): (bucket: string)
    ensures bucket in AllBuckets
  {
    if Includes(key, "-staking") then "staking"
    else if Includes(key, "-pool2") then "pool2"
    else if Includes(key, "-borrowed") then "borrowed"
    else if Includes(key, "-doublecounted") then "doublecounted"
    else if Includes(key, "-liquidstaking") then "liquidstaking"
    else if Includes(key, "-vesting") then "vesting"
    else "tvl"
  }

  /**
    First match: the key goes to the bucket of marker `i` exactly when it contains
    marker `i` and none of the earlier ones, and to the base bucket exactly when it
    contains no marker.
  */
  lemma ClassifyFirstMatch(key: string)
    ensures forall i | 0 <= i < |Markers| ::
      Classify(key) == MarkedBuckets[i] <==>
        Includes(key, Markers[i]) && forall j | 0 <= j < i :: !Includes(key, Markers[j])
    ensures Classify(key) == BaseBucket <==> forall i | 0 <= i < |Markers| :: !Includes(key, Markers[i])
  {
  }

  /** The sum of all values, added in input order. */
  function Sum(entries: seq<Entry>): real
  {
    if entries == [] then 0.0
    else Sum(entries[..|entries| - 1]) + entries[|entries| - 1].1
  }

  /** The sum of the values of the entries whose key is classified into `bucket`. */
  function BucketTotal(entries: seq<Entry>, bucket: string): real
  {
    if entries == [] then 0.0
    else
      var last := entries[|entries| - 1];
      BucketTotal(entries[..|entries| - 1], bucket) + (if Classify(last.0) == bucket then last.1 else 0.0)
  }

  /** The sum over `buckets` of their bucket totals. */
  function TotalOver(entries: seq<Entry>, buckets: seq<string>): real
  {
    if buckets == [] then 0.0
    else BucketTotal(entries, buckets[0]) + TotalOver(entries, buckets[1..])
  }

  /** A bucket's running value; a bucket not started yet reads as 0, as `(breakdown.x || 0)` does. */
  function GetOrZero(breakdown: map<string, real>, bucket: string): real
  {
    if bucket in breakdown then breakdown[bucket] else 0.0
  }

  /** The sum over `buckets` of the values the breakdown holds for them. */
  function MapSum(breakdown: map<string, real>, buckets: seq<string>): real
  {
    if buckets == [] then 0.0
    else GetOrZero(breakdown, buckets[0]) + MapSum(breakdown, buckets[1..])
  }

  /** Some entry's key is classified into `bucket`. */
  ghost predicate ClassifiedInto(entries: seq<Entry>, bucket: string)
  {
    exists k :: 0 <= k < |entries| && Classify(entries[k].0) == bucket
  }

  lemma ClassifiedIntoSnoc(entries: seq<Entry>, e: Entry)
    ensures forall b :: ClassifiedInto(entries + [e], b) <==> ClassifiedInto(entries, b) || Classify(e.0) == b
  {
    var grown := entries + [e];
    forall b | ClassifiedInto(entries, b) ensures ClassifiedInto(grown, b) {
      var k :| 0 <= k < |entries| && Classify(entries[k].0) == b;
      assert grown[k] == entries[k];
    }
    forall b | Classify(e.0) == b ensures ClassifiedInto(grown, b) {
      assert grown[|entries|] == e;
    }
    forall b | ClassifiedInto(grown, b) ensures ClassifiedInto(entries, b) || Classify(e.0) == b {
      var k :| 0 <= k < |grown| && Classify(grown[k].0) == b;
      if k < |entries| {
        assert grown[k] == entries[k];
      }
    }
  }

  /** Appending one entry adds its value to the one listed bucket it is classified into. */
  lemma {:induction false} TotalOverSnoc(entries: seq<Entry>, e: Entry, buckets: seq<string>)
    requires Distinct(buckets)
    ensures TotalOver(entries + [e], buckets)
         == TotalOver(entries, buckets) + (if Classify(e.0) in buckets then e.1 else 0.0)
  {
    if buckets != [] {
      var grown := entries + [e];
      assert grown[..|grown| - 1] == entries;
      assert Distinct(buckets[1..]) by {
        forall i, j | 0 <= i < j < |buckets[1..]| ensures buckets[1..][i] != buckets[1..][j] {
          assert buckets[1..][i] == buckets[i + 1] && buckets[1..][j] == buckets[j + 1];
        }
      }
      TotalOverSnoc(entries, e, buckets[1..]);
      if Classify(e.0) == buckets[0] {
        forall k | 0 <= k < |buckets[1..]| ensures buckets[1..][k] != buckets[0] {
          assert buckets[1..][k] == buckets[k + 1];
        }
      }
      assert Classify(e.0) in buckets <==> Classify(e.0) == buckets[0] || Classify(e.0) in buckets[1..];
    }
  }

  /**
    Conservation: the bucket totals of all buckets add up to the total, because
    every entry lands in exactly one bucket.
  */
  lemma {:induction false} BucketsConserveTotal(entries: seq<Entry>)
    ensures TotalOver(entries, AllBuckets) == Sum(entries)
  {
    if entries == [] {
      BucketsOfEmpty(AllBuckets);
    } else {
      var init, last := entries[..|entries| - 1], entries[|entries| - 1];
      assert entries == init + [last];
      BucketsConserveTotal(init);
      TotalOverSnoc(init, last, AllBuckets);
    }
  }

  lemma {:induction false} BucketsOfEmpty(buckets: seq<string>)
    ensures TotalOver([], buckets) == 0.0
  {
    if buckets != [] {
      BucketsOfEmpty(buckets[1..]);
    }
  }

  /** A breakdown that agrees with the bucket totals has the same sum over any buckets. */
  lemma {:induction false} MapSumOfTotals(breakdown: map<string, real>, entries: seq<Entry>, buckets: seq<string>)
    requires forall b :: GetOrZero(breakdown, b) == BucketTotal(entries, b)
    ensures MapSum(breakdown, buckets) == TotalOver(entries, buckets)
  {
    if buckets != [] {
      MapSumOfTotals(breakdown, entries, buckets[1..]);
    }
  }

  lemma SumSnoc(entries: seq<Entry>, e: Entry)
    ensures Sum(entries + [e]) == Sum(entries) + e.1
  {
    assert (entries + [e])[..|entries|] == entries;
  }

  lemma BucketTotalSnoc(entries: seq<Entry>, e: Entry, bucket: string)
    ensures BucketTotal(entries + [e], bucket)
         == BucketTotal(entries, bucket) + (if Classify(e.0) == bucket then e.1 else 0.0)
  {
    assert (entries + [e])[..|entries|] == entries;
  }

  /**
    One round of the loop body: adding `e.1` to the bucket of `e.0` (started
    from 0 when absent) keeps the breakdown equal to the bucket totals, and its
    keys equal to the buckets that some entry was classified into.
  */
  lemma BreakdownStep(entries: seq<Entry>, e: Entry, breakdown: map<string, real>)
    requires forall b :: GetOrZero(breakdown, b) == BucketTotal(entries, b)
    requires forall b :: b in breakdown <==> ClassifiedInto(entries, b)
    ensures var next := breakdown[Classify(e.0) := GetOrZero(breakdown, Classify(e.0)) + e.1];
      && (forall b :: GetOrZero(next, b) == BucketTotal(entries + [e], b))
      && (forall b :: b in next <==> ClassifiedInto(entries + [e], b))
  {
    var bucket := Classify(e.0);
    var next := breakdown[bucket := GetOrZero(breakdown, bucket) + e.1];
    forall b ensures GetOrZero(next, b) == BucketTotal(entries + [e], b) {
      BucketTotalSnoc(entries, e, b);
    }
    ClassifiedIntoSnoc(entries, e);
  }

  /** Only the seven bucket names can be classified into. */
  lemma ClassifiedIntoIsBucket(entries: seq<Entry>, bucket: string)
    requires ClassifiedInto(entries, bucket)
    ensures bucket in AllBuckets
  {
    var k :| 0 <= k < |entries| && Classify(entries[k].0) == bucket;
  }

  /**
    A breakdown holding the bucket totals, with a key for each bucket some entry
    was classified into, uses only the seven names and sums to the total.
  */
  lemma BreakdownConservesTotal(entries: seq<Entry>, breakdown: map<string, real>)
    requires forall b :: GetOrZero(breakdown, b) == BucketTotal(entries, b)
    requires forall b :: b in breakdown <==> ClassifiedInto(entries, b)
    ensures forall b :: b in breakdown ==> b in AllBuckets
    ensures MapSum(breakdown, AllBuckets) == Sum(entries)
  {
    forall b | b in breakdown ensures b in AllBuckets {
      ClassifiedIntoIsBucket(entries, b);
    }
    MapSumOfTotals(breakdown, entries, AllBuckets);
    BucketsConserveTotal(entries);
  }

  /**
    The loop of `fetchRedStoneTVS`: accumulates the total and the breakdown.
    When `currentChainTvls` is absent the loop does not run.
  */
  method Aggregate(chainTvls: Option<seq<Entry>>) returns (total: real, breakdown: map<string, real>)
    ensures total == Sum(chainTvls.GetOr([]))
    ensures forall b :: GetOrZero(breakdown, b) == BucketTotal(chainTvls.GetOr([]), b)
    ensures forall b :: b in breakdown <==> ClassifiedInto(chainTvls.GetOr([]), b)
    ensures forall b :: b in breakdown ==> b in AllBuckets
    ensures MapSum(breakdown, AllBuckets) == total
    ensures chainTvls.None? ==> total == 0.0 && breakdown == map[]
  {
    total := 0.0;
    breakdown := map[];
    var entries := chainTvls.GetOr([]);
    if chainTvls.Some? {
      var i := 0;
      while i < |entries|
        invariant 0 <= i <= |entries|
        invariant total == Sum(entries[..i])
        invariant forall b :: GetOrZero(breakdown, b) == BucketTotal(entries[..i], b)
        invariant forall b :: b in breakdown <==> ClassifiedInto(entries[..i], b)
      {
        var (key, value) := entries[i];
        assert entries[..i + 1] == entries[..i] + [(key, value)];
        SumSnoc(entries[..i], (key, value));
        BreakdownStep(entries[..i], (key, value), breakdown);
        total := total + value;
        var bucket := Classify(key);
        breakdown := breakdown[bucket := GetOrZero(breakdown, bucket) + value];
        i := i + 1;
      }
      assert entries[..|entries|] == entries;
    }
    BreakdownConservesTotal(entries, breakdown);
  }

  /**
    `fetchRedStoneTVS`: `None` for the response means the `try` block threw (a
    network error, a non-2xx status, which axios rejects, or a body that parses
    to `null`); the result is then null. Otherwise the result is the aggregated
    total. An empty body has no `currentChainTvls`, so it gives total 0.
  */
  method FetchTvs(response: Option<ProtocolData>) returns (tvs: Option<real>)
    ensures response.None? <==> tvs.None?
    ensures response.Some? ==> tvs.value == Sum(response.value.currentChainTvls.GetOr([]))
    ensures response.Some? && response.value.currentChainTvls.None? ==> tvs == Some(0.0)
  {
    if response.None? {
      return None;
    }
    var total, breakdown := Aggregate(response.value.currentChainTvls);
    return Some(total);
  }

  /** The marker order decides: a key carrying two markers goes to the earlier one only. */
  lemma FirstMarkerWins(key: string)
    requires key == "x-staking-pool2"
    ensures Classify(key) == "staking"
  {
    IncludesAt(key, "-staking", 1);
  }

  /** A key without any marker goes to the base bucket. */
  lemma KeyBase(key: string)
    requires key == "chainA"
    ensures Classify(key) == "tvl"
  {
    NotIncludes(key, "-staking");
    NotIncludes(key, "-pool2");
    NotIncludes(key, "-borrowed");
    NotIncludes(key, "-doublecounted");
    NotIncludes(key, "-liquidstaking");
    NotIncludes(key, "-vesting");
  }

  lemma KeyStaking(key: string)
    requires key == "chainA-staking"
    ensures Classify(key) == "staking"
  {
    IncludesAt(key, "-staking", 6);
  }

  lemma KeyPool2(key: string)
    requires key == "chainA-pool2"
    ensures Classify(key) == "pool2"
  {
    NotIncludes(key, "-staking");
    IncludesAt(key, "-pool2", 6);
  }

  /** A worked total: base, staking and pool2 entries all count towards it. */
  lemma WorkedTotal(entries: seq<Entry>)
    requires entries == [("chainA", 100.0), ("chainA-staking", 50.0), ("chainA-pool2", 25.0)]
    ensures Sum(entries) == 175.0
  {
    var e0, e1, e2 := entries[0], entries[1], entries[2];
    assert entries == [] + [e0] + [e1] + [e2];
    SumSnoc([], e0);
    SumSnoc([e0], e1);
    assert [e0] + [e1] == [e0, e1];
    SumSnoc([e0, e1], e2);
    assert [e0, e1] + [e2] == entries;
  }

  /** A bucket's total over three entries: each entry's value counts where it is classified. */
  lemma BucketTotalOfThree(e0: Entry, e1: Entry, e2: Entry, bucket: string)
    ensures BucketTotal([e0, e1, e2], bucket)
         == (if Classify(e0.0) == bucket then e0.1 else 0.0)
          + (if Classify(e1.0) == bucket then e1.1 else 0.0)
          + (if Classify(e2.0) == bucket then e2.1 else 0.0)
  {
    assert [] + [e0] == [e0] && [e0] + [e1] == [e0, e1] && [e0, e1] + [e2] == [e0, e1, e2];
    BucketTotalSnoc([], e0, bucket);
    BucketTotalSnoc([e0], e1, bucket);
    BucketTotalSnoc([e0, e1], e2, bucket);
  }

  /** Among three entries, a bucket is used exactly when one of the three keys is classified into it. */
  lemma ClassifiedIntoOfThree(e0: Entry, e1: Entry, e2: Entry, bucket: string)
    ensures ClassifiedInto([e0, e1, e2], bucket)
        <==> Classify(e0.0) == bucket || Classify(e1.0) == bucket || Classify(e2.0) == bucket
  {
    var entries := [e0, e1, e2];
    if Classify(e0.0) == bucket { assert Classify(entries[0].0) == bucket; }
    if Classify(e1.0) == bucket { assert Classify(entries[1].0) == bucket; }
    if Classify(e2.0) == bucket { assert Classify(entries[2].0) == bucket; }
  }

  /**
    The breakdown of the same entries: each value sits in its own bucket, and no
    entry goes to any other bucket, so with `Aggregate` the breakdown is exactly
    {tvl: 100, staking: 50, pool2: 25}.
  */
  lemma WorkedBreakdown(entries: seq<Entry>)
    requires entries == [("chainA", 100.0), ("chainA-staking", 50.0), ("chainA-pool2", 25.0)]
    ensures BucketTotal(entries, "tvl") == 100.0
    ensures BucketTotal(entries, "staking") == 50.0
    ensures BucketTotal(entries, "pool2") == 25.0
    ensures forall b | b !in ["tvl", "staking", "pool2"] :: !ClassifiedInto(entries, b)
  {
    var e0, e1, e2 := entries[0], entries[1], entries[2];
    assert entries == [e0, e1, e2];
    KeyBase(e0.0);
    KeyStaking(e1.0);
    KeyPool2(e2.0);
    forall b | b !in ["tvl", "staking", "pool2"] ensures !ClassifiedInto(entries, b) {
      ClassifiedIntoOfThree(e0, e1, e2, b);
    }
    BucketTotalOfThree(e0, e1, e2, "tvl");
    BucketTotalOfThree(e0, e1, e2, "staking");
    BucketTotalOfThree(e0, e1, e2, "pool2");
  }
}
