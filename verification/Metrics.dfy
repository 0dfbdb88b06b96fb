/** The duration histograms and their cumulative rendering in the Prometheus text format. */
module Metrics {

  datatype Stage = Conversion | FastFingerprint | Hash | Exif | Db | Archive

  const CONVERSION_EDGES: seq<real> := [1.0, 2.0, 5.0, 10.0, 20.0, 30.0, 60.0, 120.0, 300.0]
  const FAST_EDGES: seq<real> := [0.001, 0.002, 0.005, 0.01, 0.02, 0.05, 0.1, 0.2, 0.5]
  const SLOW_EDGES: seq<real> := [0.01, 0.02, 0.05, 0.1, 0.2, 0.5, 1.0, 2.0, 5.0]

  function Edges(stage: Stage): (e: seq<real>)
    ensures |e| == 9 && forall i, j :: 0 <= i < j < 9 ==> e[i] < e[j]
  {
    match stage
    case Conversion => CONVERSION_EDGES
    case FastFingerprint => FAST_EDGES
    case Db => FAST_EDGES
    case _ => SLOW_EDGES
  }

  /** The numbers behind the `le` labels, which every stage is rendered with. */
  function Label(k: nat): real
    requires k < 9
  {
    CONVERSION_EDGES[k]
  }

  /** The first bucket whose edge is not below `x`, the last one when there is none. */
  function BucketOf(edges: seq<real>, x: real, from: nat): (b: nat)
    requires |edges| == 9 && from <= 9
    ensures from <= b <= 9 && (b < 9 ==> x <= edges[b]) && forall i :: from <= i < b ==> edges[i] < x
    decreases 9 - from
  {
    if from < 9 && x > edges[from] then BucketOf(edges, x, from + 1) else from
  }

  /** Observations that fell into bucket `b`. */
  function InBucket(edges: seq<real>, seen: seq<real>, b: nat): nat
    requires |edges| == 9
  {
    if seen == [] then 0
    else InBucket(edges, seen[..|seen| - 1], b) + (if BucketOf(edges, seen[|seen| - 1], 0) == b then 1 else 0)
  }

  function CountAtMost(seen: seq<real>, bound: real): nat {
    if seen == [] then 0
    else CountAtMost(seen[..|seen| - 1], bound) + (if seen[|seen| - 1] <= bound then 1 else 0)
  }

  function Sum(s: seq<int>): int {
    if s == [] then 0 else Sum(s[..|s| - 1]) + s[|s| - 1]
  }

  /** The buckets after a sequence of observations. */
  function Buckets(edges: seq<real>, seen: seq<real>): (b: seq<int>)
    requires |edges| == 9
  {
    seq(10, i requires 0 <= i < 10 => InBucket(edges, seen, i))
  }

  /** The running total a scrape shows for bucket `k`. */
  function Cumulative(edges: seq<real>, seen: seq<real>, k: nat): int
    requires |edges| == 9 && k < 10
  {
    Sum(Buckets(edges, seen)[..k + 1])
  }

  class Histogram {
    const edges: seq<real>
    const bucket: array<int>
    var sum: real
    var count: int
    ghost var seen: seq<real>

    ghost predicate Valid()
      reads this, bucket
    {
      |edges| == 9 && bucket.Length == 10 && bucket[..] == Buckets(edges, seen) && count == |seen|
    }

    constructor (stage: Stage)
      ensures Valid() && fresh(bucket) && edges == Edges(stage) && seen == []
    {
      edges := Edges(stage);
      bucket := new int[10](_ => 0);
      sum, count, seen := 0.0, 0, [];
    }

    method Observe(seconds: real)
      requires Valid()
      modifies this, bucket
      ensures Valid() && seen == old(seen) + [seconds]
      ensures sum == old(sum) + seconds && count == old(count) + 1
    {
      var b := 0;
      while b < 9 && seconds > edges[b]
        invariant 0 <= b <= 9 && BucketOf(edges, seconds, 0) == BucketOf(edges, seconds, b)
      {
        b := b + 1;
      }
      bucket[b] := bucket[b] + 1;
      sum := sum + seconds;
      count := count + 1;
      seen := seen + [seconds];
      assert seen[..|seen| - 1] == old(seen);
    }

    /** The lines of one histogram: the cumulative buckets, the sum and the count. */
    method Render() returns (cumulative: seq<int>, total: real, n: int)
      requires Valid()
      ensures |cumulative| == 10 && (forall k :: 0 <= k < 10 ==> cumulative[k] == Cumulative(edges, seen, k))
      ensures total == sum && n == |seen|
    {
      var cum := 0;
      cumulative := [];
      for i := 0 to 10
        invariant |cumulative| == i && cum == Sum(bucket[..i])
        invariant forall k :: 0 <= k < i ==> cumulative[k] == Sum(bucket[..k + 1])
      {
        cum := cum + bucket[i];
        assert bucket[..i + 1][..i] == bucket[..i];
        cumulative := cumulative + [cum];
      }
      forall k | 0 <= k < 10 ensures cumulative[k] == Cumulative(edges, seen, k) {
        assert bucket[..][..k + 1] == bucket[..k + 1];
      }
      total, n := sum, count;
    }
  }

  // ---------------------------------------------------------------- what a scrape shows

  /** Which edges belong to which stage, and which numbers all of them are labelled with. */
  lemma StageEdges(stage: Stage, k: nat)
    requires k < 9
    ensures Edges(stage) ==
            if stage.Conversion? then [1.0, 2.0, 5.0, 10.0, 20.0, 30.0, 60.0, 120.0, 300.0]
            else if stage.FastFingerprint? || stage.Db? then [0.001, 0.002, 0.005, 0.01, 0.02, 0.05, 0.1, 0.2, 0.5]
            else [0.01, 0.02, 0.05, 0.1, 0.2, 0.5, 1.0, 2.0, 5.0]
    ensures Label(k) == [1.0, 2.0, 5.0, 10.0, 20.0, 30.0, 60.0, 120.0, 300.0][k]
  {
  }

  lemma BucketMeansAtMost(edges: seq<real>, x: real, k: nat)
    requires |edges| == 9 && k < 9 && forall i, j :: 0 <= i < j < 9 ==> edges[i] < edges[j]
    ensures BucketOf(edges, x, 0) <= k <==> x <= edges[k]
  {
    var b := BucketOf(edges, x, 0);
    if b < k {
      assert edges[b] < edges[k];
    }
  }

  lemma {:induction false} CumulativePush(edges: seq<real>, init: seq<real>, x: real, k: nat)
    requires |edges| == 9 && k <= 10
    ensures Sum(Buckets(edges, init + [x])[..k]) ==
            Sum(Buckets(edges, init)[..k]) + (if BucketOf(edges, x, 0) < k then 1 else 0)
    decreases k
  {
    if k == 0 {
    } else {
      CumulativePush(edges, init, x, k - 1);
      var a, b := Buckets(edges, init + [x])[..k], Buckets(edges, init)[..k];
      assert (init + [x])[..|init|] == init;
      assert a[..k - 1] == Buckets(edges, init + [x])[..k - 1] && b[..k - 1] == Buckets(edges, init)[..k - 1];
    }
  }

  lemma {:induction false} SumOfEmptyBuckets(edges: seq<real>, k: nat)
    requires |edges| == 9 && k <= 10
    ensures Sum(Buckets(edges, [])[..k]) == 0
  {
    if k == 0 {
    } else {
      SumOfEmptyBuckets(edges, k - 1);
      assert Buckets(edges, [])[..k][..k - 1] == Buckets(edges, [])[..k - 1];
    }
  }

  /** For every stage: bucket `k` counts the observations at or below its own edge, and `+Inf` counts them all. */
  lemma {:induction false} CumulativeCounts(stage: Stage, seen: seq<real>, k: nat)
    requires k < 10
    ensures Cumulative(Edges(stage), seen, k) == if k < 9 then CountAtMost(seen, Edges(stage)[k]) else |seen|
    decreases |seen|
  {
    var edges := Edges(stage);
    if seen == [] {
      SumOfEmptyBuckets(edges, k + 1);
    } else {
      var init, x := seen[..|seen| - 1], seen[|seen| - 1];
      assert seen == init + [x];
      CumulativeCounts(stage, init, k);
      CumulativePush(edges, init, x, k + 1);
      if k < 9 {
        BucketMeansAtMost(edges, x, k);
      }
    }
  }

  lemma {:induction false} CountGrows(seen: seq<real>, a: real, b: real)
    requires a <= b
    ensures CountAtMost(seen, a) <= CountAtMost(seen, b) <= |seen|
    decreases |seen|
  {
    if seen == [] {
    } else {
      CountGrows(seen[..|seen| - 1], a, b);
    }
  }

  /** The rendered buckets never decrease and end with the count. */
  lemma CumulativeIsMonotone(stage: Stage, seen: seq<real>, j: nat, k: nat)
    requires j < k < 10
    ensures Cumulative(Edges(stage), seen, j) <= Cumulative(Edges(stage), seen, k)
    ensures Cumulative(Edges(stage), seen, k) <= Cumulative(Edges(stage), seen, 9) == |seen|
  {
    CumulativeCounts(stage, seen, j);
    CumulativeCounts(stage, seen, k);
    CumulativeCounts(stage, seen, 9);
    CountGrows(seen, Edges(stage)[j], if k < 9 then Edges(stage)[k] else Edges(stage)[j]);
    if k < 9 {
      CountGrows(seen, Edges(stage)[k], Edges(stage)[k]);
    }
  }

  /** The labels tell the truth, whatever is observed, for the conversion histogram and for no other. */
  lemma LabelsExact(stage: Stage)
    ensures (forall seen, k :: 0 <= k < 9 ==> Cumulative(Edges(stage), seen, k) == CountAtMost(seen, Label(k)))
            <==> stage == Conversion
  {
    if stage == Conversion {
      forall seen, k | 0 <= k < 9 ensures Cumulative(Edges(stage), seen, k) == CountAtMost(seen, Label(k)) {
        CumulativeCounts(stage, seen, k);
      }
    } else {
      var seen := [1.0];
      assert seen[..0] == [];
      CumulativeCounts(stage, seen, 0);
      assert CountAtMost(seen, Label(0)) == 1 && CountAtMost(seen, Edges(stage)[0]) == 0;
    }
  }
}
