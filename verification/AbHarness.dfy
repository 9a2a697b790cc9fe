/**
 Weighted choice of an experiment arm. The hash that maps a key to a bucket in 0..999 is a
 parameter; what is proved is how the 1000 buckets are divided among the arms.
*/
module AbHarness {
  import opened Optional

  datatype Variant = Variant(arm: string, payload: string, weight: Option<real>)

  datatype Assignment = Assignment(arm: string, variant: Variant, bucket: int, key: string)

  datatype Result = NoVariants | Picked(assignment: Assignment)

  const BUCKETS := 1000

  function Weight(v: Variant): real {
    if v.weight.Some? then v.weight.value else 1.0
  }

  /** The weight of the first k variants. */
  function Cumulative(vs: seq<Variant>, k: nat): real
    requires k <= |vs|
  {
    if k == 0 then 0.0 else Cumulative(vs, k-1) + Weight(vs[k-1])
  }

  function TotalWeight(vs: seq<Variant>): real {
    Cumulative(vs, |vs|)
  }

  function Scaled(vs: seq<Variant>, bucket: int): real {
    bucket as real / 1000.0 * TotalWeight(vs)
  }

  /** Variant i is the first whose cumulative weight exceeds the scaled bucket; the last
      variant also stands in when there is none. */
  ghost predicate Picks(vs: seq<Variant>, bucket: int, i: nat) {
    && i < |vs|
    && (forall j: nat :: j < i ==> !Exceeds(vs, bucket, j))
    && (Exceeds(vs, bucket, i) || i == |vs| - 1)
  }

  predicate Exceeds(vs: seq<Variant>, bucket: int, j: nat)
    requires j < |vs|
  {
    Scaled(vs, bucket) < Cumulative(vs, j + 1)
  }

  /** The result is an error exactly for an empty list; a single
      variant skips the hash. */
  method PickArm(variants: seq<Variant>, leadId: string, experimentId: string, hash: string -> int) returns (r: Result)
    ensures r.NoVariants? <==> variants == []
    ensures r.Picked? ==>
      && r.assignment.key == experimentId + ":" + leadId
      && r.assignment.arm == r.assignment.variant.arm
      && r.assignment.bucket == (if |variants| == 1 then 0 else hash(r.assignment.key))
      && exists i: nat :: Picks(variants, r.assignment.bucket, i) && r.assignment.variant == variants[i]
  {
    if |variants| == 0 {
      return NoVariants;
    }
    var key := experimentId + ":" + leadId;
    if |variants| == 1 {
      assert Picks(variants, 0, 0);
      return Picked(Assignment(variants[0].arm, variants[0], 0, key));
    }
    var bucket := hash(key);
    var total := 0.0;
    for k := 0 to |variants|
      invariant total == Cumulative(variants, k)
    {
      total := total + Weight(variants[k]);
    }
    var scaled := bucket as real / 1000.0 * total;
    var cumulative := 0.0;
    for k := 0 to |variants|
      invariant cumulative == Cumulative(variants, k)
      invariant forall j: nat :: j < k ==> !Exceeds(variants, bucket, j)
    {
      cumulative := cumulative + Weight(variants[k]);
      if scaled < cumulative {
        assert Picks(variants, bucket, k);
        return Picked(Assignment(variants[k].arm, variants[k], bucket, key));
      }
    }
    assert Picks(variants, bucket, |variants| - 1);
    return Picked(Assignment(variants[|variants|-1].arm, variants[|variants|-1], bucket, key));
  }

  // ---- Apportionment ----

  ghost predicate Nonnegative(vs: seq<Variant>) {
    forall i :: 0 <= i < |vs| ==> Weight(vs[i]) >= 0.0
  }

  /** The least integer that is not below x. */
  function Ceil(x: real): (n: int)
    ensures x <= n as real < x + 1.0
  {
    -((-x).Floor)
  }

  /** The first bucket of variant i. */
  function RangeStart(vs: seq<Variant>, i: nat): int
    requires i <= |vs| && TotalWeight(vs) > 0.0
  {
    Ceil(Share(vs, i))
  }

  /** 1000 times the weight before variant i, as a fraction of the whole. */
  function Share(vs: seq<Variant>, i: nat): real
    requires i <= |vs| && TotalWeight(vs) > 0.0
  {
    1000.0 * Cumulative(vs, i) / TotalWeight(vs)
  }

  lemma {:induction false} CumulativeGrows(vs: seq<Variant>, i: nat, k: nat)
    requires Nonnegative(vs) && i <= k <= |vs|
    ensures 0.0 <= Cumulative(vs, i) <= Cumulative(vs, k)
    decreases k
  {
    if i < k {
      CumulativeGrows(vs, i, k - 1);
    } else if k > 0 {
      CumulativeGrows(vs, k - 1, k - 1);
    }
  }

  lemma ScaledBelow(b: real, c: real, w: real)
    requires w > 0.0
    ensures b / 1000.0 * w < c <==> b < 1000.0 * c / w
  {
    var q := 1000.0 * c / w;
    assert q * w == 1000.0 * c;
    TimesOrder(b, q, w);
  }

  lemma TimesOrder(b: real, q: real, w: real)
    requires w > 0.0
    ensures b * w < q * w <==> b < q
  {
  }

  /** The test in the loop is a comparison with where the next variant's range starts. */
  lemma ExceedsIsBelowStart(vs: seq<Variant>, bucket: int, j: nat)
    requires j < |vs| && TotalWeight(vs) > 0.0
    ensures Exceeds(vs, bucket, j) <==> bucket < RangeStart(vs, j + 1)
  {
    hide Cumulative;
    ScaledBelow(bucket as real, Cumulative(vs, j + 1), TotalWeight(vs));
  }

  lemma StartsAscend(vs: seq<Variant>, i: nat, k: nat)
    requires Nonnegative(vs) && TotalWeight(vs) > 0.0 && i <= k <= |vs|
    ensures RangeStart(vs, i) <= RangeStart(vs, k)
  {
    hide Cumulative, TotalWeight;
    CumulativeGrows(vs, i, k);
    var w := TotalWeight(vs);
    DividedOrder(Cumulative(vs, i), Cumulative(vs, k), w);
  }

  lemma DividedOrder(a: real, b: real, w: real)
    requires a <= b && w > 0.0
    ensures 1000.0 * a / w <= 1000.0 * b / w
  {
  }

  /** The ranges cover the buckets 0..999 without gap or overlap. */
  lemma RangesCover(vs: seq<Variant>)
    requires TotalWeight(vs) > 0.0
    ensures RangeStart(vs, 0) == 0 && RangeStart(vs, |vs|) == BUCKETS
  {
    var w := TotalWeight(vs);
    assert 1000.0 * w / w == 1000.0;
  }

  /** The buckets of variant i are exactly the range from its start to the next one's. */
  lemma PicksIsRange(vs: seq<Variant>, bucket: int, i: nat)
    requires Nonnegative(vs) && TotalWeight(vs) > 0.0
    requires 0 <= bucket < BUCKETS && i < |vs|
    ensures Picks(vs, bucket, i) <==> RangeStart(vs, i) <= bucket < RangeStart(vs, i + 1)
  {
    hide RangeStart, Exceeds;
    RangesCover(vs);
    forall j: nat | j < |vs|
      ensures Exceeds(vs, bucket, j) <==> bucket < RangeStart(vs, j + 1)
    {
      ExceedsIsBelowStart(vs, bucket, j);
    }
    forall j: nat | j < i
      ensures Exceeds(vs, bucket, j) ==> bucket < RangeStart(vs, i)
    {
      StartsAscend(vs, j + 1, i);
    }
    if i > 0 {
      assert Exceeds(vs, bucket, i - 1) <==> bucket < RangeStart(vs, i);
    }
  }

  /** With a positive total the loop always returns: the fallback is never needed. */
  lemma FallbackUnreached(vs: seq<Variant>, bucket: int)
    requires TotalWeight(vs) > 0.0 && 0 <= bucket < BUCKETS
    ensures |vs| > 0 && Exceeds(vs, bucket, |vs| - 1)
  {
    RangesCover(vs);
    ExceedsIsBelowStart(vs, bucket, |vs| - 1);
  }

  /** Without a positive total it always is: everybody gets the last variant. */
  lemma FallbackForZeroTotal(vs: seq<Variant>, bucket: int, i: nat)
    requires Nonnegative(vs) && TotalWeight(vs) == 0.0 && i < |vs|
    ensures Picks(vs, bucket, i) <==> i == |vs| - 1
    ensures !Exceeds(vs, bucket, i)
  {
    forall j: nat | j < |vs|
      ensures !Exceeds(vs, bucket, j)
    {
      CumulativeGrows(vs, j + 1, |vs|);
    }
  }

  ghost function BucketsOf(vs: seq<Variant>, i: nat): set<int> {
    set b: int | 0 <= b < BUCKETS && Picks(vs, b, i)
  }

  ghost predicate Between(lo: int, b: int, hi: int) {
    lo <= b < hi
  }

  ghost function Interval(lo: int, hi: int): set<int> {
    set b: int | lo <= b < hi && Between(lo, b, hi)
  }

  lemma {:induction false} IntervalSize(lo: int, hi: int)
    requires lo <= hi
    ensures |Interval(lo, hi)| == hi - lo
    decreases hi - lo
  {
    if lo < hi {
      IntervalSize(lo, hi - 1);
      assert Interval(lo, hi) == Interval(lo, hi - 1) + {hi - 1} by {
        assert Between(lo, hi - 1, hi);
        assert forall b :: Between(lo, b, hi) <==> Between(lo, b, hi - 1) || b == hi - 1;
      }
    }
  }

  /** Each arm gets a number of buckets within one of its exact share of the thousand; an
      arm of weight zero gets none. */
  lemma Apportionment(vs: seq<Variant>, i: nat)
    requires Nonnegative(vs) && TotalWeight(vs) > 0.0 && i < |vs|
    ensures BucketsOf(vs, i) == Interval(RangeStart(vs, i), RangeStart(vs, i + 1))
    ensures |BucketsOf(vs, i)| == RangeStart(vs, i + 1) - RangeStart(vs, i)
    ensures -1.0 < |BucketsOf(vs, i)| as real - 1000.0 * Weight(vs[i]) / TotalWeight(vs) < 1.0
    ensures Weight(vs[i]) == 0.0 ==> BucketsOf(vs, i) == {}
  {
    hide Picks, TotalWeight, Cumulative;
    RangesCover(vs);
    StartsAscend(vs, 0, i);
    StartsAscend(vs, i, i + 1);
    StartsAscend(vs, i + 1, |vs|);
    var lo, hi := RangeStart(vs, i), RangeStart(vs, i + 1);
    forall b | 0 <= b < BUCKETS
      ensures Picks(vs, b, i) <==> Between(lo, b, hi)
    {
      PicksIsRange(vs, b, i);
    }
    assert BucketsOf(vs, i) == Interval(lo, hi);
    IntervalSize(lo, hi);
    ShareStep(vs, i);
  }

  lemma ShareStep(vs: seq<Variant>, i: nat)
    requires TotalWeight(vs) > 0.0 && i < |vs|
    ensures Share(vs, i + 1) - Share(vs, i) == 1000.0 * Weight(vs[i]) / TotalWeight(vs)
  {
    var w, a, b := TotalWeight(vs), Cumulative(vs, i), Weight(vs[i]);
    assert 1000.0 * (a + b) / w == 1000.0 * a / w + 1000.0 * b / w;
  }

  lemma {:induction false} UnweightedTotal(vs: seq<Variant>, k: nat)
    requires k <= |vs| && forall i :: 0 <= i < |vs| ==> vs[i].weight.None?
    ensures Cumulative(vs, k) == k as real
  {
    if k > 0 {
      UnweightedTotal(vs, k - 1);
    }
  }

  /** Variants without weights share the thousand evenly: each of n gets within one of 1000/n. */
  lemma UnweightedShares(vs: seq<Variant>, i: nat)
    requires i < |vs| && forall j :: 0 <= j < |vs| ==> vs[j].weight.None?
    ensures -1.0 < |BucketsOf(vs, i)| as real - 1000.0 / |vs| as real < 1.0
  {
    hide BucketsOf, Cumulative;
    UnweightedTotal(vs, |vs|);
    Apportionment(vs, i);
  }

  /** And one without a weight counts as one with weight 1 beside any others. */
  lemma MissingWeightIsOne(vs: seq<Variant>, i: nat)
    requires Nonnegative(vs) && TotalWeight(vs) > 0.0 && i < |vs| && vs[i].weight.None?
    ensures -1.0 < |BucketsOf(vs, i)| as real - 1000.0 * 1.0 / TotalWeight(vs) < 1.0
  {
    hide BucketsOf, Cumulative, TotalWeight;
    Apportionment(vs, i);
  }
}
