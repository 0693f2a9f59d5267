/**
 * The duration store behind the time estimates: for each page count, the
 * list of durations (in seconds) that finished requests of that size took.
 * The JSON file it lives in is modelled as a map held in memory, keyed by the
 * decimal page count as `str(nb_pages)` writes it.
 */
module Estimation {
  import opened Strings

  /** The sum of a list of durations. */
  function Sum(xs: seq<real>): real {
    if |xs| == 0 then 0.0 else Sum(xs[..|xs| - 1]) + xs[|xs| - 1]
  }

  /** `sum(xs) // len(xs)`: the mean rounded down. */
  function FloorMean(xs: seq<real>): (r: real)
    requires |xs| > 0
    ensures r == r.Floor as real
  {
    (Sum(xs) / (|xs| as real)).Floor as real
  }

  /** The floored mean times the count is at most the sum, and one more than it times the count exceeds it. */
  lemma FloorMeanBounds(xs: seq<real>)
    requires |xs| > 0
    ensures var r := FloorMean(xs); r * (|xs| as real) <= Sum(xs) < (r + 1.0) * (|xs| as real)
  {
    FloorDivBounds(Sum(xs), |xs| as real);
  }

  /** Rounding a quotient down: `floor(s / n) * n <= s < (floor(s / n) + 1) * n` for positive `n`. */
  lemma FloorDivBounds(s: real, n: real)
    requires n > 0.0
    ensures var f := (s / n).Floor as real; f * n <= s < (f + 1.0) * n
  {
    var q := s / n;
    var f := q.Floor as real;
    assert f <= q < f + 1.0;
    assert q * n == s;
    MultiplyBounds(f, q, n, s);
  }

  /** Multiplying `f <= q < f + 1` by a positive `n`. */
  lemma MultiplyBounds(f: real, q: real, n: real, s: real)
    requires f <= q < f + 1.0 && n > 0.0 && q * n == s
    ensures f * n <= s < (f + 1.0) * n
  {
    var g := f + 1.0;
    MultiplyMonotone(f, q, n);
    MultiplyStrict(q, g, n);
    assert s == q * n;
  }

  /** `a <= b` and `n > 0` give `a * n <= b * n`. */
  lemma MultiplyMonotone(a: real, b: real, n: real)
    requires a <= b && n > 0.0
    ensures a * n <= b * n
  {
  }

  /** `a < b` and `n > 0` give `a * n < b * n`. */
  lemma MultiplyStrict(a: real, b: real, n: real)
    requires a < b && n > 0.0
    ensures a * n < b * n
  {
  }

  /** Dividing both sides of a product comparison by a positive factor. */
  lemma CancelPositive(a: real, b: real, n: real)
    requires n > 0.0
    ensures a * n <= b * n ==> a <= b
    ensures a * n < b * n ==> a < b
  {
  }

  /** A sum of durations each at most `hi` is at most `|xs| * hi`, and likewise from below. */
  lemma {:induction false} SumBounds(xs: seq<real>, lo: real, hi: real)
    requires forall i :: 0 <= i < |xs| ==> lo <= xs[i] <= hi
    ensures (|xs| as real) * lo <= Sum(xs) <= (|xs| as real) * hi
  {
    if |xs| > 0 {
      SumBounds(xs[..|xs| - 1], lo, hi);
    }
  }

  /** The buckets after recording duration `t` for `nbPages` pages. */
  function Recorded(buckets: Buckets, nbPages: nat, t: real): (r: Buckets)
    ensures r.Keys == buckets.Keys + {NatToString(nbPages)}
    ensures r[NatToString(nbPages)] == (if NatToString(nbPages) in buckets then buckets[NatToString(nbPages)] else []) + [t]
    ensures forall k :: k in buckets && k != NatToString(nbPages) ==> r[k] == buckets[k]
  {
    var key := NatToString(nbPages);
    buckets[key := (if key in buckets then buckets[key] else []) + [t]]
  }

  /** The contents of the estimation file: durations by decimal page count. */
  type Buckets = map<string, seq<real>>

  /** No bucket is empty: buckets are only ever created with a first duration in them. */
  predicate NoEmptyBucket(buckets: Buckets) {
    forall k :: k in buckets ==> |buckets[k]| > 0
  }

  /** `get_estimation_time`: -1 for a page count never seen, else the floored mean of its bucket. */
  function GetEstimationTime(buckets: Buckets, nbPages: nat): (r: real)
    requires NoEmptyBucket(buckets)
    ensures NatToString(nbPages) !in buckets ==> r == -1.0
    ensures NatToString(nbPages) in buckets ==> r == r.Floor as real
  {
    var key := NatToString(nbPages);
    if key !in buckets then -1.0 else FloorMean(buckets[key])
  }

  /** The estimation file, which `add_estimation_time` rewrites in place. */
  class EstimationStore {
    var buckets: Buckets

    ghost predicate Valid()
      reads this
    {
      NoEmptyBucket(buckets)
    }

    constructor ()
      ensures Valid() && buckets == map[]
    {
      buckets := map[];
    }

    /** `add_estimation_time`: appends the duration to the bucket of that page count, creating it if missing. */
    method AddEstimationTime(nbPages: nat, duringTime: real)
      requires Valid()
      modifies this
      ensures Valid()
      ensures buckets == Recorded(old(buckets), nbPages, duringTime)
    {
      var key := NatToString(nbPages);
      if key !in buckets {
        buckets := buckets[key := []];
      }
      buckets := buckets[key := buckets[key] + [duringTime]];
    }
  }

  /** A known page count's estimate is its bucket's mean rounded down: `r * n <= sum < (r + 1) * n`. */
  lemma EstimateIsFlooredMean(buckets: Buckets, nbPages: nat)
    requires NoEmptyBucket(buckets) && NatToString(nbPages) in buckets
    ensures var b := buckets[NatToString(nbPages)]; var r := GetEstimationTime(buckets, nbPages);
      r * (|b| as real) <= Sum(b) < (r + 1.0) * (|b| as real)
  {
    FloorMeanBounds(buckets[NatToString(nbPages)]);
  }

  /** The first duration recorded for a page count is the estimate for it, rounded down. */
  lemma FirstDurationIsEstimate(before: Buckets, nbPages: nat, t: real)
    requires NoEmptyBucket(before) && NatToString(nbPages) !in before
    ensures GetEstimationTime(Recorded(before, nbPages, t), nbPages) == t.Floor as real
  {
    assert Recorded(before, nbPages, t)[NatToString(nbPages)] == [t];
    assert Sum([t]) == Sum([]) + t;
  }

  /** Recording a duration keeps every bucket non-empty. */
  lemma RecordedNoEmptyBucket(before: Buckets, n: nat, t: real)
    requires NoEmptyBucket(before)
    ensures NoEmptyBucket(Recorded(before, n, t))
  {
  }

  /** Adding for one page count leaves the estimate of every other page count as it was. */
  lemma OtherEstimatesKept(before: Buckets, n: nat, m: nat, t: real)
    requires NoEmptyBucket(before) && n != m
    ensures NoEmptyBucket(Recorded(before, n, t))
    ensures GetEstimationTime(Recorded(before, n, t), m) == GetEstimationTime(before, m)
  {
    RecordedNoEmptyBucket(before, n, t);
    assert NatToString(n) != NatToString(m) by {
      if NatToString(n) == NatToString(m) {
        NatToStringInjective(n, m);
      }
    }
  }

  /** The estimate lies between the shortest and the longest duration recorded, up to the rounding down. */
  lemma EstimateWithinRange(buckets: Buckets, nbPages: nat, lo: real, hi: real)
    requires NoEmptyBucket(buckets) && NatToString(nbPages) in buckets
    requires var b := buckets[NatToString(nbPages)]; forall i :: 0 <= i < |b| ==> lo <= b[i] <= hi
    ensures lo - 1.0 < GetEstimationTime(buckets, nbPages) <= hi
  {
    var b := buckets[NatToString(nbPages)];
    EstimateIsFlooredMean(buckets, nbPages);
    SumBounds(b, lo, hi);
    DivideBounds(GetEstimationTime(buckets, nbPages), Sum(b), lo, hi, |b| as real);
  }

  /** From `r * n <= s < (r + 1) * n` and `n * lo <= s <= n * hi`: `lo - 1 < r <= hi`. */
  lemma DivideBounds(r: real, s: real, lo: real, hi: real, n: real)
    requires n > 0.0 && r * n <= s < (r + 1.0) * n && n * lo <= s <= n * hi
    ensures lo - 1.0 < r <= hi
  {
    CancelPositive(r, hi, n);
    CancelPositive(lo, r + 1.0, n);
  }
}
