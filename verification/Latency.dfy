/**
  The latency tracker as an object updated in place, used by one thread.
 */
module Latency {
  import opened Bytes
  import opened Histogram

  class LatencyTracker {
    const buckets: array<u64>
    var min: u64
    var max: u64
    var sum: u64
    var count: u64

    ghost predicate Valid()
      reads this
    {
      buckets.Length == NUM_BUCKETS
    }

    ghost function View(): Tracker
      requires Valid()
      reads this, buckets
    {
      Tracker(buckets[..], min, max, sum, count)
    }

    constructor ()
      ensures Valid() && fresh(buckets)
      ensures View() == Empty
    {
      buckets := new u64[NUM_BUCKETS](_ => 0);
      min, max, sum, count := UINT64_MAX, 0, 0, 0;
    }

    /** With no other thread at work each compare-and-exchange loop runs at most once. */
    method Record(ns: u64)
      requires Valid()
      modifies this, buckets
      ensures Valid() && View() == Histogram.Record(old(View()), ns)
    {
      var b := BucketFor(ns);
      buckets[b] := Plus(buckets[b], 1);
      if ns < min {
        min := ns;
      }
      if ns > max {
        max := ns;
      }
      sum := Plus(sum, ns);
      count := Plus(count, 1);
    }

    method Reset()
      requires Valid()
      modifies this, buckets
      ensures Valid() && View() == Empty
    {
      for i := 0 to NUM_BUCKETS
        invariant forall k :: 0 <= k < i ==> buckets[k] == 0
      {
        buckets[i] := 0;
      }
      min, max, sum, count := UINT64_MAX, 0, 0, 0;
    }

    method GetStats() returns (st: LatencyStats)
      requires Valid()
      ensures st == Stats64(View())
    {
      hide Representative, Found, Cumulative, First64, Select, Plus, Target50, Target95, Target99, Target999;
      if count == 0 {
        return NoStats;
      }
      ghost var b := View().buckets;
      var k50 := Pick(Target50(count), false, 0);
      var k95 := Pick(Target95(count), false, 0);
      var k99 := Pick(Target99(count), false, 0);
      var k999 := Pick(Target999(count), false, 0);
      var cumul: u64 := 0;
      var i := 0;
      FoundStart(b, k50); FoundStart(b, k95); FoundStart(b, k99); FoundStart(b, k999);
      while i < NUM_BUCKETS && !k999.done
        invariant 0 <= i <= NUM_BUCKETS && cumul == Cumulative(b, i) % TWO_64
        invariant k50.target == Target50(count) && k95.target == Target95(count)
        invariant k99.target == Target99(count) && k999.target == Target999(count)
        invariant Found(b, k50, i) && Found(b, k95, i) && Found(b, k99, i) && Found(b, k999, i)
        invariant k999.done ==> i > 0 && First64(b, Target999(count), 0) == i - 1
      {
        OneMoreBucket(b, i, cumul);
        FoundStep(b, k50, i); FoundStep(b, k95, i); FoundStep(b, k99, i); FoundStep(b, k999, i);
        FoundHere(b, k999, i);
        cumul := Plus(cumul, buckets[i]);
        var upper := Representative(i);
        k50 := Select(k50, cumul, upper);
        k95 := Select(k95, cumul, upper);
        k99 := Select(k99, cumul, upper);
        k999 := Select(k999, cumul, upper);
        i := i + 1;
      }
      st := LatencyStats(min, max, sum / count, k50.value, k95.value, k99.value, k999.value, count);
      var last: nat := if k999.done then i - 1 else NUM_BUCKETS;
      FoundEnd(b, k50, i, last); FoundEnd(b, k95, i, last); FoundEnd(b, k99, i, last); FoundEnd(b, k999, i, last);
      LastIs(b, k999, i, last);
    }
  }

  /** One percentile being selected: the rank sought, and the value once found. */
  datatype Pick = Pick(target: nat, done: bool, value: u64)

  /** The rank of each percentile, in 64-bit arithmetic. */
  function Target50(n: u64): nat { n / 2 }
  function Target95(n: u64): nat { (n as nat * 95) % TWO_64 / 100 }
  function Target99(n: u64): nat { (n as nat * 99) % TWO_64 / 100 }
  function Target999(n: u64): nat { (n as nat * 999) % TWO_64 / 1000 }

  lemma TargetsAreRanks(n: u64)
    requires n as nat * 999 < TWO_64
    ensures Target50(n) == Rank50(n) && Target95(n) == Rank95(n)
    ensures Target99(n) == Rank99(n) && Target999(n) == Rank999(n)
  {
    assert (n as nat * 95) % TWO_64 == n as nat * 95;
    assert (n as nat * 99) % TWO_64 == n as nat * 99;
    assert (n as nat * 999) % TWO_64 == n as nat * 999;
  }

  function Select(k: Pick, cumul: nat, upper: u64): Pick {
    if !k.done && cumul >= k.target then k.(done := true, value := upper) else k
  }

  // ----- what get_stats reports for any contents, wrap-around included

  /** The first bucket from j on at which the running count, in 64-bit arithmetic, reaches the target. */
  function First64(b: Buckets, target: nat, j: nat): (i: nat)
    requires j <= NUM_BUCKETS
    ensures j <= i <= NUM_BUCKETS
    decreases NUM_BUCKETS - j
  {
    if j == NUM_BUCKETS || Cumulative(b, j + 1) % TWO_64 >= target then j else First64(b, target, j + 1)
  }

  /** The value reported for a rank when the loop looks at no bucket beyond the last. */
  function Report64(b: Buckets, target: nat, last: nat): u64 {
    var i := First64(b, target, 0);
    if i < NUM_BUCKETS && i <= last then Representative(i) else 0
  }

  function Reported(t: Tracker, mean: u64, last: nat): LatencyStats {
    LatencyStats(t.min, t.max, mean,
                 Report64(t.buckets, Target50(t.count), last), Report64(t.buckets, Target95(t.count), last),
                 Report64(t.buckets, Target99(t.count), last), Report64(t.buckets, Target999(t.count), last), t.count)
  }

  function Stats64(t: Tracker): LatencyStats {
    if t.count == 0 then NoStats
    else
      var mean: u64 := t.sum / t.count;
      Reported(t, mean, First64(t.buckets, Target999(t.count), 0))
  }

  /** Where the selection of one percentile stands after the first n buckets. */
  ghost predicate Found(b: Buckets, k: Pick, n: nat)
    requires n <= NUM_BUCKETS
  {
    var i := First64(b, k.target, 0);
    && (k.done <==> i < n)
    && k.value == if k.done && i < NUM_BUCKETS then Representative(i) else 0
  }

  lemma FoundStart(b: Buckets, k: Pick)
    requires !k.done && k.value == 0
    ensures Found(b, k, 0) && Cumulative(b, 0) == 0
  {
  }

  lemma OneMoreBucket(b: Buckets, i: nat, cumul: u64)
    requires i < NUM_BUCKETS && cumul == Cumulative(b, i) % TWO_64
    ensures Plus(cumul, b[i]) == Cumulative(b, i + 1) % TWO_64
  {
  }

  /** The search from the start is past n, or stands at n, or is the search from n on. */
  lemma {:induction false} FirstFrom(b: Buckets, target: nat, j: nat, n: nat)
    requires j <= n < NUM_BUCKETS && First64(b, target, j) >= n
    ensures First64(b, target, j) == First64(b, target, n)
    decreases n - j
  {
    if j < n { FirstFrom(b, target, j + 1, n); }
  }

  lemma FoundStep(b: Buckets, k: Pick, n: nat)
    requires n < NUM_BUCKETS && Found(b, k, n)
    ensures var k' := Select(k, Cumulative(b, n + 1) % TWO_64, Representative(n));
            k'.target == k.target && Found(b, k', n + 1)
  {
    hide Representative, Cumulative;
    if !k.done { FirstFrom(b, k.target, 0, n); }
  }

  lemma FoundHere(b: Buckets, k: Pick, n: nat)
    requires n < NUM_BUCKETS && Found(b, k, n) && !k.done
    ensures Select(k, Cumulative(b, n + 1) % TWO_64, Representative(n)).done ==> First64(b, k.target, 0) == n
  {
    hide Representative, Cumulative;
    FirstFrom(b, k.target, 0, n);
  }

  lemma FoundEnd(b: Buckets, k: Pick, n: nat, last: nat)
    requires n <= NUM_BUCKETS && Found(b, k, n)
    requires (n > 0 && last == n - 1) || (n == last == NUM_BUCKETS)
    ensures k.value == Report64(b, k.target, last)
  {
    hide Representative, Cumulative, First64;
  }

  lemma LastIs(b: Buckets, k: Pick, n: nat, last: nat)
    requires n <= NUM_BUCKETS && Found(b, k, n)
    requires k.done ==> n > 0 && First64(b, k.target, 0) == n - 1
    requires last == if k.done then n - 1 else NUM_BUCKETS
    requires !k.done ==> n == NUM_BUCKETS
    ensures First64(b, k.target, 0) == last
  {
    hide Representative, Cumulative, First64;
  }

  // ----- within 64 bits that is the intended report

  lemma {:induction false} First64IsFirstReaching(b: Buckets, target: nat, j: nat)
    requires j <= NUM_BUCKETS && Cumulative(b, NUM_BUCKETS) < TWO_64
    ensures First64(b, target, j) == FirstReaching(b, target, j)
    decreases NUM_BUCKETS - j
  {
    hide Cumulative;
    if j < NUM_BUCKETS {
      CumulativeRises(b, j + 1, NUM_BUCKETS);
      First64IsFirstReaching(b, target, j + 1);
    }
  }

  /** A lower rank is reached no later. */
  lemma {:induction false} FirstReachingOrdered(b: Buckets, x: nat, y: nat, j: nat)
    requires x <= y && j <= NUM_BUCKETS
    ensures FirstReaching(b, x, j) <= FirstReaching(b, y, j)
    decreases NUM_BUCKETS - j
  {
    hide Cumulative;
    if j < NUM_BUCKETS { FirstReachingOrdered(b, x, y, j + 1); }
  }

  lemma ReportIsPercentile(b: Buckets, x: nat, y: nat)
    requires Cumulative(b, NUM_BUCKETS) < TWO_64 && x <= y
    ensures Report64(b, x, First64(b, y, 0)) == Percentile(b, x)
  {
    hide Cumulative, Representative, First64, FirstReaching;
    First64IsFirstReaching(b, x, 0);
    First64IsFirstReaching(b, y, 0);
    FirstReachingOrdered(b, x, y, 0);
  }

  /** The early break loses nothing: with counts within 64 bits, once the highest rank is reached so are the others. */
  lemma StatsWithin64Bits(t: Tracker)
    requires InRange(t)
    ensures Stats64(t) == Stats(t)
  {
    hide Cumulative, Report64, Percentile, First64, Target50, Target95, Target99, Target999;
    if t.count > 0 {
      TargetsAreRanks(t.count);
      var b, top := t.buckets, Rank999(t.count);
      ReportIsPercentile(b, Rank50(t.count), top); ReportIsPercentile(b, Rank95(t.count), top);
      ReportIsPercentile(b, Rank99(t.count), top); ReportIsPercentile(b, top, top);
    }
  }

  /** So it is for every recorded history whose size leaves the rank products within 64 bits. */
  lemma RecordedWithin64Bits(xs: seq<u64>)
    requires |xs| * 999 < TWO_64
    ensures InRange(RecordAll(xs)) && Stats64(RecordAll(xs)) == Stats(RecordAll(xs))
  {
    hide RecordAll, Cumulative, Stats, Stats64;
    BucketsCount(xs, NUM_BUCKETS);
    AllCounted(xs);
    StatsWithin64Bits(RecordAll(xs));
  }

  /** What get_stats reports after any history of two samples or more: the count, the true extremes, the mean, and for
      the ranks n/2, 95n/100, 99n/100 and 999n/1000 the exact samples within a factor of two. */
  lemma ReportedPercentiles(xs: seq<u64>) returns (sorted: seq<u64>)
    requires 2 <= |xs| && |xs| * 999 < TWO_64
    ensures Sorted(sorted) && multiset(sorted) == multiset(xs)
    ensures var n, st := |xs|, Stats64(RecordAll(xs));
            && Reports(st.p50, sorted, n / 2) && Reports(st.p95, sorted, n * 95 / 100)
            && Reports(st.p99, sorted, n * 99 / 100) && Reports(st.p999, sorted, n * 999 / 1000)
            && st.p50 <= st.p95 <= st.p99 <= st.p999
  {
    hide RecordAll, Stats, Stats64, Reports, Sorted;
    RecordedWithin64Bits(xs);
    sorted := PercentilesOfAnyHistory(xs);
  }

  /** And its other fields, for any history that is not empty. */
  lemma ReportedSummary(xs: seq<u64>)
    requires 0 < |xs| < TWO_64
    ensures var st := Stats64(RecordAll(xs));
            && st.count == |xs| && st.mean == Total(xs) % TWO_64 / |xs|
            && st.min in xs && st.max in xs && forall x :: x in xs ==> st.min <= x <= st.max
  {
    hide RecordAll, Total, Report64, Target50, Target95, Target99, Target999;
    BucketsCount(xs, 0);
    SumIsTotal(xs);
    RecordAllExtremes(xs);
    assert xs[0] in xs;
  }

  /** Replays the representative of every bucket of src into dst, once per sample; src may be dst itself. */
  method Merge(dst: LatencyTracker, src: LatencyTracker)
    requires dst.Valid() && src.Valid() && (dst == src || dst.buckets != src.buckets)
    modifies dst, dst.buckets
    ensures dst.Valid() && dst.View() == Replayed(old(dst.View()), old(src.View()).buckets, NUM_BUCKETS)
  {
    hide BucketFor, Representative, Histogram.Record;
    ghost var t, other := dst.View(), src.View().buckets;
    for i := 0 to NUM_BUCKETS
      invariant dst.View() == Replayed(t, other, i)
      invariant forall k :: i <= k < NUM_BUCKETS ==> src.buckets[k] == other[k]
    {
      var cnt := src.buckets[i];
      var val := Representative(i);
      ghost var before := dst.View();
      RepresentativeInBucket(i);
      for j := 0 to cnt
        invariant dst.View() == RecordMany(before, val, j)
        invariant forall k :: i < k < NUM_BUCKETS ==> src.buckets[k] == other[k]
      {
        RecordElsewhere(dst.View(), val, i);
        dst.Record(val);
      }
    }
  }

  lemma RecordElsewhere(t: Tracker, ns: u64, i: nat)
    requires BucketFor(ns) == i
    ensures forall k :: 0 <= k < NUM_BUCKETS && k != i ==> Histogram.Record(t, ns).buckets[k] == t.buckets[k]
  {
  }
}
