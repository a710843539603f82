/**
  The latency histogram as a value: logarithmic buckets, percentile selection, and merging.
 */
module Histogram {
  import opened Bytes

  const NUM_BUCKETS: nat := 64
  const UINT64_MAX: u64 := 0xFFFF_FFFF_FFFF_FFFF

  function Zeros(n: nat): (z: seq<u64>)
    ensures |z| == n && forall i :: 0 <= i < n ==> z[i] == 0
  {
    if n == 0 then [] else Zeros(n - 1) + [0]
  }

  type Buckets = b: seq<u64> | |b| == 64 witness Zeros(64)

  /** The state of a tracker. */
  datatype Tracker = Tracker(buckets: Buckets, min: u64, max: u64, sum: u64, count: u64)

  const Empty := Tracker(Zeros(NUM_BUCKETS), UINT64_MAX, 0, 0, 0)

  /** The position of the highest set bit of x. */
  function HighestBit(x: nat): nat
    requires x > 0
  {
    if x == 1 then 0 else 1 + HighestBit(x / 2)
  }

  lemma {:induction false} HighestBitBounds(x: nat)
    requires x > 0
    ensures Pow2(HighestBit(x)) <= x < Pow2(HighestBit(x) + 1)
  {
    if x > 1 { HighestBitBounds(x / 2); }
  }

  lemma Pow2Of64()
    ensures Pow2(63) == 0x8000_0000_0000_0000 && Pow2(64) == TWO_64
  {
    Pow2Of32();
    Pow2OneByteMore(32); Pow2OneByteMore(40); Pow2OneByteMore(48); Pow2OneByteMore(56);
  }

  lemma {:induction false} Pow2Rises(i: nat, j: nat)
    requires i < j
    ensures 2 * Pow2(i) <= Pow2(j)
    decreases j
  {
    if i + 1 < j { Pow2Rises(i, j - 1); }
  }

  function BucketFor(ns: u64): (b: nat)
    ensures b < NUM_BUCKETS
  {
    if ns == 0 then 0 else var b := HighestBit(ns); if b < NUM_BUCKETS then b else NUM_BUCKETS - 1
  }

  /** The value reported for a bucket. */
  function Representative(i: nat): u64
    requires i < NUM_BUCKETS
  {
    if i < 63 then
      assert Pow2(i) < TWO_64 by { Pow2Rises(i, 64); Pow2Of64(); }
      Pow2(i)
    else UINT64_MAX
  }

  /** Bucket b > 0 holds exactly the values from 2^b up to but excluding 2^(b+1). */
  lemma BucketRange(ns: u64, b: nat)
    requires ns > 0 && b < NUM_BUCKETS
    ensures BucketFor(ns) == b <==> Pow2(b) <= ns < Pow2(b + 1)
  {
    HighestBitBounds(ns);
    Pow2Of64();
    var h := HighestBit(ns);
    if h >= 64 { if h > 64 { Pow2Rises(64, h); } }
    if h < b { if h + 1 < b { Pow2Rises(h + 1, b); } } else if b < h { if b + 1 < h { Pow2Rises(b + 1, h); } }
  }

  /** The representative of a bucket falls into that bucket. */
  lemma RepresentativeInBucket(i: nat)
    requires i < NUM_BUCKETS
    ensures BucketFor(Representative(i)) == i
  {
    Pow2Of64();
    BucketRange(Representative(i), i);
  }

  lemma BucketForMonotone(x: u64, y: u64)
    requires x <= y
    ensures BucketFor(x) <= BucketFor(y)
  {
    if x > 0 {
      var a, b := BucketFor(x), BucketFor(y);
      BucketRange(x, a);
      BucketRange(y, b);
      if b < a && b + 1 < a { Pow2Rises(b + 1, a); }
    }
  }

  lemma RepresentativeMonotone(i: nat, j: nat)
    requires i <= j < NUM_BUCKETS
    ensures Representative(i) <= Representative(j)
  {
    if i < j < 63 { Pow2Rises(i, j); }
  }

  /** What a report says about the value it stands for. It is an upper bound for zero, for the powers of two, and from
      2^63 on, and for no other value. */
  lemma ReportBounds(q: u64)
    ensures var r := Representative(BucketFor(q));
            && (1 <= q < 0x8000_0000_0000_0000 ==> r <= q < 2 * r)
            && (r >= q <==> q == 0 || q >= 0x8000_0000_0000_0000 || exists k: nat :: q == Pow2(k))
  {
    hide BucketFor, Pow2;
    Pow2Of64();
    if q > 0 {
      BucketRange(q, BucketFor(q));
      BucketRange(q, 63);
      Pow2Doubles(BucketFor(q));
      forall k: nat | q == Pow2(k) ensures k == BucketFor(q) {
        if k < BucketFor(q) { Pow2Rises(k, BucketFor(q)); }
        if BucketFor(q) + 1 < k { Pow2Rises(BucketFor(q) + 1, k); }
      }
    } else {
      ReportOfZero();
    }
  }

  lemma Pow2Doubles(k: nat)
    ensures Pow2(k + 1) == 2 * Pow2(k)
  {
  }

  lemma ReportOfZero()
    ensures BucketFor(0) == 0 && Representative(0) == 1
  {
  }

  function Plus(n: u64, d: u64): u64 {
    (n as nat + d) % TWO_64
  }

  function Record(t: Tracker, ns: u64): Tracker {
    var b := BucketFor(ns);
    Tracker(t.buckets[b := Plus(t.buckets[b], 1)],
            if ns < t.min then ns else t.min, if ns > t.max then ns else t.max,
            Plus(t.sum, ns), Plus(t.count, 1))
  }

  function RecordAll(xs: seq<u64>): Tracker {
    if xs == [] then Empty else Record(RecordAll(xs[..|xs| - 1]), xs[|xs| - 1])
  }

  // ----- percentiles

  /** The number of samples in the first n buckets. */
  function Cumulative(b: seq<u64>, n: nat): nat
    requires n <= |b|
  {
    if n == 0 then 0 else Cumulative(b, n - 1) + b[n - 1]
  }

  /** The first bucket from j on at which the cumulative count reaches the target. */
  function FirstReaching(b: seq<u64>, target: nat, j: nat): (i: nat)
    requires j <= |b|
    ensures j <= i <= |b|
    decreases |b| - j
  {
    if j == |b| || Cumulative(b, j + 1) >= target then j else FirstReaching(b, target, j + 1)
  }

  /** The value get_stats reports for a rank, zero when the count never reaches it. */
  function Percentile(b: Buckets, target: nat): u64 {
    var i := FirstReaching(b, target, 0);
    if i < NUM_BUCKETS then Representative(i) else 0
  }

  datatype LatencyStats = LatencyStats(min: u64, max: u64, mean: u64,
                                       p50: u64, p95: u64, p99: u64, p999: u64, count: u64)

  const NoStats := LatencyStats(0, 0, 0, 0, 0, 0, 0, 0)

  function Rank50(n: nat): nat { n / 2 }
  function Rank95(n: nat): nat { n * 95 / 100 }
  function Rank99(n: nat): nat { n * 99 / 100 }
  function Rank999(n: nat): nat { n * 999 / 1000 }

  /** Neither the rank computation nor the running count leaves 64 bits. */
  ghost predicate InRange(t: Tracker) {
    t.count * 999 < TWO_64 && Cumulative(t.buckets, NUM_BUCKETS) < TWO_64
  }

  function Stats(t: Tracker): LatencyStats {
    if t.count == 0 then NoStats
    else LatencyStats(t.min, t.max, t.sum / t.count,
                      Percentile(t.buckets, Rank50(t.count)), Percentile(t.buckets, Rank95(t.count)),
                      Percentile(t.buckets, Rank99(t.count)), Percentile(t.buckets, Rank999(t.count)), t.count)
  }

  lemma {:induction false} CumulativeRises(b: seq<u64>, m: nat, n: nat)
    requires m <= n <= |b|
    ensures Cumulative(b, m) <= Cumulative(b, n)
    decreases n
  {
    if m < n { CumulativeRises(b, m, n - 1); }
  }

  lemma {:induction false} FirstReachingIs(b: seq<u64>, target: nat, j: nat, i: nat)
    requires j <= i < |b| && Cumulative(b, i + 1) >= target
    requires forall n :: j < n <= i ==> Cumulative(b, n) < target
    ensures FirstReaching(b, target, j) == i
    decreases |b| - j
  {
    if j < i { FirstReachingIs(b, target, j + 1, i); }
  }

  /** The number of samples that fall into the first n buckets. */
  function CountBelow(xs: seq<u64>, n: nat): (c: nat)
    ensures c <= |xs|
  {
    if xs == [] then 0 else CountBelow(xs[..|xs| - 1], n) + (if BucketFor(xs[|xs| - 1]) < n then 1 else 0)
  }

  lemma {:induction false} CumulativeUpdate(b: seq<u64>, i: nat, v: u64, n: nat)
    requires i < |b| && n <= |b|
    ensures Cumulative(b[i := v], n) == Cumulative(b, n) + (if i < n then v as int - b[i] else 0)
  {
    if n > 0 { CumulativeUpdate(b, i, v, n - 1); }
  }

  lemma {:induction false} CumulativeEmpty(n: nat)
    requires n <= NUM_BUCKETS
    ensures Cumulative(Empty.buckets, n) == 0
  {
    if n > 0 { CumulativeEmpty(n - 1); }
  }

  lemma {:induction false} BucketLeCumulative(b: seq<u64>, i: nat, n: nat)
    requires i < n <= |b|
    ensures b[i] <= Cumulative(b, n)
  {
    if i < n - 1 { BucketLeCumulative(b, i, n - 1); }
  }

  /** Recording adds one to every cumulative count that covers the sample's bucket. */
  lemma RecordCumulative(t: Tracker, x: u64, n: nat)
    requires n <= NUM_BUCKETS && Cumulative(t.buckets, NUM_BUCKETS) + 1 < TWO_64
    ensures Cumulative(Record(t, x).buckets, n) == Cumulative(t.buckets, n) + (if BucketFor(x) < n then 1 else 0)
  {
    hide BucketFor, Cumulative;
    var i := BucketFor(x);
    BucketLeCumulative(t.buckets, i, NUM_BUCKETS);
    CumulativeUpdate(t.buckets, i, Plus(t.buckets[i], 1), n);
  }

  /** The buckets of a recorded history count exactly its samples. */
  lemma {:induction false} BucketsCount(xs: seq<u64>, n: nat)
    requires |xs| < TWO_64 && n <= NUM_BUCKETS
    ensures Cumulative(RecordAll(xs).buckets, n) == CountBelow(xs, n)
    ensures RecordAll(xs).count == |xs|
  {
    hide BucketFor, Cumulative, Record;
    if xs == [] {
      CumulativeEmpty(n);
    } else {
      var ys, x := xs[..|xs| - 1], xs[|xs| - 1];
      BucketsCount(ys, n);
      BucketsCount(ys, NUM_BUCKETS);
      RecordCumulative(RecordAll(ys), x, n);
      RecordCount(RecordAll(ys), x);
    }
  }

  lemma RecordCount(t: Tracker, x: u64)
    ensures Record(t, x).count == Plus(t.count, 1)
  {
  }

  lemma {:induction false} CountBelowAppend(a: seq<u64>, b: seq<u64>, n: nat)
    ensures CountBelow(a + b, n) == CountBelow(a, n) + CountBelow(b, n)
    decreases |b|
  {
    hide BucketFor;
    if b == [] {
      assert a + b == a;
    } else {
      assert (a + b)[..|a + b| - 1] == a + b[..|b| - 1];
      CountBelowAppend(a, b[..|b| - 1], n);
    }
  }

  lemma TakeOut(b: seq<u64>, x: u64) returns (front: seq<u64>, back: seq<u64>)
    requires x in b
    ensures b == front + ([x] + back)
    ensures multiset(b) == multiset(front + back) + multiset{x}
  {
    var j :| 0 <= j < |b| && b[j] == x;
    front, back := b[..j], b[j + 1..];
    assert b == front + ([x] + back);
  }

  /** Counting does not depend on the order of the samples. */
  lemma {:induction false} CountBelowPermuted(a: seq<u64>, b: seq<u64>, n: nat)
    requires multiset(a) == multiset(b)
    ensures CountBelow(a, n) == CountBelow(b, n)
    decreases |a|
  {
    hide BucketFor;
    if a == [] {
      assert |multiset(b)| == 0;
    } else {
      var x, a' := a[|a| - 1], a[..|a| - 1];
      assert a == a' + [x];
      assert x in multiset(b);
      var front, back := TakeOut(b, x);
      assert multiset(a') == multiset(a) - multiset{x};
      assert multiset(front + back) == multiset(b) - multiset{x};
      CountBelowPermuted(a', front + back, n);
      CountBelowAppend(front, [x] + back, n);
      CountBelowAppend([x], back, n);
      CountBelowAppend(front, back, n);
      CountBelowAppend(a', [x], n);
    }
  }

  ghost predicate Sorted(s: seq<u64>) {
    forall i, j :: 0 <= i <= j < |s| ==> s[i] <= s[j]
  }

  lemma {:induction false} CountAllOrNone(s: seq<u64>, n: nat, all: bool)
    requires forall i :: 0 <= i < |s| ==> (BucketFor(s[i]) < n) == all
    ensures CountBelow(s, n) == if all then |s| else 0
  {
    hide BucketFor;
    if s != [] { CountAllOrNone(s[..|s| - 1], n, all); }
  }

  /** Among sorted samples the first n buckets hold at least t of them exactly when they hold the t-th. */
  lemma SortedCount(s: seq<u64>, n: nat, t: nat)
    requires Sorted(s) && 1 <= t <= |s|
    ensures CountBelow(s, n) >= t <==> BucketFor(s[t - 1]) < n
  {
    hide BucketFor;
    if BucketFor(s[t - 1]) < n {
      forall i | 0 <= i < t ensures BucketFor(s[..t][i]) < n { BucketForMonotone(s[i], s[t - 1]); }
      CountAllOrNone(s[..t], n, true);
      CountBelowAppend(s[..t], s[t..], n);
      assert s == s[..t] + s[t..];
    } else {
      var back := s[t - 1..];
      forall i | 0 <= i < |back| ensures !(BucketFor(back[i]) < n) { BucketForMonotone(s[t - 1], back[i]); }
      CountAllOrNone(back, n, false);
      CountBelowAppend(s[..t - 1], back, n);
      assert s == s[..t - 1] + back;
    }
  }

  /** The reported value is the representative of the bucket that holds the exact sample of that rank. */
  lemma PercentileIsRank(xs: seq<u64>, sorted: seq<u64>, t: nat)
    requires |xs| < TWO_64 && multiset(sorted) == multiset(xs) && Sorted(sorted) && 1 <= t <= |xs|
    ensures |sorted| == |xs|
    ensures Percentile(RecordAll(xs).buckets, t) == Representative(BucketFor(sorted[t - 1]))
  {
    hide BucketFor, RecordAll, Representative;
    assert |multiset(sorted)| == |sorted| && |multiset(xs)| == |xs|;
    var b, q := RecordAll(xs).buckets, BucketFor(sorted[t - 1]);
    forall n | 0 <= n <= NUM_BUCKETS ensures Cumulative(b, n) >= t <==> q < n {
      BucketsCount(xs, n);
      CountBelowPermuted(xs, sorted, n);
      SortedCount(sorted, n, t);
    }
    FirstReachingIs(b, t, 0, q);
  }

  lemma Ranks(n: nat)
    requires n >= 2
    ensures 1 <= Rank50(n) <= Rank95(n) <= Rank99(n) <= Rank999(n) <= n
  {
  }

  /** From two samples on, every reported percentile is right; with one it is only if the sample is at most 1. */
  lemma PercentilesCorrect(xs: seq<u64>, sorted: seq<u64>)
    requires 2 <= |xs| && |xs| * 999 < TWO_64 && multiset(sorted) == multiset(xs) && Sorted(sorted)
    ensures var n, st := |xs|, Stats(RecordAll(xs));
            && |sorted| == n && st.count == n
            && 1 <= Rank50(n) <= Rank95(n) <= Rank99(n) <= Rank999(n) <= n
            && st.p50 == Representative(BucketFor(sorted[Rank50(n) - 1]))
            && st.p95 == Representative(BucketFor(sorted[Rank95(n) - 1]))
            && st.p99 == Representative(BucketFor(sorted[Rank99(n) - 1]))
            && st.p999 == Representative(BucketFor(sorted[Rank999(n) - 1]))
            && st.p50 <= st.p95 <= st.p99 <= st.p999
  {
    hide BucketFor, RecordAll, Representative, Percentile, Rank50, Rank95, Rank99, Rank999;
    var n := |xs|;
    BucketsCount(xs, 0);
    Ranks(n);
    assert |multiset(sorted)| == |multiset(xs)|;
    PercentileIsRank(xs, sorted, Rank50(n));
    PercentileIsRank(xs, sorted, Rank95(n));
    PercentileIsRank(xs, sorted, Rank99(n));
    PercentileIsRank(xs, sorted, Rank999(n));
    ReportsOrdered(sorted[Rank50(n) - 1], sorted[Rank95(n) - 1]);
    ReportsOrdered(sorted[Rank95(n) - 1], sorted[Rank99(n) - 1]);
    ReportsOrdered(sorted[Rank99(n) - 1], sorted[Rank999(n) - 1]);
  }

  lemma ReportsOrdered(x: u64, y: u64)
    requires x <= y
    ensures Representative(BucketFor(x)) <= Representative(BucketFor(y))
  {
    BucketForMonotone(x, y);
    RepresentativeMonotone(BucketFor(x), BucketFor(y));
  }

  /** With a single sample all ranks are zero, so every percentile reads 1 whatever was recorded. */
  lemma SingleSample(x: u64)
    ensures var st := Stats(RecordAll([x]));
            && st.p50 == 1 && st.p95 == 1 && st.p99 == 1 && st.p999 == 1
            && (st.p50 == Representative(BucketFor(x)) <==> x <= 1)
  {
    assert [x][..|[x]| - 1] == [];
    assert RecordAll([]) == Empty;
    var t := RecordAll([x]);
    assert t == Record(Empty, x);
    FirstReachingIs(t.buckets, 0, 0, 0);
    if x > 1 {
      BucketRange(x, BucketFor(x));
      assert BucketFor(x) > 0;
      if BucketFor(x) < 63 { Pow2Rises(0, BucketFor(x)); }
    }
  }

  function Insert(t: seq<u64>, x: u64, i: nat): (s: seq<u64>)
    requires i <= |t|
    ensures |s| == |t| + 1
    ensures forall k :: 0 <= k <= |t| ==> s[k] == if k < i then t[k] else if k == i then x else t[k - 1]
  {
    t[..i] + [x] + t[i..]
  }

  lemma InsertPermutes(t: seq<u64>, x: u64, i: nat)
    requires i <= |t|
    ensures multiset(Insert(t, x, i)) == multiset(t) + multiset{x}
  {
    assert t == t[..i] + t[i..];
  }

  /** Inserting x in front of the first element that is not smaller. */
  lemma InsertSorted(t: seq<u64>, x: u64, i: nat)
    requires Sorted(t) && i <= |t| && (forall k :: 0 <= k < i ==> t[k] < x) && (i < |t| ==> x <= t[i])
    ensures Sorted(Insert(t, x, i))
  {
    var s := Insert(t, x, i);
    forall p, q | 0 <= p <= q < |s| ensures s[p] <= s[q] {
      var p', q' := if p > i then p - 1 else p, if q > i then q - 1 else q;
      if q != i { assert t[p'] <= t[q']; }
    }
  }

  lemma {:induction false} SortedExists(xs: seq<u64>) returns (s: seq<u64>)
    ensures Sorted(s) && multiset(s) == multiset(xs)
  {
    if xs == [] {
      s := [];
    } else {
      var x := xs[0];
      var t := SortedExists(xs[1..]);
      var i := 0;
      while i < |t| && t[i] < x
        invariant 0 <= i <= |t| && forall k :: 0 <= k < i ==> t[k] < x
      {
        i := i + 1;
      }
      InsertSorted(t, x, i);
      InsertPermutes(t, x, i);
      s := Insert(t, x, i);
      assert xs == [x] + xs[1..];
    }
  }

  /** The reported value is within a factor of two below the exact sample of that rank. */
  ghost predicate Reports(v: u64, sorted: seq<u64>, rank: nat) {
    && 1 <= rank <= |sorted| && v == Representative(BucketFor(sorted[rank - 1]))
    && (1 <= sorted[rank - 1] < 0x8000_0000_0000_0000 ==> v <= sorted[rank - 1] < 2 * v)
  }

  /** For every history of at least two samples there is one sorted arrangement of it that all four reports refer to. */
  lemma PercentilesOfAnyHistory(xs: seq<u64>) returns (sorted: seq<u64>)
    requires 2 <= |xs| && |xs| * 999 < TWO_64
    ensures Sorted(sorted) && multiset(sorted) == multiset(xs)
    ensures var n, st := |xs|, Stats(RecordAll(xs));
            && st.count == n
            && Reports(st.p50, sorted, Rank50(n)) && Reports(st.p95, sorted, Rank95(n))
            && Reports(st.p99, sorted, Rank99(n)) && Reports(st.p999, sorted, Rank999(n))
            && st.p50 <= st.p95 <= st.p99 <= st.p999
  {
    hide BucketFor, RecordAll, Representative, Percentile, Stats, Rank50, Rank95, Rank99, Rank999, Sorted;
    var n := |xs|;
    sorted := SortedExists(xs);
    PercentilesCorrect(xs, sorted);
    ReportBounds(sorted[Rank50(n) - 1]); ReportBounds(sorted[Rank95(n) - 1]);
    ReportBounds(sorted[Rank99(n) - 1]); ReportBounds(sorted[Rank999(n) - 1]);
  }

  /** Minimum and maximum bound all samples and are themselves samples. */
  lemma {:induction false} RecordAllExtremes(xs: seq<u64>)
    ensures var t := RecordAll(xs);
            && (forall x :: x in xs ==> t.min <= x <= t.max)
            && (t.min == UINT64_MAX || t.min in xs) && (t.max == 0 || t.max in xs)
  {
    hide BucketFor, Plus;
    if xs != [] {
      var ys, x := xs[..|xs| - 1], xs[|xs| - 1];
      RecordAllExtremes(ys);
      assert xs == ys + [x];
    }
  }

  function Total(xs: seq<u64>): nat {
    if xs == [] then 0 else xs[0] + Total(xs[1..])
  }

  lemma {:induction false} TotalOneMore(xs: seq<u64>, x: u64)
    ensures Total(xs + [x]) == Total(xs) + x
  {
    if xs == [] {
      assert (xs + [x])[1..] == [];
    } else {
      assert (xs + [x])[1..] == xs[1..] + [x];
      TotalOneMore(xs[1..], x);
    }
  }

  lemma PlusAfter(n: nat, d: u64)
    ensures Plus(n % TWO_64, d) == (n + d) % TWO_64
  {
  }

  /** The sum field is the sum of the samples, modulo 2^64. */
  lemma {:induction false} SumIsTotal(xs: seq<u64>)
    ensures RecordAll(xs).sum == Total(xs) % TWO_64
  {
    hide BucketFor, Plus, Total;
    if xs == [] {
      NoTotal();
    } else {
      var ys, x := xs[..|xs| - 1], xs[|xs| - 1];
      assert xs == ys + [x];
      SumIsTotal(ys);
      TotalOneMore(ys, x);
      PlusAfter(Total(ys), x);
    }
  }

  lemma NoTotal()
    ensures Total([]) == 0
  {
  }

  // ----- merging

  /** Recording the same value k times. */
  function RecordMany(t: Tracker, ns: u64, k: nat): Tracker {
    if k == 0 then t else Record(RecordMany(t, ns, k - 1), ns)
  }

  /** The tracker after replaying the representatives of the first n buckets of another. */
  function Replayed(t: Tracker, other: Buckets, n: nat): Tracker
    requires n <= NUM_BUCKETS
  {
    if n == 0 then t else RecordMany(Replayed(t, other, n - 1), Representative(n - 1), other[n - 1])
  }

  lemma PlusMany(n: u64, k: nat)
    requires k > 0
    ensures Plus((n as nat + (k - 1)) % TWO_64, 1) == (n as nat + k) % TWO_64
  {
  }

  lemma {:induction false} RecordManyAdds(t: Tracker, i: nat, k: nat)
    requires i < NUM_BUCKETS
    ensures var r := RecordMany(t, Representative(i), k);
            && (forall j :: 0 <= j < NUM_BUCKETS ==>
                 r.buckets[j] == if j == i then (t.buckets[i] as nat + k) % TWO_64 else t.buckets[j])
            && r.count == (t.count as nat + k) % TWO_64
  {
    hide BucketFor, Representative, Plus;
    if k > 0 {
      RecordManyAdds(t, i, k - 1);
      RepresentativeInBucket(i);
      PlusMany(t.buckets[i], k);
      PlusMany(t.count, k);
    }
  }

  /** Replaying adds the two histograms bucket by bucket. */
  lemma {:induction false} ReplayAdds(t: Tracker, other: Buckets, n: nat)
    requires n <= NUM_BUCKETS
    ensures var r := Replayed(t, other, n);
            && (forall i :: 0 <= i < NUM_BUCKETS ==>
                 r.buckets[i] == if i < n then Plus(t.buckets[i], other[i]) else t.buckets[i])
            && r.count == (t.count as nat + Cumulative(other, n)) % TWO_64
  {
    hide Representative, RecordMany, Cumulative, Plus;
    if n == 0 {
      NothingCounted(other);
    } else {
      ReplayAdds(t, other, n - 1);
      RecordManyAdds(Replayed(t, other, n - 1), n - 1, other[n - 1]);
      OneMoreCounted(other, n);
      PlusIs(t.buckets[n - 1], other[n - 1]);
    }
  }

  lemma PlusIs(n: u64, d: u64)
    ensures Plus(n, d) == (n as nat + d) % TWO_64
  {
  }

  lemma NothingCounted(b: Buckets)
    ensures Cumulative(b, 0) == 0
  {
  }

  lemma OneMoreCounted(b: Buckets, n: nat)
    requires 0 < n <= NUM_BUCKETS
    ensures Cumulative(b, n) == Cumulative(b, n - 1) + b[n - 1]
  {
  }

  lemma SamePercentiles(t: Tracker, u: Tracker)
    requires t.buckets == u.buckets && t.count == u.count
    ensures Stats(t).p50 == Stats(u).p50 && Stats(t).p95 == Stats(u).p95
    ensures Stats(t).p99 == Stats(u).p99 && Stats(t).p999 == Stats(u).p999
  {
  }

  lemma {:induction false} CumulativeSum(a: Buckets, b: Buckets, c: Buckets, n: nat)
    requires n <= NUM_BUCKETS && forall i :: 0 <= i <= n ==> Cumulative(c, i) == Cumulative(a, i) + Cumulative(b, i)
    ensures forall i :: 0 <= i < n ==> c[i] as nat == a[i] as nat + b[i] as nat
  {
    if n > 0 {
      CumulativeSum(a, b, c, n - 1);
      assert Cumulative(c, n) == Cumulative(a, n) + Cumulative(b, n);
      assert Cumulative(c, n - 1) == Cumulative(a, n - 1) + Cumulative(b, n - 1);
    }
  }

  lemma CumulativeOfBoth(xs: seq<u64>, ys: seq<u64>, n: nat)
    requires |xs| + |ys| < TWO_64 && n <= NUM_BUCKETS
    ensures Cumulative(RecordAll(xs + ys).buckets, n)
         == Cumulative(RecordAll(xs).buckets, n) + Cumulative(RecordAll(ys).buckets, n)
  {
    hide RecordAll, Cumulative, CountBelow;
    BucketsCount(xs, n);
    BucketsCount(ys, n);
    BucketsCount(xs + ys, n);
    CountBelowAppend(xs, ys, n);
  }

  lemma SumOfBuckets(a: Buckets, b: Buckets, c: Buckets, m: Buckets)
    requires forall n :: 0 <= n <= NUM_BUCKETS ==> Cumulative(c, n) == Cumulative(a, n) + Cumulative(b, n)
    requires forall i :: 0 <= i < NUM_BUCKETS ==> m[i] == Plus(a[i], b[i])
    ensures m == c
  {
    hide Cumulative;
    CumulativeSum(a, b, c, NUM_BUCKETS);
  }

  /** Merging two recorded histories gives the buckets, count and percentiles of one tracker that recorded both. */
  lemma MergeHomomorphism(xs: seq<u64>, ys: seq<u64>)
    requires |xs| + |ys| < TWO_64
    ensures var m := Replayed(RecordAll(xs), RecordAll(ys).buckets, NUM_BUCKETS);
            var both := RecordAll(xs + ys);
            && m.buckets == both.buckets && m.count == both.count
            && Stats(m).p50 == Stats(both).p50 && Stats(m).p95 == Stats(both).p95
            && Stats(m).p99 == Stats(both).p99 && Stats(m).p999 == Stats(both).p999
  {
    hide RecordAll, Replayed, Stats, Cumulative, CountBelow, Plus;
    var a, b, c := RecordAll(xs), RecordAll(ys), RecordAll(xs + ys);
    var m := Replayed(a, b.buckets, NUM_BUCKETS);
    forall n | 0 <= n <= NUM_BUCKETS
      ensures Cumulative(c.buckets, n) == Cumulative(a.buckets, n) + Cumulative(b.buckets, n)
    {
      CumulativeOfBoth(xs, ys, n);
    }
    ReplayAdds(a, b.buckets, NUM_BUCKETS);
    SumOfBuckets(a.buckets, b.buckets, c.buckets, m.buckets);
    BucketsCount(xs, 0);
    BucketsCount(ys, NUM_BUCKETS);
    BucketsCount(xs + ys, 0);
    AllCounted(ys);
    SamePercentiles(m, c);
  }

  lemma AllCounted(xs: seq<u64>)
    ensures CountBelow(xs, NUM_BUCKETS) == |xs|
  {
    CountAllOrNone(xs, NUM_BUCKETS, true);
  }

  /** How far replaying v moves the extremes. */
  lemma {:induction false} RecordManyExtremes(t: Tracker, v: u64, k: nat)
    ensures var r := RecordMany(t, v, k);
            && r.min == (if k > 0 && v < t.min then v else t.min) && r.max == (if k > 0 && v > t.max then v else t.max)
  {
    hide BucketFor, Plus;
    if k > 0 { RecordManyExtremes(t, v, k - 1); }
  }

  /** Every non-empty bucket's representative lies within the merged extremes, which are old ones or representatives. */
  lemma {:induction false} ReplayExtremes(t: Tracker, other: Buckets, n: nat)
    requires n <= NUM_BUCKETS
    ensures var r := Replayed(t, other, n);
            && r.min <= t.min && r.max >= t.max
            && (forall i :: 0 <= i < n && other[i] > 0 ==> r.min <= Representative(i) <= r.max)
            && (r.min == t.min || exists i :: 0 <= i < n && other[i] > 0 && r.min == Representative(i))
            && (r.max == t.max || exists i :: 0 <= i < n && other[i] > 0 && r.max == Representative(i))
  {
    hide Representative, RecordMany;
    if n > 0 {
      ReplayExtremes(t, other, n - 1);
      RecordManyExtremes(Replayed(t, other, n - 1), Representative(n - 1), other[n - 1]);
    }
  }

  ghost predicate Holds(xs: seq<u64>, i: nat) {
    exists x :: x in xs && BucketFor(x) == i
  }

  lemma HoldsOneMore(xs: seq<u64>, x: u64, i: nat)
    ensures Holds(xs + [x], i) <==> Holds(xs, i) || BucketFor(x) == i
  {
    hide BucketFor;
    if Holds(xs, i) {
      var y :| y in xs && BucketFor(y) == i;
      assert y in xs + [x];
    }
    assert x in xs + [x];
  }

  /** A bucket is non-empty exactly when some sample falls into it. */
  lemma {:induction false} BucketUsed(xs: seq<u64>, i: nat)
    requires |xs| < TWO_64 && i < NUM_BUCKETS
    ensures RecordAll(xs).buckets[i] <= |xs|
    ensures RecordAll(xs).buckets[i] > 0 <==> Holds(xs, i)
  {
    hide BucketFor, Holds, Record;
    if xs == [] {
      HoldsNothing(i);
    } else {
      var ys, x := xs[..|xs| - 1], xs[|xs| - 1];
      assert xs == ys + [x];
      BucketUsed(ys, i);
      RecordBucket(RecordAll(ys), x, i);
      HoldsOneMore(ys, x, i);
    }
  }

  lemma RecordBucket(t: Tracker, x: u64, i: nat)
    requires i < NUM_BUCKETS && t.buckets[i] < UINT64_MAX
    ensures Record(t, x).buckets[i] == if BucketFor(x) == i then t.buckets[i] + 1 else t.buckets[i]
  {
    hide BucketFor;
  }

  lemma HoldsNothing(i: nat)
    ensures !Holds([], i)
  {
  }

  /** Values clear of the two ends of the scale. */
  ghost predicate Ordinary(ys: seq<u64>) {
    forall y :: y in ys ==> 1 <= y < 0x8000_0000_0000_0000
  }

  /** Merging ordinary latencies moves the extremes down by less than a factor of two. */
  lemma MergeExtremes(xs: seq<u64>, ys: seq<u64>)
    requires |ys| < TWO_64 && Ordinary(ys)
    ensures var m, both := Replayed(RecordAll(xs), RecordAll(ys).buckets, NUM_BUCKETS), RecordAll(xs + ys);
            && m.min <= both.min && (both.min == m.min || both.min < 2 * m.min)
            && m.max <= both.max && (both.max == m.max || both.max < 2 * m.max)
  {
    hide RecordAll, Replayed, BucketFor, Representative;
    var a, b, both := RecordAll(xs), RecordAll(ys).buckets, RecordAll(xs + ys);
    var m := Replayed(a, b, NUM_BUCKETS);
    RecordAllExtremes(xs);
    RecordAllExtremes(xs + ys);
    ReplayExtremes(a, b, NUM_BUCKETS);
    forall y | y in ys
      ensures var r := Representative(BucketFor(y)); r <= y < 2 * r && m.min <= r <= m.max
    {
      BucketUsed(ys, BucketFor(y));
      assert Holds(ys, BucketFor(y));
      ReportBounds(y);
    }
    forall i | 0 <= i < NUM_BUCKETS && b[i] > 0
      ensures Representative(i) <= both.max && both.min < 2 * Representative(i)
    {
      BucketUsed(ys, i);
      var y :| y in ys && BucketFor(y) == i;
      assert y in xs + ys;
    }
    assert forall x :: x in xs ==> x in xs + ys;
  }
}
