/**
  The latency tracker under concurrency: any number of threads inside record and any number inside
  get_stats, every atomic access a separate step, steps interleaved arbitrarily. No reset.
 */
module TrackerMachine {
  import opened Bytes
  import opened Histogram
  import opened Latency

  /** What a recording thread does next. */
  datatype Stage = AddBucket | LoadMin | CasMin | LoadMax | CasMax | AddSum | AddCount

  /** A thread inside record(x); seen is its last value of old_min or old_max. */
  datatype Recorder = Idle | Recording(x: u64, stage: Stage, seen: u64)

  datatype ReadStage = LoadCount | ReadMin | ReadMax | ReadSum | ReadBuckets | Finished

  /** A thread inside get_stats. History: the samples logged, counted and summed when it loaded the count, and those
      summed when it loaded the sum. */
  datatype Reader = Reader(pc: ReadStage, n: u64, lo: u64, hi: u64, total: u64, i: nat, cumul: u64,
                           k50: Pick, k95: Pick, k99: Pick, k999: Pick,
                           logged: seq<u64>, counted: seq<u64>, summed: seq<u64>, atSum: seq<u64>)

  /** History: the samples in the order in which their bucket, sum and count steps happened. */
  datatype State = State(t: Tracker, threads: seq<Recorder>, readers: map<nat, Reader>,
                         log: seq<u64>, sums: seq<u64>, counts: seq<u64>)

  datatype Action =
    | CallRecord(tid: nat, x: u64)
    | RecordStep(tid: nat, spurious: bool)
    | CallStats(r: nat)
    | StatsStep(r: nat)

  function Init(threads: nat): State {
    State(Empty, AllIdle(threads), map[], [], [], [])
  }

  function AllIdle(n: nat): (s: seq<Recorder>)
    ensures |s| == n && forall i :: 0 <= i < n ==> s[i] == Idle
  {
    if n == 0 then [] else AllIdle(n - 1) + [Idle]
  }

  /** What one atomic step of record does to the shared fields. A weak compare-and-exchange may fail spuriously. */
  function Shared(t: Tracker, p: Recorder, spurious: bool): Tracker
    requires p.Recording?
  {
    match p.stage
    case AddBucket => var b := BucketFor(p.x); t.(buckets := t.buckets[b := Plus(t.buckets[b], 1)])
    case CasMin => if p.x < p.seen && t.min == p.seen && !spurious then t.(min := p.x) else t
    case CasMax => if p.x > p.seen && t.max == p.seen && !spurious then t.(max := p.x) else t
    case AddSum => t.(sum := Plus(t.sum, p.x))
    case AddCount => t.(count := Plus(t.count, 1))
    case LoadMin => t
    case LoadMax => t
  }

  /** And to the recording thread: a failed exchange reloads the expected value and tries again. */
  function Local(t: Tracker, p: Recorder, spurious: bool): Recorder
    requires p.Recording?
  {
    match p.stage
    case AddBucket => p.(stage := LoadMin)
    case LoadMin => p.(stage := CasMin, seen := t.min)
    case CasMin => if p.x < p.seen && !(t.min == p.seen && !spurious) then p.(seen := t.min) else p.(stage := LoadMax)
    case LoadMax => p.(stage := CasMax, seen := t.max)
    case CasMax => if p.x > p.seen && !(t.max == p.seen && !spurious) then p.(seen := t.max) else p.(stage := AddSum)
    case AddSum => p.(stage := AddCount)
    case AddCount => Idle
  }

  function Noted(past: seq<u64>, p: Recorder, stage: Stage): seq<u64>
    requires p.Recording?
  {
    if p.stage == stage then past + [p.x] else past
  }

  function RecordNext(s: State, tid: nat, spurious: bool): State
    requires tid < |s.threads| && s.threads[tid].Recording?
  {
    var p := s.threads[tid];
    s.(t := Shared(s.t, p, spurious), threads := s.threads[tid := Local(s.t, p, spurious)],
       log := Noted(s.log, p, AddBucket), sums := Noted(s.sums, p, AddSum), counts := Noted(s.counts, p, AddCount))
  }

  const NoPick := Pick(0, false, 0)
  const Called := Reader(LoadCount, 0, 0, 0, 0, 0, 0, NoPick, NoPick, NoPick, NoPick, [], [], [], [])

  /** One atomic load of get_stats and the local work after it. */
  function StatsNext(s: State, q: Reader): Reader {
    match q.pc
    case LoadCount =>
      var n := s.t.count;
      if n == 0 then q.(pc := Finished, n := 0, logged := s.log, counted := s.counts, summed := s.sums)
      else q.(pc := ReadMin, n := n, logged := s.log, counted := s.counts, summed := s.sums,
              k50 := Pick(Target50(n), false, 0), k95 := Pick(Target95(n), false, 0),
              k99 := Pick(Target99(n), false, 0), k999 := Pick(Target999(n), false, 0))
    case ReadMin => q.(pc := ReadMax, lo := s.t.min)
    case ReadMax => q.(pc := ReadSum, hi := s.t.max)
    case ReadSum => q.(pc := ReadBuckets, total := s.t.sum, atSum := s.sums)
    case ReadBuckets =>
      if q.i < NUM_BUCKETS then
        var cumul := Plus(q.cumul, s.t.buckets[q.i]);
        var upper := Representative(q.i);
        var k999 := Select(q.k999, cumul, upper);
        q.(cumul := cumul, i := q.i + 1, k50 := Select(q.k50, cumul, upper), k95 := Select(q.k95, cumul, upper),
           k99 := Select(q.k99, cumul, upper), k999 := k999, pc := if k999.done then Finished else ReadBuckets)
      else q.(pc := Finished)
    case Finished => q
  }

  /** One step; an action that is not possible changes nothing. */
  function Next(s: State, a: Action): State {
    match a
    case CallRecord(tid, x) =>
      if tid < |s.threads| && s.threads[tid].Idle? then s.(threads := s.threads[tid := Recording(x, AddBucket, 0)])
      else s
    case RecordStep(tid, spurious) =>
      if tid < |s.threads| && s.threads[tid].Recording? then RecordNext(s, tid, spurious) else s
    case CallStats(r) =>
      if r !in s.readers || s.readers[r].pc == Finished then s.(readers := s.readers[r := Called]) else s
    case StatsStep(r) =>
      if r in s.readers then s.(readers := s.readers[r := StatsNext(s, s.readers[r])]) else s
  }

  function Run(threads: nat, acts: seq<Action>): State {
    if acts == [] then Init(threads) else Next(Run(threads, acts[..|acts| - 1]), acts[|acts| - 1])
  }

  // ----- samples in flight

  function Rank(st: Stage): nat {
    match st
    case AddBucket => 0 case LoadMin => 1 case CasMin => 2 case LoadMax => 3
    case CasMax => 4 case AddSum => 5 case AddCount => 6
  }

  /** The sample of a thread that has done its bucket step but not yet the step of rank k. */
  function OneInFlight(p: Recorder, k: nat): multiset<u64> {
    if p.Recording? && 1 <= Rank(p.stage) <= k then multiset{p.x} else multiset{}
  }

  function InFlight(ps: seq<Recorder>, k: nat): multiset<u64> {
    if ps == [] then multiset{} else InFlight(ps[..|ps| - 1], k) + OneInFlight(ps[|ps| - 1], k)
  }

  lemma {:induction false} InFlightUpdate(ps: seq<Recorder>, i: nat, p: Recorder, k: nat)
    requires i < |ps|
    ensures InFlight(ps[i := p], k) + OneInFlight(ps[i], k) == InFlight(ps, k) + OneInFlight(p, k)
  {
    hide OneInFlight;
    var n := |ps| - 1;
    if i < n {
      var last, old_, new_ := OneInFlight(ps[n], k), OneInFlight(ps[i], k), OneInFlight(p, k);
      InFlightUpdate(ps[..n], i, p, k);
      assert ps[i := p][..n] == ps[..n][i := p];
      assert InFlight(ps[i := p], k) + old_ == (InFlight(ps[..n][i := p], k) + old_) + last;
      assert InFlight(ps, k) + new_ == (InFlight(ps[..n], k) + new_) + last;
    } else {
      assert ps[i := p][..n] == ps[..n];
      assert InFlight(ps[i := p], k) == InFlight(ps[..n], k) + OneInFlight(p, k);
    }
  }

  lemma InFlightMove(ps: seq<Recorder>, i: nat, p: Recorder, k: nat)
    requires i < |ps|
    ensures var x, y := InFlight(ps, k), InFlight(ps[i := p], k);
            && (OneInFlight(ps[i], k) == OneInFlight(p, k) ==> y == x)
            && (OneInFlight(ps[i], k) == multiset{} ==> y == x + OneInFlight(p, k))
            && (OneInFlight(p, k) == multiset{} ==> x == y + OneInFlight(ps[i], k))
  {
    hide OneInFlight, InFlight;
    InFlightUpdate(ps, i, p, k);
    var x, y, a, b := InFlight(ps, k), InFlight(ps[i := p], k), OneInFlight(ps[i], k), OneInFlight(p, k);
    assert x == (x + b) - b && y == (y + a) - a;
  }

  lemma {:induction false} NoneInFlight(ps: seq<Recorder>, k: nat)
    requires forall i :: 0 <= i < |ps| ==> ps[i] == Idle
    ensures InFlight(ps, k) == multiset{}
  {
    if ps != [] { NoneInFlight(ps[..|ps| - 1], k); }
  }

  // ----- the recorders' invariant

  /** Buckets, sum and count are those of the samples whose corresponding step is done. */
  ghost predicate Accounted(s: State) {
    && s.t.buckets == RecordAll(s.log).buckets
    && s.t.sum == RecordAll(s.sums).sum
    && s.t.count == RecordAll(s.counts).count
  }

  /** Every logged sample is past the later step or still in flight towards it. */
  ghost predicate Conserved(s: State) {
    && multiset(s.log) == multiset(s.sums) + InFlight(s.threads, 5)
    && multiset(s.log) == multiset(s.counts) + InFlight(s.threads, 6)
  }

  ghost predicate Bounded(s: State, p: Recorder) {
    p.Recording? ==>
      && (Rank(p.stage) >= 1 ==> p.x in s.log)
      && (p.stage == CasMin ==> s.t.min <= p.seen)
      && (Rank(p.stage) >= 3 ==> s.t.min <= p.x)
      && (p.stage == CasMax ==> p.seen <= s.t.max)
      && (Rank(p.stage) >= 5 ==> p.x <= s.t.max)
  }

  /** min and max are sound for every sample past their steps, and tight: each was recorded by someone. */
  ghost predicate Extremes(s: State) {
    && (forall i :: 0 <= i < |s.threads| ==> Bounded(s, s.threads[i]))
    && (forall x :: x in s.counts ==> s.t.min <= x <= s.t.max)
    && (s.t.min == UINT64_MAX || s.t.min in s.log)
    && (s.t.max == 0 || s.t.max in s.log)
  }

  lemma RecordAllOneMore(xs: seq<u64>, x: u64)
    ensures RecordAll(xs + [x]) == Record(RecordAll(xs), x)
  {
    assert (xs + [x])[..|xs + [x]| - 1] == xs;
  }

  lemma AccountedStep(s: State, tid: nat, spurious: bool)
    requires tid < |s.threads| && s.threads[tid].Recording? && Accounted(s)
    ensures Accounted(RecordNext(s, tid, spurious))
  {
    hide RecordAll, BucketFor, Plus;
    var p := s.threads[tid];
    RecordAllOneMore(s.log, p.x);
    RecordAllOneMore(s.sums, p.x);
    RecordAllOneMore(s.counts, p.x);
  }

  /** One thread moves on: its sample enters the log, leaves the flight for the later history, or stays where it is. */
  lemma FlightBalance(ps: seq<Recorder>, i: nat, p: Recorder, k: nat, x: u64,
                      log: seq<u64>, log': seq<u64>, past: seq<u64>, past': seq<u64>)
    requires i < |ps| && multiset(log) == multiset(past) + InFlight(ps, k)
    requires var a, b := OneInFlight(ps[i], k), OneInFlight(p, k);
             || (a == multiset{} && b == multiset{x} && log' == log + [x] && past' == past)
             || (a == multiset{x} && b == multiset{} && log' == log && past' == past + [x])
             || (a == b && log' == log && past' == past)
    ensures multiset(log') == multiset(past') + InFlight(ps[i := p], k)
  {
    hide OneInFlight, InFlight;
    InFlightMove(ps, i, p, k);
    assert multiset(log + [x]) == multiset(log) + multiset{x};
    assert multiset(past + [x]) == multiset(past) + multiset{x};
  }

  /** A sample takes flight with its bucket step and lands with the later one. */
  lemma FlightOf(t: Tracker, p: Recorder, spurious: bool, k: nat, landing: Stage)
    requires p.Recording? && (landing == AddSum || landing == AddCount) && k == Rank(landing)
    ensures OneInFlight(Local(t, p, spurious), k)
         == if p.stage == AddBucket then multiset{p.x} else if p.stage == landing then multiset{} else OneInFlight(p, k)
    ensures p.stage == AddBucket ==> OneInFlight(p, k) == multiset{}
    ensures p.stage == landing ==> OneInFlight(p, k) == multiset{p.x}
  {
  }

  lemma ConservedStep(s: State, tid: nat, spurious: bool)
    requires tid < |s.threads| && s.threads[tid].Recording? && Conserved(s)
    ensures Conserved(RecordNext(s, tid, spurious))
  {
    hide InFlight, OneInFlight, Shared, Local;
    var p, u := s.threads[tid], RecordNext(s, tid, spurious);
    var p' := Local(s.t, p, spurious);
    FlightOf(s.t, p, spurious, 5, AddSum);
    FlightBalance(s.threads, tid, p', 5, p.x, s.log, u.log, s.sums, u.sums);
    FlightOf(s.t, p, spurious, 6, AddCount);
    FlightBalance(s.threads, tid, p', 6, p.x, s.log, u.log, s.counts, u.counts);
  }

  lemma ExtremesStep(s: State, tid: nat, spurious: bool)
    requires tid < |s.threads| && s.threads[tid].Recording? && Extremes(s)
    ensures Extremes(RecordNext(s, tid, spurious))
  {
    hide BucketFor, Plus;
    var u := RecordNext(s, tid, spurious);
    assert Bounded(s, s.threads[tid]);
    forall i | 0 <= i < |u.threads| ensures Bounded(u, u.threads[i]) {
      assert Bounded(s, s.threads[i]);
    }
  }

  // ----- the readers' invariant

  /** One percentile selection after i buckets with running count cumul. */
  ghost predicate PickInv(k: Pick, target: nat, i: nat, cumul: nat)
    requires i <= NUM_BUCKETS
  {
    && k.target == target
    && (k.done <==> i > 0 && cumul >= target)
    && (k.done ==> k.value <= Representative(i - 1))
  }

  /** A percentile of higher rank is never set before, nor reported below, one of lower rank. */
  ghost predicate Lined(a: Pick, b: Pick) {
    b.done ==> a.done && a.value <= b.value
  }

  ghost predicate PicksInv(q: Reader, n: nat, i: nat, cumul: nat)
    requires i <= NUM_BUCKETS
  {
    && PickInv(q.k50, Rank50(n), i, cumul) && PickInv(q.k95, Rank95(n), i, cumul)
    && PickInv(q.k99, Rank99(n), i, cumul) && PickInv(q.k999, Rank999(n), i, cumul)
    && Lined(q.k50, q.k95) && Lined(q.k95, q.k99) && Lined(q.k99, q.k999)
  }

  ghost predicate AllPicked(q: Reader) {
    && q.k50.done && q.k95.done && q.k99.done && q.k999.done
    && q.k50.value <= q.k95.value <= q.k99.value <= q.k999.value
  }

  /** The value is that of a bucket which, with those below it, holds at least rank samples of the later history,
      while those below it held fewer of the earlier one. */
  ghost predicate ReportsRank(v: u64, rank: nat, before: seq<u64>, after: seq<u64>) {
    exists b ::
      && 0 <= b < NUM_BUCKETS && v == Representative(b)
      && CountBelow(after, b + 1) >= rank && (b > 0 ==> CountBelow(before, b) < rank)
  }

  ghost predicate Placed(k: Pick, logged: seq<u64>, log: seq<u64>) {
    k.done ==> ReportsRank(k.value, k.target, logged, log)
  }

  ghost predicate AllPlaced(q: Reader, log: seq<u64>) {
    && Placed(q.k50, q.logged, log) && Placed(q.k95, q.logged, log)
    && Placed(q.k99, q.logged, log) && Placed(q.k999, q.logged, log)
  }

  ghost predicate NonePicked(q: Reader) {
    !q.k50.done && !q.k95.done && !q.k99.done && !q.k999.done
  }

  /** The four ranks are those of the count loaded. */
  ghost predicate Aimed(q: Reader) {
    && q.k50.target == Rank50(q.n) && q.k95.target == Rank95(q.n)
    && q.k99.target == Rank99(q.n) && q.k999.target == Rank999(q.n)
  }

  /** Minimum and maximum were recorded by someone, or nobody had. */
  ghost predicate FromLog(q: Reader, log: seq<u64>) {
    && (q.pc == ReadMax || q.pc == ReadSum || q.pc == ReadBuckets || (q.pc == Finished && q.n > 0) ==>
          q.lo == UINT64_MAX || q.lo in log)
    && (q.pc == ReadSum || q.pc == ReadBuckets || (q.pc == Finished && q.n > 0) ==>
          q.hi == 0 || q.hi in log)
  }

  /** The sum loaded is that of a history no shorter than the one at the count load. */
  ghost predicate FromSums(q: Reader, sums: seq<u64>) {
    && q.summed <= sums
    && (q.pc == ReadBuckets || (q.pc == Finished && q.n > 0) ==>
          q.summed <= q.atSum <= sums && q.total == RecordAll(q.atSum).sum)
  }

  ghost predicate ReaderInv(s: State, q: Reader) {
    && FromLog(q, s.log) && FromSums(q, s.sums)
    && AllPlaced(q, s.log) && (q.pc == LoadCount ==> NonePicked(q)) && (q.pc != LoadCount && q.n > 0 ==> Aimed(q))
    && q.logged <= s.log && q.counted <= s.counts && |q.counted| <= |q.logged|
    && (q.pc != LoadCount ==> q.n == |q.counted|)
    && (q.pc != LoadCount && q.pc != Finished ==> q.n > 0 && q.i <= NUM_BUCKETS && PicksInv(q, q.n, q.i, q.cumul))
    && (q.pc == LoadCount || q.pc == ReadMin || q.pc == ReadMax || q.pc == ReadSum ==> q.i == 0 && q.cumul == 0)
    && (q.pc == ReadMax || q.pc == ReadSum || q.pc == ReadBuckets || (q.pc == Finished && q.n > 0) ==>
          forall x :: x in q.counted ==> q.lo <= x)
    && (q.pc == ReadSum || q.pc == ReadBuckets || (q.pc == Finished && q.n > 0) ==>
          forall x :: x in q.counted ==> x <= q.hi)
    && (q.pc == ReadBuckets ==> CountBelow(q.logged, q.i) <= q.cumul <= CountBelow(s.log, q.i))
    && (q.pc == Finished && q.n > 0 ==> AllPicked(q))
  }

  /** Few enough samples for the rank computation to stay within 64 bits. */
  ghost predicate Small(s: State) {
    |s.log| * 999 < TWO_64
  }

  ghost predicate Inv(s: State) {
    && Accounted(s) && Conserved(s) && Extremes(s)
    && (Small(s) ==> forall r :: r in s.readers ==> ReaderInv(s, s.readers[r]))
  }

  lemma SelectStep(k: Pick, target: nat, i: nat, cumul: nat, cumul': nat)
    requires i < NUM_BUCKETS && cumul <= cumul' && PickInv(k, target, i, cumul)
    ensures Select(k, cumul', Representative(i)).target == target
    ensures PickInv(Select(k, cumul', Representative(i)), target, i + 1, cumul')
  {
    hide Representative;
    if k.done { RepresentativeMonotone(i - 1, i); }
  }

  lemma LinedStep(a: Pick, b: Pick, i: nat, cumul: nat, cumul': nat)
    requires i < NUM_BUCKETS && cumul <= cumul' && a.target <= b.target
    requires PickInv(a, a.target, i, cumul) && PickInv(b, b.target, i, cumul) && Lined(a, b)
    ensures Lined(Select(a, cumul', Representative(i)), Select(b, cumul', Representative(i)))
  {
    hide Representative;
    if a.done { RepresentativeMonotone(i - 1, i); }
  }

  lemma {:induction false} CountBelowMonotone(xs: seq<u64>, i: nat)
    ensures CountBelow(xs, i) <= CountBelow(xs, i + 1)
  {
    hide BucketFor;
    if xs != [] { CountBelowMonotone(xs[..|xs| - 1], i); }
  }

  /** A longer history has at least as many samples in the next bucket, and in those before it. */
  lemma CountBelowPrefix(a: seq<u64>, b: seq<u64>, i: nat)
    requires a <= b
    ensures CountBelow(a, i) <= CountBelow(b, i)
    ensures CountBelow(a, i + 1) - CountBelow(a, i) <= CountBelow(b, i + 1) - CountBelow(b, i)
  {
    var rest := b[|a|..];
    assert b == a + rest;
    CountBelowAppend(a, rest, i);
    CountBelowAppend(a, rest, i + 1);
    CountBelowMonotone(rest, i);
  }

  lemma ReportStable(v: u64, rank: nat, before: seq<u64>, a: seq<u64>, b: seq<u64>)
    requires ReportsRank(v, rank, before, a) && a <= b
    ensures ReportsRank(v, rank, before, b)
  {
    hide CountBelow, Representative;
    var i :| 0 <= i < NUM_BUCKETS && v == Representative(i)
      && CountBelow(a, i + 1) >= rank && (i > 0 ==> CountBelow(before, i) < rank);
    CountBelowPrefix(a, b, i + 1);
  }

  lemma PlacedStable(q: Reader, a: seq<u64>, b: seq<u64>)
    requires AllPlaced(q, a) && a <= b
    ensures AllPlaced(q, b)
  {
    hide ReportsRank;
    if q.k50.done { ReportStable(q.k50.value, q.k50.target, q.logged, a, b); }
    if q.k95.done { ReportStable(q.k95.value, q.k95.target, q.logged, a, b); }
    if q.k99.done { ReportStable(q.k99.value, q.k99.target, q.logged, a, b); }
    if q.k999.done { ReportStable(q.k999.value, q.k999.target, q.logged, a, b); }
  }

  lemma PlacedStep(k: Pick, i: nat, cumul: nat, cumul': nat, logged: seq<u64>, log: seq<u64>)
    requires i < NUM_BUCKETS && PickInv(k, k.target, i, cumul) && Placed(k, logged, log)
    requires CountBelow(logged, i) <= cumul && cumul' <= CountBelow(log, i + 1)
    ensures Placed(Select(k, cumul', Representative(i)), logged, log)
  {
    hide CountBelow, Representative;
  }

  /** What a bucket load finds. */
  lemma BucketLoad(s: State, i: nat)
    requires Accounted(s) && |s.log| < TWO_64 && i < NUM_BUCKETS
    ensures s.t.buckets[i] == CountBelow(s.log, i + 1) - CountBelow(s.log, i)
    ensures CountBelow(s.log, i + 1) <= |s.log|
  {
    hide RecordAll, BucketFor, CountBelow;
    BucketsCount(s.log, i);
    BucketsCount(s.log, i + 1);
  }

  lemma ReadOneBucket(s: State, q: Reader)
    requires Accounted(s) && Small(s) && ReaderInv(s, q) && q.pc == ReadBuckets && q.i < NUM_BUCKETS
    ensures var u := StatsNext(s, q);
            && u == q.(i := u.i, cumul := u.cumul, k50 := u.k50, k95 := u.k95, k99 := u.k99, k999 := u.k999, pc := u.pc)
            && u.i == q.i + 1 && u.n == q.n && u.logged == q.logged && u.counted == q.counted
            && u.lo == q.lo && u.hi == q.hi
            && (u.pc == if u.k999.done then Finished else ReadBuckets)
            && PicksInv(u, u.n, u.i, u.cumul)
            && CountBelow(u.logged, u.i) <= u.cumul <= CountBelow(s.log, u.i)
            && AllPlaced(u, s.log) && Aimed(u)
  {
    hide RecordAll, Placed, ReportsRank, BucketFor, CountBelow, Representative, Select, PickInv, Lined;
    hide Rank50, Rank95, Rank99, Rank999;
    BucketLoad(s, q.i);
    CountBelowPrefix(q.logged, s.log, q.i);
    var c, c' := q.cumul, StatsNext(s, q).cumul;
    assert c' == c + s.t.buckets[q.i];
    PickTargets(q);
    RanksOrdered(q.n);
    PlacedStep(q.k50, q.i, c, c', q.logged, s.log); PlacedStep(q.k95, q.i, c, c', q.logged, s.log);
    PlacedStep(q.k99, q.i, c, c', q.logged, s.log); PlacedStep(q.k999, q.i, c, c', q.logged, s.log);
    SelectStep(q.k50, Rank50(q.n), q.i, c, c'); SelectStep(q.k95, Rank95(q.n), q.i, c, c');
    SelectStep(q.k99, Rank99(q.n), q.i, c, c'); SelectStep(q.k999, Rank999(q.n), q.i, c, c');
    LinedStep(q.k50, q.k95, q.i, c, c'); LinedStep(q.k95, q.k99, q.i, c, c'); LinedStep(q.k99, q.k999, q.i, c, c');
  }

  lemma PickTargets(q: Reader)
    requires q.i <= NUM_BUCKETS && PicksInv(q, q.n, q.i, q.cumul)
    ensures q.k50.target == Rank50(q.n) && q.k95.target == Rank95(q.n)
    ensures q.k99.target == Rank99(q.n) && q.k999.target == Rank999(q.n)
  {
  }

  lemma RanksOrdered(n: nat)
    ensures Rank50(n) <= Rank95(n) <= Rank99(n) <= Rank999(n) <= n
  {
  }

  lemma PicksDone(q: Reader)
    requires q.i <= NUM_BUCKETS && PicksInv(q, q.n, q.i, q.cumul)
    requires q.k999.done || (q.i == NUM_BUCKETS && q.cumul >= q.n)
    ensures AllPicked(q)
  {
    hide Representative;
    RanksOrdered(q.n);
  }

  lemma StartPicks(n: u64)
    requires n as nat * 999 < TWO_64
    ensures var q := Called.(k50 := Pick(Target50(n), false, 0), k95 := Pick(Target95(n), false, 0),
                             k99 := Pick(Target99(n), false, 0), k999 := Pick(Target999(n), false, 0));
            PicksInv(q, n, 0, 0) && Aimed(q.(n := n))
  {
    hide Target50, Target95, Target99, Target999, Rank50, Rank95, Rank99, Rank999;
    TargetsAreRanks(n);
  }

  lemma CountIs(s: State)
    requires Accounted(s) && Conserved(s) && |s.log| < TWO_64
    ensures s.t.count == |s.counts| <= |s.log|
  {
    hide RecordAll, InFlight;
    assert |multiset(s.counts)| <= |multiset(s.log)|;
    BucketsCount(s.counts, 0);
  }

  lemma ReaderAdvances(s: State, q: Reader)
    requires Accounted(s) && Conserved(s) && Extremes(s) && Small(s) && ReaderInv(s, q)
    ensures ReaderInv(s, StatsNext(s, q))
  {
    hide RecordAll, InFlight, CountBelow, Representative, Select, PicksInv, Plus, ReportsRank;
    hide Rank50, Rank95, Rank99, Rank999;
    hide Target50, Target95, Target99, Target999;
    CountIs(s);
    InPrefix(q.counted, s.counts);
    match q.pc
    case LoadCount => if s.t.count > 0 {
      StartPicks(s.t.count);
      var c := Called.(k50 := Pick(Target50(s.t.count), false, 0), k95 := Pick(Target95(s.t.count), false, 0),
                       k99 := Pick(Target99(s.t.count), false, 0), k999 := Pick(Target999(s.t.count), false, 0));
      SameReader(c, StatsNext(s, q), s.t.count, 0, 0);
    }
    case ReadMin => SameReader(q, q.(pc := ReadMax, lo := s.t.min), q.n, q.i, q.cumul);
    case ReadMax => SameReader(q, q.(pc := ReadSum, hi := s.t.max), q.n, q.i, q.cumul);
    case ReadSum =>
      SameReader(q, q.(pc := ReadBuckets, total := s.t.sum, atSum := s.sums), q.n, q.i, q.cumul);
      NothingBelow(q.logged);
      NothingBelow(s.log);
    case ReadBuckets =>
      if q.i < NUM_BUCKETS {
        ReadOneBucket(s, q);
        var u := StatsNext(s, q);
        if u.k999.done { PicksDone(u); }
      } else {
        AllCounted(q.logged);
        PicksDone(q);
      }
    case Finished =>
  }

  lemma InPrefix(a: seq<u64>, b: seq<u64>)
    requires a <= b
    ensures forall x :: x in a ==> x in b
  {
    forall x | x in a ensures x in b {
      var i :| 0 <= i < |a| && a[i] == x;
      assert b[i] == x;
    }
  }

  lemma NothingBelow(xs: seq<u64>)
    ensures CountBelow(xs, 0) == 0
  {
    CountAllOrNone(xs, 0, false);
  }

  lemma SameReader(q: Reader, u: Reader, n: nat, i: nat, cumul: nat)
    requires i <= NUM_BUCKETS && q.k50 == u.k50 && q.k95 == u.k95 && q.k99 == u.k99 && q.k999 == u.k999
    ensures PicksInv(q, n, i, cumul) == PicksInv(u, n, i, cumul)
  {
  }

  /** A reader that does not move is untouched by the recorders. */
  lemma ReaderStable(s: State, u: State, q: Reader)
    requires ReaderInv(s, q) && s.log <= u.log && s.counts <= u.counts && s.sums <= u.sums
    ensures ReaderInv(u, q)
  {
    InPrefix(s.log, u.log);
    hide PicksInv, CountBelow, AllPlaced, Aimed, RecordAll;
    PlacedStable(q, s.log, u.log);
    if q.pc == ReadBuckets { CountBelowPrefix(s.log, u.log, q.i); }
  }

  lemma HistoriesGrow(s: State, a: Action)
    ensures var u := Next(s, a); s.log <= u.log && s.counts <= u.counts && s.sums <= u.sums
  {
    hide Shared, Local, StatsNext;
  }

  lemma CallKeeps(s: State, tid: nat, x: u64)
    requires tid < |s.threads| && s.threads[tid] == Idle && Accounted(s) && Conserved(s) && Extremes(s)
    ensures var u := s.(threads := s.threads[tid := Recording(x, AddBucket, 0)]);
            Accounted(u) && Conserved(u) && Extremes(u)
  {
    hide InFlight, RecordAll;
    var p := Recording(x, AddBucket, 0);
    InFlightMove(s.threads, tid, p, 5);
    InFlightMove(s.threads, tid, p, 6);
    var u := s.(threads := s.threads[tid := p]);
    forall i | 0 <= i < |u.threads| ensures Bounded(u, u.threads[i]) {
      assert Bounded(s, s.threads[i]);
    }
  }

  lemma RecordKeeps(s: State, tid: nat, spurious: bool)
    requires tid < |s.threads| && s.threads[tid].Recording?
    requires Accounted(s) && Conserved(s) && Extremes(s)
    ensures var u := RecordNext(s, tid, spurious); Accounted(u) && Conserved(u) && Extremes(u)
  {
    hide Accounted, Conserved, Extremes, RecordNext;
    AccountedStep(s, tid, spurious);
    ConservedStep(s, tid, spurious);
    ExtremesStep(s, tid, spurious);
  }

  lemma RecordersKept(s: State, a: Action)
    requires Accounted(s) && Conserved(s) && Extremes(s)
    ensures var u := Next(s, a); Accounted(u) && Conserved(u) && Extremes(u)
  {
    match a
    case CallRecord(tid, x) =>
      hide Accounted, Conserved, Extremes;
      if tid < |s.threads| && s.threads[tid].Idle? { CallKeeps(s, tid, x); }
    case RecordStep(tid, spurious) =>
      hide Accounted, Conserved, Extremes, RecordNext;
      if tid < |s.threads| && s.threads[tid].Recording? { RecordKeeps(s, tid, spurious); }
    case CallStats(r) =>
      hide Accounted, Conserved, Extremes, RecordNext;
      SameRecorders(s, Next(s, a));
    case StatsStep(r) =>
      hide Accounted, Conserved, Extremes, RecordNext, StatsNext;
      SameRecorders(s, Next(s, a));
  }

  lemma SameRecorders(s: State, u: State)
    requires u == s.(readers := u.readers)
    requires Accounted(s) && Conserved(s) && Extremes(s)
    ensures Accounted(u) && Conserved(u) && Extremes(u)
  {
    hide RecordAll, InFlight;
    forall i | 0 <= i < |u.threads| ensures Bounded(u, u.threads[i]) {
      assert Bounded(s, s.threads[i]);
    }
  }

  lemma ReadersOf(s: State, a: Action, r: nat)
    requires r in Next(s, a).readers
    ensures var u := Next(s, a);
            || (a == StatsStep(r) && r in s.readers && u.readers[r] == StatsNext(s, s.readers[r]))
            || (r in s.readers && u.readers[r] == s.readers[r])
            || u.readers[r] == Called
  {
    hide StatsNext, Shared, Local;
  }

  lemma InvKept(s: State, a: Action)
    requires Inv(s)
    ensures Inv(Next(s, a))
  {
    hide Next, Accounted, Conserved, Extremes, StatsNext, ReaderInv;
    var u := Next(s, a);
    RecordersKept(s, a);
    HistoriesGrow(s, a);
    if Small(u) {
      forall r | r in u.readers ensures ReaderInv(u, u.readers[r]) {
        ReadersOf(s, a, r);
        if r in s.readers && u.readers[r] == s.readers[r] {
          ReaderStable(s, u, s.readers[r]);
        } else if u.readers[r] == Called {
          FreshReader(u);
        } else {
          ReaderAdvances(s, s.readers[r]);
          ReaderStable(s, u, u.readers[r]);
        }
      }
    }
  }

  lemma FreshReader(s: State)
    ensures ReaderInv(s, Called)
  {
  }

  lemma {:induction false} RunInv(threads: nat, acts: seq<Action>)
    ensures Inv(Run(threads, acts))
  {
    hide Next;
    if acts == [] {
      NoneInFlight(AllIdle(threads), 5);
      NoneInFlight(AllIdle(threads), 6);
    } else {
      RunInv(threads, acts[..|acts| - 1]);
      InvKept(Run(threads, acts[..|acts| - 1]), acts[|acts| - 1]);
    }
  }

  // ----- what holds in every run

  /** In every interleaving the buckets hold at least as many samples as the count says. */
  lemma BucketsCoverCount(threads: nat, acts: seq<Action>)
    requires |Run(threads, acts).log| < TWO_64
    ensures var t := Run(threads, acts).t; t.count <= Cumulative(t.buckets, NUM_BUCKETS)
  {
    hide Run, RecordAll, Cumulative;
    RunInv(threads, acts);
    var s := Run(threads, acts);
    CountIs(s);
    BucketsCount(s.log, NUM_BUCKETS);
    AllCounted(s.log);
  }

  /** In every interleaving a get_stats that saw a non-zero count returns all four percentiles, in order, and a minimum
      and maximum that enclose every sample counted when it started and were recorded by someone, or by nobody. The
      sum is that of the samples summed at some moment after the count was loaded. Each percentile is right for some
      moment of the call: its bucket reaches the rank in the samples logged by now, and no lower bucket did in those
      logged when the count was loaded. */
  lemma StatsComplete(threads: nat, acts: seq<Action>, r: nat)
    requires var s := Run(threads, acts);
             Small(s) && r in s.readers && s.readers[r].pc == Finished && s.readers[r].n > 0
    ensures var q, now := Run(threads, acts).readers[r], Run(threads, acts).log;
            && AllPicked(q) && q.n == |q.counted| <= |q.logged| && q.logged <= now
            && ReportsRank(q.k50.value, Rank50(q.n), q.logged, now)
            && ReportsRank(q.k95.value, Rank95(q.n), q.logged, now)
            && ReportsRank(q.k99.value, Rank99(q.n), q.logged, now)
            && ReportsRank(q.k999.value, Rank999(q.n), q.logged, now)
            && q.counted <= Run(threads, acts).counts
            && (forall x :: x in q.counted ==> q.lo <= x <= q.hi)
            && (q.lo == UINT64_MAX || q.lo in now) && (q.hi == 0 || q.hi in now)
            && q.summed <= q.atSum <= Run(threads, acts).sums && q.total == Total(q.atSum) % TWO_64
  {
    SumIsTotal(Run(threads, acts).readers[r].atSum);
    hide Total, RecordAll;
    hide Run, Accounted, Conserved, Extremes, ReportsRank, Rank50, Rank95, Rank99, Rank999;
    RunInv(threads, acts);
  }

  /** In every interleaving every counted sample lies between min and max. */
  lemma CountedWithinExtremes(threads: nat, acts: seq<Action>)
    ensures var s := Run(threads, acts); forall x :: x in s.counts ==> s.t.min <= x <= s.t.max
  {
    hide Run, Accounted, Conserved;
    RunInv(threads, acts);
  }

  // ----- at quiescence

  /** Recording commutes. */
  lemma RecordCommutes(t: Tracker, x: u64, y: u64)
    ensures Record(Record(t, x), y) == Record(Record(t, y), x)
  {
    hide BucketFor;
    var a, b := BucketFor(x), BucketFor(y);
    PlusCommutes(t.sum, x, y);
    var l, r := Record(Record(t, x), y).buckets, Record(Record(t, y), x).buckets;
    forall i | 0 <= i < NUM_BUCKETS ensures l[i] == r[i] {
    }
    assert l == r;
  }

  lemma PlusWraps(n: u64, x: u64)
    ensures Plus(n, x) as int == if n as nat + x < TWO_64 then n as int + x else n as int + x - TWO_64
  {
  }

  lemma PlusCommutes(n: u64, x: u64, y: u64)
    ensures Plus(Plus(n, x), y) == Plus(Plus(n, y), x)
  {
    PlusWraps(n, x); PlusWraps(n, y);
    PlusWraps(Plus(n, x), y); PlusWraps(Plus(n, y), x);
    hide Plus;
  }

  lemma {:induction false} RecordAllMoved(front: seq<u64>, x: u64, back: seq<u64>)
    ensures RecordAll(front + ([x] + back)) == Record(RecordAll(front + back), x)
    decreases |back|
  {
    hide Record;
    if back == [] {
      assert front + ([x] + []) == front + [x] && front + [] == front;
      RecordAllOneMore(front, x);
    } else {
      var b, y := back[..|back| - 1], back[|back| - 1];
      assert front + ([x] + back) == (front + ([x] + b)) + [y];
      assert front + back == (front + b) + [y];
      RecordAllOneMore(front + ([x] + b), y);
      RecordAllOneMore(front + b, y);
      RecordAllMoved(front, x, b);
      RecordCommutes(RecordAll(front + b), x, y);
    }
  }

  /** The order of recording leaves no trace in the tracker. */
  lemma {:induction false} RecordAllPermuted(a: seq<u64>, b: seq<u64>)
    requires multiset(a) == multiset(b)
    ensures RecordAll(a) == RecordAll(b)
    decreases |a|
  {
    hide Record;
    if a == [] {
      assert |multiset(b)| == 0;
    } else {
      var x, a' := a[|a| - 1], a[..|a| - 1];
      assert a == a' + [x];
      assert x in multiset(b);
      var front, back := TakeOut(b, x);
      assert multiset(a') == multiset(a) - multiset{x};
      assert multiset(front + back) == multiset(b) - multiset{x};
      RecordAllPermuted(a', front + back);
      RecordAllMoved(front, x, back);
    }
  }

  /** When no thread is inside record, the tracker is what recording the same samples one by one, in any order,
      gives. */
  lemma QuiescentIsSequential(threads: nat, acts: seq<Action>, xs: seq<u64>)
    requires var s := Run(threads, acts);
             (forall i :: 0 <= i < |s.threads| ==> s.threads[i] == Idle) && multiset(xs) == multiset(s.log)
    ensures Run(threads, acts).t == RecordAll(xs)
    ensures multiset(Run(threads, acts).counts) == multiset(xs)
  {
    hide Run, Record;
    RunInv(threads, acts);
    var s := Run(threads, acts);
    NoneInFlight(s.threads, 5);
    NoneInFlight(s.threads, 6);
    RecordAllPermuted(xs, s.log);
    RecordAllPermuted(xs, s.sums);
    RecordAllPermuted(xs, s.counts);
    RecordAllExtremes(s.log);
    SameElements(s.log, s.counts);
    var t := RecordAll(s.log);
    assert s.t.min == t.min && s.t.max == t.max;
  }

  lemma SameElements(a: seq<u64>, b: seq<u64>)
    requires multiset(a) == multiset(b)
    ensures forall x :: x in a <==> x in b
  {
    forall x ensures x in a <==> x in b {
      assert x in a <==> x in multiset(a);
      assert x in b <==> x in multiset(b);
    }
  }
}
