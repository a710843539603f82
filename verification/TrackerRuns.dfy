/**
  The tracker does what it is for: a thread left alone inside record or get_stats comes to an end, with the result that
  the same call has when there are no other threads.
 */
module TrackerRuns {
  import opened Bytes
  import opened Histogram
  import opened Latency
  import opened TrackerMachine

  lemma RunThen(threads: nat, acts: seq<Action>, a: Action)
    ensures Run(threads, acts + [a]) == Next(Run(threads, acts), a)
  {
    assert (acts + [a])[..|acts|] == acts;
  }

  // ----- recording alone

  /** record(x): the call, the bucket, both loads and exchanges, the sum and the count. */
  function RecordWhole(tid: nat, x: u64): seq<Action> {
    var step := RecordStep(tid, false);
    [CallRecord(tid, x), step, step, step, step, step, step, step]
  }

  /** The state after a step of the recording thread. */
  lemma OneStep(threads: nat, acts: seq<Action>, tid: nat, p: Recorder)
    requires var s := Run(threads, acts); tid < |s.threads| && s.threads[tid] == p && p.Recording?
    ensures var s, u := Run(threads, acts), Run(threads, acts + [RecordStep(tid, false)]);
            && u.t == Shared(s.t, p, false) && u.threads == s.threads[tid := Local(s.t, p, false)]
            && u.readers == s.readers && u.log == Noted(s.log, p, AddBucket)
  {
    hide Run, Shared, Local, Noted;
    RunThen(threads, acts, RecordStep(tid, false));
  }

  /** The four steps on minimum and maximum. */
  lemma ExtremeSteps(threads: nat, acts: seq<Action>, tid: nat, x: u64, seen: u64) returns (more: seq<Action>)
    requires var s := Run(threads, acts); tid < |s.threads| && s.threads[tid] == Recording(x, LoadMin, seen)
    ensures var step := RecordStep(tid, false); more == acts + [step] + [step] + [step] + [step]
    ensures var s, u := Run(threads, acts), Run(threads, more);
            && u.t == s.t.(min := if x < s.t.min then x else s.t.min, max := if x > s.t.max then x else s.t.max)
            && |u.threads| == |s.threads| && u.threads[tid] == Recording(x, AddSum, s.t.max)
            && (forall i :: 0 <= i < |s.threads| && i != tid ==> u.threads[i] == s.threads[i])
            && u.readers == s.readers && u.log == s.log
  {
    hide Run;
    var s := Run(threads, acts);
    more := acts;
    OneStep(threads, more, tid, Recording(x, LoadMin, seen));
    more := more + [RecordStep(tid, false)];
    OneStep(threads, more, tid, Recording(x, CasMin, s.t.min));
    more := more + [RecordStep(tid, false)];
    OneStep(threads, more, tid, Recording(x, LoadMax, s.t.min));
    more := more + [RecordStep(tid, false)];
    OneStep(threads, more, tid, Recording(x, CasMax, s.t.max));
    more := more + [RecordStep(tid, false)];
  }

  /** The call and the step on the bucket. */
  lemma FirstSteps(threads: nat, acts: seq<Action>, tid: nat, x: u64) returns (more: seq<Action>)
    requires var s := Run(threads, acts); tid < |s.threads| && s.threads[tid] == Idle
    ensures more == acts + [CallRecord(tid, x)] + [RecordStep(tid, false)]
    ensures var s, u := Run(threads, acts), Run(threads, more); var b := BucketFor(x);
            && u.t == s.t.(buckets := s.t.buckets[b := Plus(s.t.buckets[b], 1)])
            && u.threads == s.threads[tid := Recording(x, LoadMin, 0)]
            && u.readers == s.readers && u.log == s.log + [x]
  {
    hide Run, BucketFor, Plus;
    var s := Run(threads, acts);
    RunThen(threads, acts, CallRecord(tid, x));
    more := acts + [CallRecord(tid, x)];
    OneStep(threads, more, tid, Recording(x, AddBucket, 0));
    more := more + [RecordStep(tid, false)];
    assert s.threads[tid := Recording(x, AddBucket, 0)][tid := Recording(x, LoadMin, 0)]
        == s.threads[tid := Recording(x, LoadMin, 0)];
  }

  /** The steps on sum and count. */
  lemma LastSteps(threads: nat, acts: seq<Action>, tid: nat, p: Recorder) returns (more: seq<Action>)
    requires var s := Run(threads, acts); tid < |s.threads| && s.threads[tid] == p
    requires p.Recording? && p.stage == AddSum
    ensures var step := RecordStep(tid, false); more == acts + [step] + [step]
    ensures var s, u := Run(threads, acts), Run(threads, more);
            && u.t == s.t.(sum := Plus(s.t.sum, p.x), count := Plus(s.t.count, 1))
            && u.threads == s.threads[tid := Idle] && u.readers == s.readers && u.log == s.log
  {
    hide Run, Plus;
    var s := Run(threads, acts);
    OneStep(threads, acts, tid, p);
    more := acts + [RecordStep(tid, false)];
    OneStep(threads, more, tid, p.(stage := AddCount));
    more := more + [RecordStep(tid, false)];
    assert s.threads[tid := p.(stage := AddCount)][tid := Idle] == s.threads[tid := Idle];
  }

  /** A thread left alone inside record finishes, and the tracker has that one sample more. */
  lemma RecordAlone(threads: nat, acts: seq<Action>, tid: nat, x: u64)
    requires var s := Run(threads, acts); tid < |s.threads| && s.threads[tid] == Idle
    ensures var s, u := Run(threads, acts), Run(threads, acts + RecordWhole(tid, x));
            && u.t == Record(s.t, x) && u.threads == s.threads && u.readers == s.readers && u.log == s.log + [x]
  {
    hide Run, BucketFor, Plus;
    var s := Run(threads, acts);
    var more := FirstSteps(threads, acts, tid, x);
    more := ExtremeSteps(threads, more, tid, x, 0);
    var p := Run(threads, more).threads[tid];
    more := LastSteps(threads, more, tid, p);
    assert more == acts + RecordWhole(tid, x);
    assert Run(threads, more).threads == s.threads;
  }

  // ----- a recording thread in flight, left alone

  /** How many steps a record takes at most when no other thread records. */
  function StepsLeft(t: Tracker, p: Recorder): nat {
    if p.Idle? then 0
    else
      match p.stage
      case AddBucket => 9
      case LoadMin => 8
      case CasMin => if p.seen == t.min then 6 else 7
      case LoadMax => 5
      case CasMax => if p.seen == t.max then 3 else 4
      case AddSum => 2
      case AddCount => 1
  }

  lemma RecordShortens(t: Tracker, p: Recorder)
    requires p.Recording?
    ensures StepsLeft(Shared(t, p, false), Local(t, p, false)) < StepsLeft(t, p) <= 9
  {
    hide BucketFor, Plus;
  }

  function RecordSteps(tid: nat, n: nat): (acts: seq<Action>)
    ensures |acts| == n
  {
    if n == 0 then [] else [RecordStep(tid, false)] + RecordSteps(tid, n - 1)
  }

  /** Wherever a thread stands inside record, and however often its exchanges have failed, left alone it finishes within
      nine steps. */
  lemma {:induction false} RecordFinishes(threads: nat, acts: seq<Action>, tid: nat) returns (n: nat)
    requires tid < |Run(threads, acts).threads|
    ensures n <= StepsLeft(Run(threads, acts).t, Run(threads, acts).threads[tid]) <= 9
    ensures var u := Run(threads, acts + RecordSteps(tid, n)); tid < |u.threads| && u.threads[tid] == Idle
    decreases StepsLeft(Run(threads, acts).t, Run(threads, acts).threads[tid])
  {
    hide Run, StepsLeft, Shared, Local;
    var p := Run(threads, acts).threads[tid];
    if p.Idle? {
      n := 0;
      assert acts + [] == acts;
      IdleIsDone(Run(threads, acts).t);
    } else {
      RecordShortens(Run(threads, acts).t, p);
      OneStep(threads, acts, tid, p);
      n := RecordFinishes(threads, acts + [RecordStep(tid, false)], tid);
      assert acts + RecordSteps(tid, n + 1) == acts + [RecordStep(tid, false)] + RecordSteps(tid, n);
      n := n + 1;
    }
  }

  lemma IdleIsDone(t: Tracker)
    ensures StepsLeft(t, Idle) == 0
  {
  }

  // ----- a report while nobody records

  /** What a finished get_stats returns. */
  function Report(q: Reader): LatencyStats {
    if q.n == 0 then NoStats
    else
      var mean: u64 := q.total / q.n;
      LatencyStats(q.lo, q.hi, mean, q.k50.value, q.k95.value, q.k99.value, q.k999.value, q.n)
  }

  /** The four selections after i buckets of an unchanging tracker. */
  ghost predicate Selected(t: Tracker, q: Reader, i: nat)
    requires i <= NUM_BUCKETS
  {
    && q.k50.target == Target50(t.count) && q.k95.target == Target95(t.count)
    && q.k99.target == Target99(t.count) && q.k999.target == Target999(t.count)
    && Found(t.buckets, q.k50, i) && Found(t.buckets, q.k95, i)
    && Found(t.buckets, q.k99, i) && Found(t.buckets, q.k999, i)
  }

  /** Where a get_stats stands that has seen nothing but this tracker. */
  ghost predicate QuietInv(t: Tracker, q: Reader) {
    match q.pc
    case LoadCount => q == Called
    case ReadMin => q.n == t.count > 0 && q.i == 0 && q.cumul == 0 && Selected(t, q, 0) && NonePicked(q)
    case ReadMax =>
      && q.n == t.count > 0 && q.i == 0 && q.cumul == 0 && Selected(t, q, 0) && NonePicked(q)
      && q.lo == t.min
    case ReadSum =>
      && q.n == t.count > 0 && q.i == 0 && q.cumul == 0 && Selected(t, q, 0) && NonePicked(q)
      && q.lo == t.min && q.hi == t.max
    case ReadBuckets =>
      && q.n == t.count > 0 && q.i <= NUM_BUCKETS && q.cumul == Cumulative(t.buckets, q.i) % TWO_64
      && Selected(t, q, q.i) && !q.k999.done
      && q.lo == t.min && q.hi == t.max && q.total == t.sum
    case Finished => Report(q) == Stats64(t)
  }

  lemma EmptyReport(t: Tracker, q: Reader)
    requires t.count == 0 && q.n == 0
    ensures Report(q) == Stats64(t)
  {
  }

  lemma FullReport(t: Tracker, q: Reader, i: nat)
    requires q.n == t.count > 0 && q.lo == t.min && q.hi == t.max && q.total == t.sum
    requires i <= NUM_BUCKETS && Selected(t, q, i)
    requires if q.k999.done then i > 0 && First64(t.buckets, q.k999.target, 0) == i - 1 else i == NUM_BUCKETS
    ensures Report(q) == Stats64(t)
  {
    hide Found, First64, Target50, Target95, Target99, Target999, Report64;
    var last: nat := if q.k999.done then i - 1 else NUM_BUCKETS;
    FoundEnd(t.buckets, q.k50, i, last); FoundEnd(t.buckets, q.k95, i, last);
    FoundEnd(t.buckets, q.k99, i, last); FoundEnd(t.buckets, q.k999, i, last);
    LastIs(t.buckets, q.k999, i, last);
  }

  lemma QuietStart(s: State, q: Reader)
    requires q == Called
    ensures QuietInv(s.t, StatsNext(s, q))
  {
    hide Target50, Target95, Target99, Target999, Found, Stats64, Report;
    if s.t.count == 0 {
      EmptyReport(s.t, StatsNext(s, q));
    } else {
      var u := StatsNext(s, q);
      FoundStart(s.t.buckets, u.k50); FoundStart(s.t.buckets, u.k95);
      FoundStart(s.t.buckets, u.k99); FoundStart(s.t.buckets, u.k999);
    }
  }

  lemma NothingCountedYet(b: Buckets)
    ensures Cumulative(b, 0) % TWO_64 == 0
  {
  }

  lemma QuietBucket(s: State, q: Reader)
    requires QuietInv(s.t, q) && q.pc == ReadBuckets && q.i < NUM_BUCKETS
    ensures QuietInv(s.t, StatsNext(s, q))
  {
    hide Target50, Target95, Target99, Target999, Found, Stats64, Report, Cumulative, Representative, Select;
    hide Plus, First64;
    var b, i := s.t.buckets, q.i;
    OneMoreBucket(b, i, q.cumul);
    FoundStep(b, q.k50, i); FoundStep(b, q.k95, i); FoundStep(b, q.k99, i); FoundStep(b, q.k999, i);
    FoundHere(b, q.k999, i);
    var u := StatsNext(s, q);
    assert Selected(s.t, u, i + 1);
    if u.k999.done { FullReport(s.t, u, i + 1); }
  }

  lemma QuietStep(s: State, q: Reader)
    requires QuietInv(s.t, q)
    ensures QuietInv(s.t, StatsNext(s, q))
  {
    hide Selected, Stats64, Report, Cumulative;
    match q.pc
    case LoadCount => QuietStart(s, q);
    case ReadMin => SameSelected(s.t, q, StatsNext(s, q), 0);
    case ReadMax => SameSelected(s.t, q, StatsNext(s, q), 0);
    case ReadSum =>
      NothingCountedYet(s.t.buckets);
      SameSelected(s.t, q, StatsNext(s, q), 0);
    case ReadBuckets =>
      if q.i < NUM_BUCKETS {
        QuietBucket(s, q);
      } else {
        var u := StatsNext(s, q);
        SameSelected(s.t, q, u, NUM_BUCKETS);
        FullReport(s.t, u, NUM_BUCKETS);
      }
    case Finished =>
  }

  lemma SameSelected(t: Tracker, q: Reader, u: Reader, i: nat)
    requires i <= NUM_BUCKETS && Selected(t, q, i)
    requires q.k50 == u.k50 && q.k95 == u.k95 && q.k99 == u.k99 && q.k999 == u.k999
    ensures Selected(t, u, i)
  {
  }

  /** Only readers are at work. */
  ghost predicate OnlyReaders(acts: seq<Action>) {
    forall i :: 0 <= i < |acts| ==> acts[i].CallStats? || acts[i].StatsStep?
  }

  /** If no thread is inside record from the call of get_stats to its return, whatever other readers do, it reports
      what the sequential get_stats reports of the tracker, which does not change. */
  lemma {:induction false} QuietReport(threads: nat, acts: seq<Action>, r: nat, during: seq<Action>)
    requires var s := Run(threads, acts); r in s.readers ==> s.readers[r].pc == Finished
    requires OnlyReaders(during)
    ensures var s, u := Run(threads, acts), Run(threads, acts + [CallStats(r)] + during);
            && u.t == s.t && r in u.readers && QuietInv(s.t, u.readers[r])
            && (u.readers[r].pc == Finished ==> Report(u.readers[r]) == Stats64(s.t))
    decreases |during|
  {
    hide Run, QuietInv, StatsNext;
    var called := acts + [CallStats(r)];
    if during == [] {
      assert called + [] == called;
      RunThen(threads, acts, CallStats(r));
      CalledIsQuiet(Run(threads, acts).t);
    } else {
      var before, a := during[..|during| - 1], during[|during| - 1];
      QuietReport(threads, acts, r, before);
      assert called + during == (called + before) + [a];
      RunThen(threads, called + before, a);
      QuietStep(Run(threads, called + before), Run(threads, called + before).readers[r]);
      CalledIsQuiet(Run(threads, acts).t);
    }
    QuietMeans(Run(threads, acts).t, Run(threads, called + during).readers[r]);
  }

  lemma CalledIsQuiet(t: Tracker)
    ensures QuietInv(t, Called)
  {
  }

  lemma QuietMeans(t: Tracker, q: Reader)
    requires QuietInv(t, q)
    ensures q.pc == Finished ==> Report(q) == Stats64(t)
  {
  }

  function StatsSteps(r: nat, n: nat): (acts: seq<Action>)
    ensures |acts| == n && OnlyReaders(acts)
  {
    if n == 0 then [] else StatsSteps(r, n - 1) + [StatsStep(r)]
  }

  /** How many more of its steps a get_stats takes at most. */
  function Remaining(q: Reader): nat {
    match q.pc
    case LoadCount => 69
    case ReadMin => 68
    case ReadMax => 67
    case ReadSum => 66
    case ReadBuckets => if q.i < NUM_BUCKETS then 65 - q.i else 1
    case Finished => 0
  }

  lemma StepShortens(s: State, q: Reader)
    ensures Remaining(StatsNext(s, q)) < Remaining(q) || Remaining(q) == 0
    ensures Remaining(q) == 0 ==> StatsNext(s, q) == q
  {
    hide Select, Representative, Plus, Target50, Target95, Target99, Target999;
  }

  lemma {:induction false} StepsShorten(threads: nat, acts: seq<Action>, r: nat, n: nat)
    requires var s := Run(threads, acts); r in s.readers ==> s.readers[r].pc == Finished
    requires n <= 69
    ensures var u := Run(threads, acts + [CallStats(r)] + StatsSteps(r, n));
            r in u.readers && Remaining(u.readers[r]) <= 69 - n
  {
    hide Run, StatsNext, Remaining, QuietInv;
    var called := acts + [CallStats(r)];
    if n == 0 {
      assert called + [] == called;
      RunThen(threads, acts, CallStats(r));
      CalledRemains();
    } else {
      StepsShorten(threads, acts, r, n - 1);
      var before := called + StatsSteps(r, n - 1);
      QuietReport(threads, acts, r, StatsSteps(r, n - 1));
      assert called + StatsSteps(r, n) == before + [StatsStep(r)];
      RunThen(threads, before, StatsStep(r));
      var s := Run(threads, before);
      StepShortens(s, s.readers[r]);
    }
  }

  lemma CalledRemains()
    ensures Remaining(Called) == 69
  {
  }

  lemma NoneRemaining(q: Reader)
    requires Remaining(q) == 0
    ensures q.pc == Finished
  {
  }

  /** Left alone, get_stats returns, within 69 steps, the sequential report. */
  lemma StatsAlone(threads: nat, acts: seq<Action>, r: nat)
    requires var s := Run(threads, acts); r in s.readers ==> s.readers[r].pc == Finished
    ensures var s, u := Run(threads, acts), Run(threads, acts + [CallStats(r)] + StatsSteps(r, 69));
            u.t == s.t && r in u.readers && u.readers[r].pc == Finished && Report(u.readers[r]) == Stats64(s.t)
  {
    hide Run, QuietInv, Report, Remaining;
    StepsShorten(threads, acts, r, 69);
    QuietReport(threads, acts, r, StatsSteps(r, 69));
    NoneRemaining(Run(threads, acts + [CallStats(r)] + StatsSteps(r, 69)).readers[r]);
  }

  function OwnSteps(r: nat, acts: seq<Action>): (n: nat)
    ensures n <= |acts|
  {
    if acts == [] then 0
    else OwnSteps(r, acts[..|acts| - 1]) + (if acts[|acts| - 1] == StatsStep(r) then 1 else 0)
  }

  /** Whatever all other threads do, recording included, a get_stats ends within 69 of its own steps. */
  lemma {:induction false} StatsAlwaysEnds(threads: nat, acts: seq<Action>, r: nat, during: seq<Action>)
    requires r in Run(threads, acts).readers
    requires forall i :: 0 <= i < |during| ==> during[i] != CallStats(r)
    ensures var u := Run(threads, acts + during);
            && r in u.readers
            && (u.readers[r].pc == Finished || Remaining(u.readers[r]) + OwnSteps(r, during) <= 69)
            && (OwnSteps(r, during) >= 69 ==> u.readers[r].pc == Finished)
    decreases |during|
  {
    hide Run, StatsNext, Remaining;
    if during == [] {
      assert acts + [] == acts;
      AtMost69(Run(threads, acts).readers[r]);
    } else {
      var before, a := during[..|during| - 1], during[|during| - 1];
      StatsAlwaysEnds(threads, acts, r, before);
      assert acts + during == (acts + before) + [a];
      RunThen(threads, acts + before, a);
      var s := Run(threads, acts + before);
      StepShortens(s, s.readers[r]);
      ReaderOf(s, a, r);
      if Remaining(s.readers[r]) == 0 { NoneRemaining(s.readers[r]); }
      if s.readers[r].pc == Finished { FinishedStays(s, s.readers[r]); }
    }
    var q := Run(threads, acts + during).readers[r];
    if Remaining(q) == 0 { NoneRemaining(q); }
  }

  lemma ReaderOf(s: State, a: Action, r: nat)
    requires r in s.readers && a != CallStats(r)
    ensures r in Next(s, a).readers
    ensures Next(s, a).readers[r] == if a == StatsStep(r) then StatsNext(s, s.readers[r]) else s.readers[r]
  {
    hide StatsNext, Shared, Local;
  }

  lemma FinishedStays(s: State, q: Reader)
    requires q.pc == Finished
    ensures StatsNext(s, q) == q
  {
  }

  lemma AtMost69(q: Reader)
    ensures Remaining(q) <= 69
  {
  }

  /** So with no thread inside record the report is the sequential one of the samples recorded so far. */
  lemma QuiescentReport(threads: nat, acts: seq<Action>, r: nat, during: seq<Action>, xs: seq<u64>)
    requires var s := Run(threads, acts);
             && (forall i :: 0 <= i < |s.threads| ==> s.threads[i] == Idle) && multiset(xs) == multiset(s.log)
             && (r in s.readers ==> s.readers[r].pc == Finished)
    requires OnlyReaders(during)
    ensures var u := Run(threads, acts + [CallStats(r)] + during);
            r in u.readers && (u.readers[r].pc == Finished ==> Report(u.readers[r]) == Stats64(RecordAll(xs)))
  {
    hide Run, QuietInv, Report, Stats64, RecordAll;
    QuiescentIsSequential(threads, acts, xs);
    QuietReport(threads, acts, r, during);
  }
}
