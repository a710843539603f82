/**
  The seqlock does what it is for: writes end and commit, and a reader left alone returns the committed state.
 */
module SeqlockRuns {
  import opened Bytes
  import opened Market
  import opened Cache
  import opened Seqlock

  /** Ending a write makes the counter one higher and commits exactly the state that is in memory. */
  lemma EndWriteCommits(strict: bool, acts: seq<Action>)
    requires var s := Run(strict, acts); s.incs % 2 == 1 && s.todo == []
    ensures var s, t := Run(strict, acts), Run(strict, acts + [EndWrite]);
            && t.incs == s.incs + 1 && t.mem == s.mem && t.readers == s.readers
            && |t.hist| == |s.hist| + 1 && t.hist[..|s.hist|] == s.hist
            && Words(t.hist[|s.hist|]) == s.mem
  {
    RunInv(strict, acts);
    RunThen(strict, acts, EndWrite);
    EndCommits(strict, Run(strict, acts));
  }

  lemma EndCommits(strict: bool, s: State)
    requires Shape(s) && MemoryInv(s) && s.incs % 2 == 1 && s.todo == []
    ensures var t := Next(strict, s, EndWrite);
            && t == s.(incs := s.incs + 1, hist := t.hist)
            && t.hist == s.hist + [s.target] && Words(s.target) == s.mem
  {
    hide Words;
    NoStore(s.mem);
  }

  function Puts(n: nat): (acts: seq<Action>)
    ensures |acts| == n
  {
    if n == 0 then [] else Puts(n - 1) + [PutField]
  }

  /** The fields one update stores to. */
  function StoreCount(u: Update): nat {
    if u.QuoteUpdate? then 6 else 4
  }

  /** One update performed whole. */
  function WriteWhole(u: Update): seq<Action> {
    [BeginWrite(u)] + Puts(StoreCount(u)) + [EndWrite]
  }

  function WriteAll(us: seq<Update>): seq<Action> {
    if us == [] then [] else WriteAll(us[..|us| - 1]) + WriteWhole(us[|us| - 1])
  }

  /** The first k outstanding stores done, one step each. */
  lemma {:induction false} PutsRun(strict: bool, acts: seq<Action>, k: nat)
    requires var s := Run(strict, acts); s.incs % 2 == 1 && k <= |s.todo| && WellFormed(s.todo)
    ensures var s, t := Run(strict, acts), Run(strict, acts + Puts(k));
            && t == s.(mem := t.mem, todo := s.todo[k..]) && |t.mem| == FIELDS && WellFormed(t.todo)
            && Performed(t.mem, t.todo) == Performed(s.mem, s.todo)
  {
    hide Run;
    if k == 0 {
      assert acts + [] == acts;
    } else {
      PutsRun(strict, acts, k - 1);
      var mid := acts + Puts(k - 1);
      assert acts + Puts(k) == mid + [PutField];
      RunThen(strict, mid, PutField);
      var s := Run(strict, acts);
      assert s.todo[k - 1..][1..] == s.todo[k..];
    }
  }

  lemma StoreCounts(s: MarketState, u: Update)
    ensures |Stores(s, u)| == StoreCount(u)
  {
  }

  lemma Begins(strict: bool, s: State, u: Update)
    requires Shape(s) && s.incs % 2 == 0
    ensures var now, t := s.hist[|s.hist| - 1], Next(strict, s, BeginWrite(u));
            && t == s.(incs := s.incs + 1, todo := Stores(now, u), target := Updated(now, u), ops := s.ops + [u])
            && WellFormed(t.todo) && Performed(Words(now), t.todo) == Words(t.target)
  {
    hide Words, Stores, Updated;
    StoresMakeUpdate(s.hist[|s.hist| - 1], u);
  }

  /** One whole update, from any state between writes. */
  lemma WriteWholeRun(strict: bool, acts: seq<Action>, u: Update)
    requires Run(strict, acts).incs % 2 == 0
    ensures var s, t := Run(strict, acts), Run(strict, acts + WriteWhole(u));
            var next := Updated(s.hist[|s.hist| - 1], u);
            && t.incs == s.incs + 2 && t.hist == s.hist + [next] && t.mem == Words(next)
            && t.todo == [] && t.readers == s.readers
  {
    hide Run, Next, Words, Stores, Updated, Performed, MemoryInv, WellFormed;
    var s := Run(strict, acts);
    RunInv(strict, acts);
    Between(s);
    Begins(strict, s, u);
    RunThen(strict, acts, BeginWrite(u));
    var begun := acts + [BeginWrite(u)];
    StoreCounts(s.hist[|s.hist| - 1], u);
    PutsRun(strict, begun, StoreCount(u));
    var stored := begun + Puts(StoreCount(u));
    var w := Run(strict, stored);
    assert w.todo == [];
    RunInv(strict, stored);
    NoStore(w.mem);
    EndCommits(strict, w);
    RunThen(strict, stored, EndWrite);
    assert acts + WriteWhole(u) == stored + [EndWrite];
  }

  lemma Between(s: State)
    requires Shape(s) && MemoryInv(s) && s.incs % 2 == 0
    ensures s.mem == Words(s.hist[|s.hist| - 1]) && s.todo == []
  {
  }

  /** The committed states are the successive results. */
  ghost predicate Results(hist: seq<MarketState>, us: seq<Update>) {
    |hist| == |us| + 1 && forall k :: 0 <= k <= |us| ==> hist[k] == Fold(us[..k])
  }

  lemma ResultsOneMore(hist: seq<MarketState>, us: seq<Update>, u: Update)
    requires Results(hist, us)
    ensures hist[|us|] == Fold(us)
    ensures Fold(us + [u]) == Updated(Fold(us), u)
    ensures Results(hist + [Updated(Fold(us), u)], us + [u])
  {
    hide Updated;
    var vs := us + [u];
    assert us[..|us|] == us && vs[..|us|] == us && vs[..|vs|] == vs;
    hide Fold;
    forall k | 0 <= k <= |vs| ensures (hist + [Updated(Fold(us), u)])[k] == Fold(vs[..k]) {
      if k < |vs| { assert vs[..k] == us[..k]; }
    }
  }

  lemma NoWrites(strict: bool)
    ensures Run(strict, WriteAll([])) == Init && Results(Init.hist, []) && Init.mem == Words(Fold([]))
  {
    var us: seq<Update> := [];
    assert us[..0] == [];
  }

  /** Updates performed whole, one after the other: the version counts them twice, and memory and the committed states
      are their successive results. */
  lemma {:induction false} WritesShow(strict: bool, us: seq<Update>)
    ensures var s := Run(strict, WriteAll(us));
            && s.incs == 2 * |us| && Version(s) == 2 * |us| % TWO_32
            && s.mem == Words(Fold(us)) && s.todo == [] && s.readers == map[]
            && Results(s.hist, us)
  {
    if us == [] {
      NoWrites(strict);
    } else {
      hide Words, Updated, Next, Run, Fold, Results, WriteWhole;
      var before, u := us[..|us| - 1], us[|us| - 1];
      WritesShow(strict, before);
      var s := Run(strict, WriteAll(before));
      assert before + [u] == us;
      ResultsOneMore(s.hist, before, u);
      WriteWholeRun(strict, WriteAll(before), u);
      ResultsSize(s.hist, before);
    }
  }

  lemma ResultsSize(hist: seq<MarketState>, us: seq<Update>)
    requires Results(hist, us)
    ensures |hist| == |us| + 1
  {
  }

  // ----- a reader left alone

  function Steps(r: nat, n: nat): (acts: seq<Action>)
    ensures |acts| == n
  {
    if n == 0 then [] else Steps(r, n - 1) + [ReaderStep(r)]
  }

  /** get_snapshot: the call, the load of v1, nine words, the load of v2, the loop test. */
  function Snapshot(r: nat): seq<Action> {
    [CallSnapshot(r)] + Steps(r, 12)
  }

  /** The reader's own steps do nothing but move it. */
  lemma {:induction false} StepsRun(strict: bool, acts: seq<Action>, r: nat, n: nat)
    requires r in Run(strict, acts).readers
    ensures var s, t := Run(strict, acts), Run(strict, acts + Steps(r, n));
            && t == s.(readers := t.readers) && t.readers.Keys == s.readers.Keys
            && forall q :: q in s.readers && q != r ==> t.readers[q] == s.readers[q]
  {
    hide Run, ReaderNext;
    if n == 0 {
      assert acts + [] == acts;
    } else {
      StepsRun(strict, acts, r, n - 1);
      var mid := acts + Steps(r, n - 1);
      RunReader(strict, mid, r);
      assert acts + Steps(r, n) == mid + [ReaderStep(r)];
    }
  }

  /** The first steps of a pass between writes: v1, then one word each. */
  lemma CopyStep(strict: bool, s: State, q: Reader)
    requires |s.mem| == FIELDS && |q.snap| == FIELDS + 1 && s.incs % 2 == 0
    requires q == Called || (q.pc == Copying && q.i <= FIELDS && q.v1 == Version(s) && q.n1 == s.incs)
    ensures var u := ReaderNext(strict, s, q);
            && u.pc == Copying && u.i == (if q == Called then 0 else q.i + 1)
            && u.v1 == Version(s) && u.n1 == s.incs
  {
    hide Load;
  }

  /** Where the reader is after n of its steps. */
  lemma {:induction false} CopySteps(strict: bool, acts: seq<Action>, r: nat, n: nat)
    requires var s := Run(strict, acts); s.incs % 2 == 0 && r in s.readers && s.readers[r] == Called
    requires 1 <= n <= FIELDS + 2
    ensures var s, t := Run(strict, acts), Run(strict, acts + Steps(r, n));
            && r in t.readers && t.incs == s.incs
            && var q := t.readers[r];
               q.pc == Copying && q.i == n - 1 && q.v1 == Version(s) && q.n1 == s.incs
  {
    hide Run, ReaderNext, Version;
    StepsRun(strict, acts, r, n - 1);
    var mid := acts + Steps(r, n - 1);
    if n == 1 { assert mid == acts; } else { CopySteps(strict, acts, r, n - 1); }
    RunReader(strict, mid, r);
    SameCount(Run(strict, acts), Run(strict, mid));
    CopyStep(strict, Run(strict, mid), Run(strict, mid).readers[r]);
    assert acts + Steps(r, n) == mid + [ReaderStep(r)];
  }

  lemma SameCount(s: State, t: State)
    requires s.incs == t.incs
    ensures Version(s) == Version(t)
  {
  }

  lemma LastSteps(strict: bool, acts: seq<Action>, r: nat)
    requires var s := Run(strict, acts); s.incs % 2 == 0 && r in s.readers && s.readers[r] == Called
    ensures var s, t := Run(strict, acts), Run(strict, acts + Steps(r, 12));
            && r in t.readers
            && var q := t.readers[r];
               q.pc == Returned && q.v1 == Version(s) && q.v2 == Version(s) && q.n1 == s.incs && q.n2 == s.incs
  {
    hide Run;
    CopySteps(strict, acts, r, 10);
    var copied := acts + Steps(r, 10);
    StepsRun(strict, acts, r, 10);
    RunReader(strict, copied, r);
    assert acts + Steps(r, 11) == copied + [ReaderStep(r)];
    var loaded := acts + Steps(r, 11);
    RunReader(strict, loaded, r);
    assert acts + Steps(r, 12) == loaded + [ReaderStep(r)];
  }

  /** Called between writes and left alone, get_snapshot returns the committed state, with its version, and changes
      nothing else. */
  lemma SnapshotAlone(strict: bool, acts: seq<Action>, r: nat)
    requires var s := Run(strict, acts);
             s.incs % 2 == 0 && (r in s.readers ==> s.readers[r].pc == Returned)
    ensures var s, t := Run(strict, acts), Run(strict, acts + Snapshot(r));
            && t == s.(readers := t.readers) && r in t.readers && t.readers[r].pc == Returned
            && s.mem == Words(s.hist[|s.hist| - 1])
            && t.readers[r].snap == [Version(s)] + s.mem
  {
    hide Run, Next, Words, MemoryInv;
    var s := Run(strict, acts);
    RunInv(strict, acts);
    Between(s);
    RunThen(strict, acts, CallSnapshot(r));
    Calls(strict, s, r);
    var called := acts + [CallSnapshot(r)];
    StepsRun(strict, called, r, 12);
    LastSteps(strict, called, r);
    assert acts + Snapshot(r) == called + Steps(r, 12);
    var t := Run(strict, acts + Snapshot(r));
    EvenExitIsCommitted(strict, acts + Snapshot(r), r);
    assert s.incs / 2 == |s.hist| - 1;
  }

  lemma Calls(strict: bool, s: State, r: nat)
    requires Shape(s) && (r in s.readers ==> s.readers[r].pc == Returned)
    ensures Next(strict, s, CallSnapshot(r)) == s.(readers := s.readers[r := Called])
  {
  }

  /** After any updates performed whole, a reader left alone returns the entry that the cache of one thread would
      show. */
  lemma SnapshotShowsWrites(strict: bool, us: seq<Update>, r: nat)
    ensures var t := Run(strict, WriteAll(us) + Snapshot(r)); var e := EntryAfter(us);
            r in t.readers && t.readers[r].pc == Returned && t.readers[r].snap == [e.version] + Words(e.fields)
  {
    hide Run, Words;
    WritesShow(strict, us);
    SnapshotAlone(strict, WriteAll(us), r);
  }

  // ----- a reader in flight, left alone

  /** How many steps a get_snapshot takes at most when the writer stands still between writes. */
  function Remaining(s: State, q: Reader): nat {
    match q.pc
    case LoadV1 => 12
    case Copying => if q.i > FIELDS + 1 then 0 else if q.v1 == Version(s) then 11 - q.i else 23 - q.i
    case Testing => if q.v1 == q.v2 && q.v1 % 2 == 0 then 1 else 13
    case Returned => 0
  }

  lemma StepShortens(strict: bool, s: State, q: Reader)
    requires Shape(s) && |q.snap| == FIELDS + 1 && q.i <= FIELDS + 1
    requires s.incs % 2 == 0 && q.pc != Returned && (q.pc == Copying ==> q.v1 % 2 == 0)
    ensures var u := ReaderNext(strict, s, q); Remaining(s, u) < Remaining(s, q) <= 23
  {
    hide Load;
  }

  lemma CopiesEven(strict: bool, acts: seq<Action>, r: nat)
    requires r in Run(strict, acts).readers
    ensures var q := Run(strict, acts).readers[r]; q.pc == Copying ==> q.v1 % 2 == 0
  {
    hide Run, MemoryInv, Plausible, Image;
    RunInv(strict, acts);
  }

  /** Wherever a get_snapshot stands when the writer pauses between writes, it returns within 23 of its own steps. */
  lemma {:induction false} SnapshotFinishes(strict: bool, acts: seq<Action>, r: nat) returns (n: nat)
    requires var s := Run(strict, acts); s.incs % 2 == 0 && r in s.readers
    ensures n <= Remaining(Run(strict, acts), Run(strict, acts).readers[r]) <= 23
    ensures var u := Run(strict, acts + Steps(r, n)); r in u.readers && u.readers[r].pc == Returned
    decreases Remaining(Run(strict, acts), Run(strict, acts).readers[r])
  {
    hide Run, ReaderNext;
    var s := Run(strict, acts);
    if s.readers[r].pc == Returned {
      n := 0;
      assert acts + [] == acts;
    } else {
      CopiesEven(strict, acts, r);
      StepShortens(strict, s, s.readers[r]);
      RunReader(strict, acts, r);
      hide Remaining;
      var next := acts + [ReaderStep(r)];
      SameVersion(s, Run(strict, next), Run(strict, next).readers[r]);
      n := SnapshotFinishes(strict, next, r);
      StepsFront(r, n);
      assert acts + ([ReaderStep(r)] + Steps(r, n)) == next + Steps(r, n);
      n := n + 1;
    }
  }

  lemma SameVersion(s: State, u: State, q: Reader)
    requires s.incs == u.incs
    ensures Remaining(s, q) == Remaining(u, q)
  {
  }

  lemma {:induction false} StepsFront(r: nat, n: nat)
    ensures Steps(r, n + 1) == [ReaderStep(r)] + Steps(r, n)
  {
    if n > 0 { StepsFront(r, n - 1); }
  }
}
