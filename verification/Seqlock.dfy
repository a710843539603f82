/**
  The seqlock of one cache entry as a step machine: a single writer that stores field by field
  between two version increments, and any number of readers that copy field by field. Steps
  interleave arbitrarily and each is atomic (sequential consistency).
 */
module Seqlock {
  import opened Bytes
  import opened Market

  /** Where a call of get_snapshot stands: about to load v1, copying, at the loop test, or returned. */
  datatype Pc = LoadV1 | Copying | Testing | Returned

  /**
    v1, v2, snap are the locals of get_snapshot; snap has the copied version in front of the
    fields, and i says how much of it the current pass has copied. The rest is history: whether
    some pass has copied at all, and how many version increments there had been when the last
    such pass loaded v1 and v2.
   */
  datatype Reader = Reader(pc: Pc, v1: u32, v2: u32, i: nat, snap: seq<u64>, copied: bool, n1: nat, n2: nat)

  /**
    incs counts the version increments, so the 32-bit version is incs modulo 2^32 and a write is
    in progress while incs is odd; todo are its outstanding stores. History: the states committed
    so far, the updates that made them, and the state the update in progress will commit.
   */
  datatype State = State(incs: nat, mem: seq<u64>, todo: seq<Store>,
                         hist: seq<MarketState>, ops: seq<Update>, target: MarketState,
                         readers: map<nat, Reader>)

  datatype Action =
    | BeginWrite(u: Update)
    | PutField
    | EndWrite
    | CallSnapshot(r: nat)
    | ReaderStep(r: nat)

  const Init := State(0, Words(Blank), [], [Blank], [], Blank, map[])

  function Version(s: State): u32 {
    s.incs % TWO_32
  }

  ghost predicate Shape(s: State) {
    && |s.mem| == FIELDS && |s.hist| == s.incs / 2 + 1
    && (forall i :: 0 <= i < |s.todo| ==> s.todo[i].field < FIELDS)
    && forall r :: r in s.readers ==> |s.readers[r].snap| == FIELDS + 1 && s.readers[r].i <= FIELDS + 1
  }

  /** The word a copy reads at position i: the version first, then the fields. */
  function Load(s: State, i: nat): u64
    requires |s.mem| == FIELDS && i <= FIELDS
  {
    if i == 0 then Version(s) else s.mem[i - 1]
  }

  /** One step of get_snapshot. With strict set, the loop test also rejects an odd v1. */
  function ReaderNext(strict: bool, s: State, q: Reader): Reader
    requires |s.mem| == FIELDS && |q.snap| == FIELDS + 1 && q.i <= FIELDS + 1
  {
    match q.pc
    case LoadV1 =>
      if Version(s) % 2 == 1 then q.(v1 := Version(s), pc := Testing)
      else q.(v1 := Version(s), pc := Copying, i := 0, copied := true, n1 := s.incs, n2 := s.incs)
    case Copying =>
      if q.i <= FIELDS then q.(snap := q.snap[q.i := Load(s, q.i)], i := q.i + 1)
      else q.(v2 := Version(s), pc := Testing, n2 := s.incs)
    case Testing =>
      if q.v1 == q.v2 && !(strict && q.v1 % 2 == 1) then q.(pc := Returned) else q.(pc := LoadV1)
    case Returned => q
  }

  const Called := Reader(LoadV1, 0, 0, 0, [0, 0, 0, 0, 0, 0, 0, 0, 0], false, 0, 0)

  /** One atomic step; an action that is not possible changes nothing. */
  ghost function Next(strict: bool, s: State, a: Action): (t: State)
    requires Shape(s)
    ensures Shape(t)
  {
    match a
    case BeginWrite(u) =>
      if s.incs % 2 == 0 then
        var now := s.hist[|s.hist| - 1];
        StoresMakeUpdate(now, u);
        s.(incs := s.incs + 1, todo := Stores(now, u), target := Updated(now, u), ops := s.ops + [u])
      else s
    case PutField =>
      if s.incs % 2 == 1 && s.todo != [] then
        s.(mem := s.mem[s.todo[0].field := s.todo[0].value], todo := s.todo[1..])
      else s
    case EndWrite =>
      if s.incs % 2 == 1 && s.todo == [] then s.(incs := s.incs + 1, hist := s.hist + [s.target])
      else s
    case CallSnapshot(r) =>
      if r !in s.readers || s.readers[r].pc == Returned then s.(readers := s.readers[r := Called])
      else s
    case ReaderStep(r) =>
      if r in s.readers then s.(readers := s.readers[r := ReaderNext(strict, s, s.readers[r])])
      else s
  }

  ghost function Run(strict: bool, acts: seq<Action>): (s: State)
    ensures Shape(s)
  {
    if acts == [] then Init else Next(strict, Run(strict, acts[..|acts| - 1]), acts[|acts| - 1])
  }

  // ----- the writer's invariant

  /** The committed states, followed by the one being written if there is one. */
  function Versions(s: State): seq<MarketState> {
    if s.incs % 2 == 1 then s.hist + [s.target] else s.hist
  }

  /** The states are the successive results of the updates, starting from the blank entry. */
  ghost predicate Folded(states: seq<MarketState>, ops: seq<Update>) {
    && |states| == |ops| + 1 && states[0] == Blank
    && forall k :: 0 <= k < |ops| ==> states[k + 1] == Updated(states[k], ops[k])
  }

  /** Between writes memory is the last committed state; during one, each field is the old or the new. */
  ghost predicate MemoryInv(s: State)
    requires Shape(s)
  {
    var now := s.hist[|s.hist| - 1];
    && Folded(Versions(s), s.ops)
    && WellFormed(s.todo)
    && (s.incs % 2 == 0 ==> s.todo == [] && s.mem == Words(now))
    && (s.incs % 2 == 1 ==>
          && Performed(s.mem, s.todo) == Words(s.target)
          && forall j :: 0 <= j < FIELDS ==> s.mem[j] == Words(now)[j] || s.mem[j] == Words(s.target)[j])
  }

  lemma PutKeepsMemory(strict: bool, s: State)
    requires Shape(s) && MemoryInv(s)
    ensures MemoryInv(Next(strict, s, PutField))
  {
    hide Words, Stores, Updated;
    if s.incs % 2 == 1 && s.todo != [] {
      var st := s.todo[0];
      PerformedAt(s.mem, s.todo, st.field);
      assert s.todo[0].value == Words(s.target)[st.field];
    }
  }

  lemma MemoryKept(strict: bool, s: State, a: Action)
    requires Shape(s) && MemoryInv(s)
    ensures MemoryInv(Next(strict, s, a))
  {
    hide Words, Stores, Updated, ReaderNext, Performed;
    match a
    case BeginWrite(u) =>
      var now := s.hist[|s.hist| - 1];
      StoresMakeUpdate(now, u);
    case PutField => PutKeepsMemory(strict, s);
    case EndWrite =>
      if s.incs % 2 == 1 && s.todo == [] {
        NoStore(s.mem);
      }
    case CallSnapshot(r) =>
    case ReaderStep(r) =>
  }

  // ----- the readers' invariant

  /** What a copy of state h looks like when the version counter stood at n. */
  function Image(h: MarketState, n: nat): (w: seq<u64>)
    ensures |w| == FIELDS + 1
  {
    [n % TWO_32] + Words(h)
  }

  /** Field j of some version between lo and hi. */
  ghost predicate FromSome(vs: seq<MarketState>, j: nat, v: u64, lo: nat, hi: nat)
    requires 1 <= j <= FIELDS
  {
    exists k :: lo <= k <= hi && k < |vs| && Words(vs[k])[j - 1] == v
  }

  /** Each of the first upto copied words is a field of some version between lo and hi. */
  ghost predicate Plausible(vs: seq<MarketState>, snap: seq<u64>, upto: nat, lo: nat, hi: nat)
    requires upto <= |snap| == FIELDS + 1
  {
    forall j :: 1 <= j < upto ==> FromSome(vs, j, snap[j], lo, hi)
  }

  /** What is known once a pass has copied everything and loaded v2. */
  ghost predicate Completed(s: State, q: Reader)
    requires Shape(s) && |q.snap| == FIELDS + 1
  {
    && q.n1 % 2 == 0 && q.n1 <= q.n2 <= s.incs && q.v2 == q.n2 % TWO_32
    && (q.n1 == q.n2 ==> q.snap == Image(s.hist[q.n1 / 2], q.n1))
    && Plausible(Versions(s), q.snap, FIELDS + 1, q.n1 / 2, (q.n2 + 1) / 2)
  }

  /** v2 and snap after the passes so far, none of which need have copied. */
  ghost predicate Carried(s: State, q: Reader)
    requires Shape(s) && |q.snap| == FIELDS + 1
  {
    if q.copied then Completed(s, q) else q.v2 == 0
  }

  ghost predicate MidCopy(s: State, q: Reader)
    requires Shape(s) && |q.snap| == FIELDS + 1
  {
    && q.copied && q.n1 % 2 == 0 && q.n1 <= s.incs && q.v1 == q.n1 % TWO_32 && q.i <= FIELDS + 1
    && (s.incs == q.n1 ==> q.snap[..q.i] == Image(s.hist[q.n1 / 2], q.n1)[..q.i])
    && Plausible(Versions(s), q.snap, q.i, q.n1 / 2, (s.incs + 1) / 2)
  }

  ghost predicate AtTest(s: State, q: Reader)
    requires Shape(s) && |q.snap| == FIELDS + 1
  {
    && Carried(s, q)
    && (q.v1 % 2 == 0 ==> q.copied && q.v1 == q.n1 % TWO_32)
  }

  ghost predicate ReaderInv(strict: bool, s: State, q: Reader)
    requires Shape(s) && |q.snap| == FIELDS + 1
  {
    match q.pc
    case LoadV1 => Carried(s, q)
    case Copying => MidCopy(s, q)
    case Testing => AtTest(s, q)
    case Returned => AtTest(s, q) && q.v1 == q.v2 && (strict ==> q.v1 % 2 == 0)
  }

  ghost predicate Inv(strict: bool, s: State) {
    && Shape(s) && MemoryInv(s)
    && forall r :: r in s.readers ==> ReaderInv(strict, s, s.readers[r])
  }

  lemma PlausibleKept(vs: seq<MarketState>, ws: seq<MarketState>, snap: seq<u64>, upto: nat, lo: nat, hi: nat, hi': nat)
    requires upto <= |snap| == FIELDS + 1 && vs <= ws && hi <= hi'
    requires Plausible(vs, snap, upto, lo, hi)
    ensures Plausible(ws, snap, upto, lo, hi')
  {
    forall j | 1 <= j < upto ensures FromSome(ws, j, snap[j], lo, hi') {
      assert FromSome(vs, j, snap[j], lo, hi);
      var k :| lo <= k <= hi && k < |vs| && Words(vs[k])[j - 1] == snap[j];
      assert ws[k] == vs[k];
    }
  }

  /** A reader that does not move is untouched by whatever the writer does. */
  lemma ReaderStable(strict: bool, s: State, t: State, q: Reader)
    requires Shape(s) && Shape(t) && |q.snap| == FIELDS + 1
    requires ReaderInv(strict, s, q)
    requires s.incs <= t.incs && s.hist <= t.hist && Versions(s) <= Versions(t)
    ensures ReaderInv(strict, t, q)
  {
    hide Words, Versions, Image;
    if q.pc == Copying {
      PlausibleKept(Versions(s), Versions(t), q.snap, q.i, q.n1 / 2, (s.incs + 1) / 2, (t.incs + 1) / 2);
    } else if q.copied {
      PlausibleKept(Versions(s), Versions(t), q.snap, FIELDS + 1, q.n1 / 2, (q.n2 + 1) / 2, (q.n2 + 1) / 2);
    }
  }

  /** Copying one more word of a state in which memory is sound. */
  lemma CopyOneWord(s: State, q: Reader)
    requires Shape(s) && MemoryInv(s) && |q.snap| == FIELDS + 1 && MidCopy(s, q) && q.i <= FIELDS
    ensures MidCopy(s, q.(snap := q.snap[q.i := Load(s, q.i)], i := q.i + 1))
  {
    hide Words, Image;
    var snap, lo, hi := q.snap[q.i := Load(s, q.i)], q.n1 / 2, (s.incs + 1) / 2;
    var vs, h := Versions(s), s.hist[|s.hist| - 1];
    forall j | 1 <= j < q.i + 1 ensures FromSome(vs, j, snap[j], lo, hi) {
      if j == q.i {
        var k := if s.mem[j - 1] == Words(h)[j - 1] then s.incs / 2 else s.incs / 2 + 1;
        assert Words(vs[k])[j - 1] == snap[j];
      } else {
        assert FromSome(vs, j, q.snap[j], lo, hi);
      }
    }
    if s.incs == q.n1 {
      ImageAt(h, q.n1, q.i);
      var im := Image(h, q.n1);
      assert snap[..q.i + 1] == q.snap[..q.i] + [snap[q.i]];
      assert im[..q.i + 1] == im[..q.i] + [im[q.i]];
    }
  }

  lemma ImageAt(h: MarketState, n: nat, i: nat)
    requires i <= FIELDS
    ensures Image(h, n)[i] == if i == 0 then n % TWO_32 else Words(h)[i - 1]
  {
  }

  lemma ReaderAdvances(strict: bool, s: State, q: Reader)
    requires Shape(s) && MemoryInv(s) && |q.snap| == FIELDS + 1 && q.i <= FIELDS + 1
    requires ReaderInv(strict, s, q)
    ensures ReaderInv(strict, s, ReaderNext(strict, s, q))
  {
    hide Words, Image, Versions, MemoryInv;
    if q.pc == Copying && q.i <= FIELDS {
      CopyOneWord(s, q);
    } else if q.pc == Copying && s.incs == q.n1 {
      var im := Image(s.hist[q.n1 / 2], q.n1);
      assert q.snap == q.snap[..q.i] && im == im[..q.i];
    }
  }

  lemma InvKept(strict: bool, s: State, a: Action)
    requires Inv(strict, s)
    ensures Inv(strict, Next(strict, s, a))
  {
    var t := Next(strict, s, a);
    MemoryKept(strict, s, a);
    hide Words, Stores, Updated, Performed, MemoryInv, Image;
    forall r | r in t.readers ensures ReaderInv(strict, t, t.readers[r]) {
      if a == ReaderStep(r) {
        ReaderAdvances(strict, s, s.readers[r]);
        ReaderStable(strict, s, t, t.readers[r]);
      } else if r in s.readers && t.readers[r] == s.readers[r] {
        ReaderStable(strict, s, t, s.readers[r]);
      }
    }
  }

  lemma {:induction false} RunInv(strict: bool, acts: seq<Action>)
    ensures Inv(strict, Run(strict, acts))
  {
    if acts != [] {
      RunInv(strict, acts[..|acts| - 1]);
      InvKept(strict, Run(strict, acts[..|acts| - 1]), acts[|acts| - 1]);
    }
  }

  // ----- what a returned snapshot is worth

  lemma RunThen(strict: bool, acts: seq<Action>, a: Action)
    ensures Run(strict, acts + [a]) == Next(strict, Run(strict, acts), a)
  {
    assert (acts + [a])[..|acts|] == acts;
  }

  lemma RunReader(strict: bool, acts: seq<Action>, r: nat)
    requires r in Run(strict, acts).readers
    ensures var s := Run(strict, acts);
            Run(strict, acts + [ReaderStep(r)]) == s.(readers := s.readers[r := ReaderNext(strict, s, s.readers[r])])
  {
    hide Run, ReaderNext;
    RunThen(strict, acts, ReaderStep(r));
  }

  lemma RunPut(acts: seq<Action>, f: nat, v: u64, rest: seq<Store>)
    requires var s := Run(false, acts); s.incs == 1 && s.todo == [Store(f, v)] + rest
    ensures var s := Run(false, acts);
            f < FIELDS && Run(false, acts + [PutField]) == s.(mem := s.mem[f := v], todo := rest)
  {
    hide Run;
    RunThen(false, acts, PutField);
    var s := Run(false, acts);
    assert s.todo[0] == Store(f, v) && s.todo[1..] == rest;
  }

  /** The snapshot is one committed state with its version, not a mix. */
  ghost predicate IsCommitted(s: State, q: Reader) {
    exists k :: 0 <= k < |s.hist| && q.snap == Image(s.hist[k], 2 * k)
  }

  /** Fewer than 2^31 updates completed between the version loads of the last copying pass. */
  ghost predicate NoWrap(q: Reader) {
    q.n2 / 2 - q.n1 / 2 < 0x8000_0000
  }

  /** An exit on an even v1 returns the state that was committed when v1 was loaded, in every interleaving. */
  lemma EvenExitIsCommitted(strict: bool, acts: seq<Action>, r: nat)
    requires var s := Run(strict, acts);
             && r in s.readers && s.readers[r].pc == Returned
             && s.readers[r].v1 % 2 == 0 && NoWrap(s.readers[r])
    ensures var s := Run(strict, acts); var q := s.readers[r];
            && q.n1 == q.n2 <= s.incs && q.v1 == q.n1 % TWO_32
            && q.snap == Image(s.hist[q.n1 / 2], q.n1) && IsCommitted(s, q)
            && Folded(Versions(s), s.ops)
  {
    hide Next, Image, MemoryInv;
    RunInv(strict, acts);
    var s := Run(strict, acts);
    var q := s.readers[r];
    assert q.n1 == q.n2;
    assert 2 * (q.n1 / 2) == q.n1;
    WriterFolds(s);
  }

  lemma WriterFolds(s: State)
    requires Shape(s) && MemoryInv(s)
    ensures Folded(Versions(s), s.ops)
  {
  }

  /** At the loop test: an even v1 leaves exactly when no increment happened since (modulo 2^32); an odd v1
      leaves exactly when the last copying pass ended on that same odd version, and never under the strict test. */
  lemma ExitCharacterisation(strict: bool, acts: seq<Action>, r: nat)
    requires r in Run(strict, acts).readers && Run(strict, acts).readers[r].pc == Testing
    ensures var q := Run(strict, acts).readers[r];
            var leaves := Run(strict, acts + [ReaderStep(r)]).readers[r].pc == Returned;
            && (q.v1 % 2 == 0 ==> (leaves <==> q.n1 % TWO_32 == q.n2 % TWO_32))
            && (q.v1 % 2 == 1 ==> (leaves <==> !strict && q.copied && q.n2 % TWO_32 == q.v1))
  {
    hide Run, MemoryInv, Plausible, Versions, Image, Words;
    RunInv(strict, acts);
    RunReader(strict, acts, r);
  }

  lemma OddReturn(strict: bool, s: State, q: Reader)
    requires Shape(s) && |q.snap| == FIELDS + 1 && ReaderInv(strict, s, q)
    requires q.pc == Returned && q.v1 % 2 == 1
    ensures !strict && q.copied && q.n1 < q.n2 && q.n2 % 2 == 1 && q.v2 == q.v1 == q.n2 % TWO_32
    ensures Plausible(Versions(s), q.snap, FIELDS + 1, q.n1 / 2, (q.n2 + 1) / 2)
  {
    hide Plausible, Versions, Image, Words, Shape;
    assert q.copied;
    assert Completed(s, q);
  }

  /** What an exit on an odd v1 returns: a copy that a write overtook, each of its fields from some version in
      between. */
  lemma OddExit(strict: bool, acts: seq<Action>, r: nat)
    requires var s := Run(strict, acts); r in s.readers && s.readers[r].pc == Returned && s.readers[r].v1 % 2 == 1
    ensures var s := Run(strict, acts); var q := s.readers[r];
            && !strict && q.copied && q.n1 < q.n2 && q.n2 % 2 == 1 && q.v2 == q.v1 == q.n2 % TWO_32
            && Plausible(Versions(s), q.snap, FIELDS + 1, q.n1 / 2, (q.n2 + 1) / 2)
            && Folded(Versions(s), s.ops)
  {
    hide Run, MemoryInv, Plausible, Versions, Folded, ReaderInv;
    RunInv(strict, acts);
    WriterFolds(Run(strict, acts));
    OddReturn(strict, Run(strict, acts), Run(strict, acts).readers[r]);
  }

  /** The meant guarantee: no returned snapshot mixes two updates. */
  ghost predicate Guarantee(strict: bool) {
    forall acts, r :: var s := Run(strict, acts);
      r in s.readers && s.readers[r].pc == Returned && NoWrap(s.readers[r]) ==> IsCommitted(s, s.readers[r])
  }

  const Rise := BidUpdate(1, 1, 1)

  /** A reader that has copied the version and the bid price of the blank entry. */
  lemma HalfCopied() returns (acts: seq<Action>)
    ensures Run(false, acts) == Init.(readers := map[0 := Called.(pc := Copying, copied := true, i := 2)])
  {
    acts := [CallSnapshot(0)];
    assert acts[..0] == [];
    assert Run(false, acts) == Init.(readers := map[0 := Called]);
    hide Run, Next;
    RunReader(false, acts, 0);
    acts := acts + [ReaderStep(0)];
    assert Run(false, acts) == Init.(readers := map[0 := Called.(pc := Copying, copied := true)]);
    RunReader(false, acts, 0);
    acts := acts + [ReaderStep(0)];
    assert Called.snap[0 := 0] == Called.snap;
    assert Run(false, acts) == Init.(readers := map[0 := Called.(pc := Copying, copied := true, i := 1)]);
    RunReader(false, acts, 0);
    acts := acts + [ReaderStep(0)];
    assert Called.snap[1 := 0] == Called.snap;
  }

  /** The writer then performs all stores of one update without closing it. */
  lemma Overtaken() returns (acts: seq<Action>)
    ensures var s := Run(false, acts);
            && s.incs == 1 && s.mem[2] == 1 && s.hist == [Blank] && s.target == Updated(Blank, Rise)
            && s.readers == map[0 := Called.(pc := Copying, copied := true, i := 2)]
  {
    acts := HalfCopied();
    hide Run;
    RunThen(false, acts, BeginWrite(Rise));
    acts := acts + [BeginWrite(Rise)];
    hide Next, Updated, Words;
    RunPut(acts, 0, 1, [Store(2, 1), Store(6, 1), Store(7, 1)]);
    acts := acts + [PutField];
    RunPut(acts, 2, 1, [Store(6, 1), Store(7, 1)]);
    acts := acts + [PutField];
    RunPut(acts, 6, 1, [Store(7, 1)]);
    acts := acts + [PutField];
    RunPut(acts, 7, 1, []);
    acts := acts + [PutField];
  }

  /** With the writer standing still, a copying reader takes over the remaining words. */
  lemma {:induction false} CopyOn(acts: seq<Action>, i: nat) returns (more: seq<Action>)
    requires i <= FIELDS + 1
    requires var s := Run(false, acts); 0 in s.readers && s.readers[0].pc == Copying && s.readers[0].i == i
    ensures var s := Run(false, acts); var q := s.readers[0]; var t := Run(false, more);
            && t == s.(readers := t.readers) && 0 in t.readers
            && t.readers[0] == q.(i := FIELDS + 1, snap := t.readers[0].snap)
            && |t.readers[0].snap| == FIELDS + 1
            && forall j :: 0 <= j <= FIELDS ==> t.readers[0].snap[j] == if j < i then q.snap[j] else Load(s, j)
    decreases FIELDS + 1 - i
  {
    if i == FIELDS + 1 {
      more := acts;
    } else {
      hide Run;
      RunReader(false, acts, 0);
      more := CopyOn(acts + [ReaderStep(0)], i + 1);
    }
  }

  /** From the end of a copy that a write has overtaken: v2 is odd, the pass is repeated, and the odd v1 then equals
      v2. */
  lemma LeaveOdd(acts: seq<Action>) returns (more: seq<Action>)
    requires var s := Run(false, acts);
             && s.incs == 1 && 0 in s.readers && s.readers[0].pc == Copying && s.readers[0].i == FIELDS + 1
             && s.readers[0].v1 == 0 && s.readers[0].n1 == 0
    ensures var s := Run(false, acts); var t := Run(false, more);
            && t == s.(readers := t.readers) && 0 in t.readers
            && t.readers[0] == s.readers[0].(pc := Returned, v1 := 1, v2 := 1, n2 := 1)
  {
    hide Run;
    var q := Run(false, acts).readers[0];
    RunReader(false, acts, 0);
    more := acts + [ReaderStep(0)];
    assert Run(false, more).readers[0] == q.(v2 := 1, pc := Testing, n2 := 1);
    RunReader(false, more, 0);
    more := more + [ReaderStep(0)];
    assert Run(false, more).readers[0] == q.(v2 := 1, pc := LoadV1, n2 := 1);
    RunReader(false, more, 0);
    more := more + [ReaderStep(0)];
    assert Run(false, more).readers[0] == q.(v2 := 1, v1 := 1, pc := Testing, n2 := 1);
    RunReader(false, more, 0);
    more := more + [ReaderStep(0)];
  }

  /** The loop as written returns a torn copy: blank bid price, new bid quantity. */
  lemma TornRun() returns (acts: seq<Action>)
    ensures var s := Run(false, acts);
            && 0 in s.readers && s.readers[0].pc == Returned && NoWrap(s.readers[0])
            && s.readers[0].snap[1] == 0 && s.readers[0].snap[3] == 1
            && s.hist == [Blank] && s.target == Updated(Blank, Rise)
            && !IsCommitted(s, s.readers[0])
  {
    acts := Overtaken();
    acts := CopyOn(acts, 2);
    hide Run, Image, Updated;
    acts := LeaveOdd(acts);
    ImageAt(Blank, 0, 3);
  }

  /** The guarantee holds on all runs if and only if the loop test also rejects an odd v1. */
  lemma GuaranteeIffStrict(strict: bool)
    ensures Guarantee(strict) <==> strict
  {
    if strict {
      forall acts, r | var s := Run(strict, acts);
          r in s.readers && s.readers[r].pc == Returned && NoWrap(s.readers[r])
        ensures IsCommitted(Run(strict, acts), Run(strict, acts).readers[r])
      {
        RunInv(strict, acts);
        EvenExitIsCommitted(strict, acts, r);
      }
    } else {
      var acts := TornRun();
      assert !IsCommitted(Run(false, acts), Run(false, acts).readers[0]);
    }
  }
}
