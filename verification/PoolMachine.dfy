/**
  The memory pool under concurrency: any number of threads inside push and pop, with the load of
  the head, the read of the next pointer and the compare-and-exchange as separate steps.
 */
module PoolMachine {
  import opened FreeList

  /** A thread inside push(blk): about to load the head, or about to try the exchange. The expected value is
      blk.next. */
  datatype Pusher = Pusher(blk: nat, linked: bool)

  /** A thread inside pop: about to load the head, to read head.next, to try the exchange, or returned. */
  datatype Popper = LoadHead | ReadNext(h: nat) | TryPop(h: nat, nx: int) | Popped(result: int)

  /** held counts how many callers have been handed each block and not yet released it. */
  datatype State = State(head: int, next: seq<int>, pushers: map<nat, Pusher>, poppers: map<nat, Popper>,
                         held: multiset<nat>)

  datatype Action =
    | Acquire(t: nat)
    | PopStep(t: nat, spurious: bool)
    | Release(t: nat, b: nat)
    | PushStep(t: nat, spurious: bool)

  /** The state the constructor leaves: every block free, the last on top. */
  function Init(poolSize: nat): State {
    State(poolSize - 1, seq(poolSize, i => i - 1), map[], map[], multiset{})
  }

  function Without(m: map<nat, Pusher>, t: nat): map<nat, Pusher> {
    m - {t}
  }

  /** Reload of the expected head after a failed exchange, and the loop test. */
  function Retry(head: int): Popper {
    if head < 0 then Popped(NIL) else ReadNext(head)
  }

  function PopNext(s: State, t: nat, spurious: bool): State
    requires t in s.poppers
  {
    match s.poppers[t]
    case LoadHead => s.(poppers := s.poppers[t := Retry(s.head)])
    case ReadNext(h) => if h < |s.next| then s.(poppers := s.poppers[t := TryPop(h, s.next[h])]) else s
    case TryPop(h, nx) =>
      if s.head == h && !spurious then
        s.(head := nx, poppers := s.poppers[t := Popped(h)], held := s.held + multiset{h})
      else s.(poppers := s.poppers[t := Retry(s.head)])
    case Popped(_) => s
  }

  function PushNext(s: State, t: nat, spurious: bool): State
    requires t in s.pushers
  {
    var p := s.pushers[t];
    if p.blk >= |s.next| then s
    else if p.linked && s.head == s.next[p.blk] && !spurious then s.(head := p.blk, pushers := Without(s.pushers, t))
    else s.(next := s.next[p.blk := s.head], pushers := s.pushers[t := p.(linked := true)])
  }

  /** One step. A caller releases only what it holds; an action that is not possible changes nothing. */
  function Next(s: State, a: Action): State {
    match a
    case Acquire(t) =>
      if t !in s.poppers || s.poppers[t].Popped? then s.(poppers := s.poppers[t := LoadHead]) else s
    case PopStep(t, spurious) => if t in s.poppers then PopNext(s, t, spurious) else s
    case Release(t, b) =>
      if b in s.held && t !in s.pushers then
        s.(held := s.held - multiset{b}, pushers := s.pushers[t := Pusher(b, false)])
      else s
    case PushStep(t, spurious) => if t in s.pushers then PushNext(s, t, spurious) else s
  }

  function Run(poolSize: nat, acts: seq<Action>): State {
    if acts == [] then Init(poolSize) else Next(Run(poolSize, acts[..|acts| - 1]), acts[|acts| - 1])
  }

  /** The threads inside acquire. */
  function InFlight(s: State): set<nat> {
    set t | t in s.poppers && !s.poppers[t].Popped?
  }

  /** At no moment of the run are more than k acquires in flight; releases are unrestricted. */
  ghost predicate AtMost(k: nat, poolSize: nat, acts: seq<Action>) {
    acts != [] ==> AtMost(k, poolSize, acts[..|acts| - 1]) && |InFlight(Run(poolSize, acts))| <= k
  }

  // ----- ownership

  ghost predicate InTransit(s: State, b: nat) {
    exists t :: t in s.pushers && s.pushers[t].blk == b
  }

  /** Free, held and in-transit blocks partition the pool; a popper in flight is alone and still sees a free block. */
  ghost predicate Owned(s: State, chain: seq<nat>, poolSize: nat) {
    && |s.next| == poolSize && Linked(s.next, s.head, chain) && NoDuplicates(chain)
    && (forall b :: b in chain ==> b !in s.held && !InTransit(s, b))
    && (forall b :: b in s.held ==> b < poolSize && s.held[b] == 1 && !InTransit(s, b))
    && (forall t :: t in s.pushers ==> s.pushers[t].blk < poolSize)
    && (forall t, u :: t in s.pushers && u in s.pushers && t != u ==> s.pushers[t].blk != s.pushers[u].blk)
    && (forall b :: 0 <= b < poolSize ==> b in chain || b in s.held || InTransit(s, b))
  }

  ghost predicate PopperInv(s: State, chain: seq<nat>, p: Popper) {
    match p
    case LoadHead => true
    case ReadNext(h) => h in chain
    case TryPop(h, nx) => h in chain && h < |s.next| && nx == s.next[h]
    case Popped(_) => true
  }

  ghost predicate Inv(s: State, chain: seq<nat>, poolSize: nat) {
    && Owned(s, chain, poolSize)
    && (forall t :: t in s.poppers ==> PopperInv(s, chain, s.poppers[t]))
    && (forall t, u :: t in s.poppers && u in s.poppers && t != u ==> s.poppers[t].Popped? || s.poppers[u].Popped?)
  }

  lemma ReleaseTransit(s: State, t: nat, b: nat)
    requires b in s.held && t !in s.pushers
    ensures forall c :: InTransit(Next(s, Release(t, b)), c) <==> InTransit(s, c) || c == b
  {
    var u := Next(s, Release(t, b));
    assert u.pushers[t].blk == b;
    forall c | InTransit(s, c) ensures InTransit(u, c) {
      var w :| w in s.pushers && s.pushers[w].blk == c;
      assert w in u.pushers && u.pushers[w].blk == c;
    }
  }

  /** A block is released: it leaves the held ones and is in transit. */
  lemma ReleaseKeeps(s: State, chain: seq<nat>, poolSize: nat, t: nat, b: nat)
    requires Inv(s, chain, poolSize) && b in s.held && t !in s.pushers
    ensures Inv(Next(s, Release(t, b)), chain, poolSize)
  {
    ReleaseTransit(s, t, b);
    NotInTransit(s, b);
    hide InTransit;
    assert s.held[b] == 1;
  }

  lemma NotInTransit(s: State, b: nat)
    requires !InTransit(s, b)
    ensures forall t :: t in s.pushers ==> s.pushers[t].blk != b
  {
  }

  lemma LinkTransit(s: State, t: nat, spurious: bool)
    requires t in s.pushers
    requires var p := s.pushers[t];
             p.blk < |s.next| && !(p.linked && s.head == s.next[p.blk] && !spurious)
    ensures forall c :: InTransit(PushNext(s, t, spurious), c) <==> InTransit(s, c)
  {
    var u := PushNext(s, t, spurious);
    forall c ensures InTransit(u, c) <==> InTransit(s, c) {
      if InTransit(s, c) {
        var w :| w in s.pushers && s.pushers[w].blk == c;
        assert u.pushers[w].blk == c;
      }
      if InTransit(u, c) {
        var w :| w in u.pushers && u.pushers[w].blk == c;
        assert s.pushers[w].blk == c;
      }
    }
  }

  lemma PusherTransit(s: State, t: nat)
    requires t in s.pushers
    ensures InTransit(s, s.pushers[t].blk)
  {
  }

  /** A block being pushed gets its next pointer set, first or after a failed exchange. */
  lemma LinkKeeps(s: State, chain: seq<nat>, poolSize: nat, t: nat, spurious: bool)
    requires Inv(s, chain, poolSize) && t in s.pushers
    requires var p := s.pushers[t]; !(p.linked && s.head == s.next[p.blk] && !spurious)
    ensures Inv(PushNext(s, t, spurious), chain, poolSize)
  {
    var b := s.pushers[t].blk;
    PusherTransit(s, t);
    LinkTransit(s, t, spurious);
    hide InTransit, Linked;
    assert b !in chain;
    LinkedElsewhere(s.next, s.head, chain, b, s.head);
  }

  lemma PushTransit(s: State, t: nat)
    requires t in s.pushers && s.pushers[t].blk < |s.next|
    requires s.pushers[t].linked && s.head == s.next[s.pushers[t].blk]
    requires forall u :: u in s.pushers && u != t ==> s.pushers[u].blk != s.pushers[t].blk
    ensures forall c :: InTransit(PushNext(s, t, false), c) <==> InTransit(s, c) && c != s.pushers[t].blk
  {
    var b, u := s.pushers[t].blk, PushNext(s, t, false);
    forall c ensures InTransit(u, c) <==> InTransit(s, c) && c != b {
      if InTransit(s, c) && c != b {
        var w :| w in s.pushers && s.pushers[w].blk == c;
        assert w in u.pushers && u.pushers[w].blk == c;
      }
      if InTransit(u, c) {
        var w :| w in u.pushers && u.pushers[w].blk == c;
        assert w in s.pushers && s.pushers[w].blk == c;
      }
    }
  }

  /** A successful push puts the block in front of the chain. */
  lemma PushKeeps(s: State, chain: seq<nat>, poolSize: nat, t: nat)
    requires Inv(s, chain, poolSize) && t in s.pushers
    requires var p := s.pushers[t]; p.linked && s.head == s.next[p.blk]
    ensures Inv(PushNext(s, t, false), [s.pushers[t].blk] + chain, poolSize)
  {
    var chain' := [s.pushers[t].blk] + chain;
    assert chain'[1..] == chain;
    PusherTransit(s, t);
    PushTransit(s, t);
    hide InTransit;
  }

  /** A successful pop takes the first block off the chain and hands it to the caller. */
  lemma PopKeeps(s: State, chain: seq<nat>, poolSize: nat, t: nat)
    requires Inv(s, chain, poolSize) && t in s.poppers && s.poppers[t].TryPop? && s.head == s.poppers[t].h
    ensures chain != [] && chain[0] == s.head && chain[0] !in s.held
    ensures Inv(PopNext(s, t, false), chain[1..], poolSize)
  {
    var u, h := PopNext(s, t, false), s.poppers[t].h;
    assert chain != [] && chain[0] == h;
    var rest := chain[1..];
    assert chain == [h] + rest;
    LinkedInRange(s.next, s.head, chain);
    forall c ensures InTransit(u, c) <==> InTransit(s, c) {
      if InTransit(s, c) {
        var w :| w in s.pushers && s.pushers[w].blk == c;
        assert w in u.pushers;
      }
    }
  }

  lemma RetryIsFree(s: State, chain: seq<nat>, poolSize: nat)
    requires Owned(s, chain, poolSize)
    ensures PopperInv(s, chain, Retry(s.head))
    ensures Retry(s.head) == Popped(NIL) <==> chain == []
  {
  }

  /** The local steps of a popper, and its failed exchanges, move no block. */
  lemma LocalPopKeeps(s: State, chain: seq<nat>, poolSize: nat, t: nat, spurious: bool)
    requires Inv(s, chain, poolSize) && t in s.poppers
    requires s.poppers[t].TryPop? ==> s.head != s.poppers[t].h || spurious
    ensures Inv(PopNext(s, t, spurious), chain, poolSize)
  {
    RetryIsFree(s, chain, poolSize);
    LinkedInRange(s.next, s.head, chain);
    var u := PopNext(s, t, spurious);
    SameBlocks(s, u, chain, poolSize);
  }

  lemma SameBlocks(s: State, u: State, chain: seq<nat>, poolSize: nat)
    requires Owned(s, chain, poolSize) && u == s.(poppers := u.poppers)
    ensures Owned(u, chain, poolSize)
  {
    forall b ensures InTransit(u, b) <==> InTransit(s, b) {
    }
  }

  lemma AcquireKeeps(s: State, chain: seq<nat>, poolSize: nat, t: nat)
    requires Inv(s, chain, poolSize) && |InFlight(Next(s, Acquire(t)))| <= 1
    ensures Inv(Next(s, Acquire(t)), chain, poolSize)
  {
    hide Owned;
    var u := Next(s, Acquire(t));
    if t !in s.poppers || s.poppers[t].Popped? {
      SameBlocks(s, u, chain, poolSize);
      forall v | v in s.poppers && v != t ensures s.poppers[v].Popped? {
        if !s.poppers[v].Popped? {
          assert v in InFlight(u) && t in InFlight(u);
          FewerThan(InFlight(u), {v, t});
        }
      }
    }
  }

  lemma FewerThan(whole: set<nat>, part: set<nat>)
    requires part <= whole
    ensures |part| <= |whole|
  {
    assert whole == part + (whole - part);
  }

  lemma StepKeeps(s: State, chain: seq<nat>, poolSize: nat, a: Action) returns (chain': seq<nat>)
    requires Inv(s, chain, poolSize)
    requires |InFlight(Next(s, a))| <= 1
    ensures Inv(Next(s, a), chain', poolSize)
  {
    hide Owned, Retry;
    chain' := chain;
    match a
    case Acquire(t) => AcquireKeeps(s, chain, poolSize, t);
    case PopStep(t, spurious) =>
      if t in s.poppers {
        if s.poppers[t].TryPop? && s.head == s.poppers[t].h && !spurious {
          PopKeeps(s, chain, poolSize, t);
          chain' := chain[1..];
        } else {
          LocalPopKeeps(s, chain, poolSize, t, spurious);
        }
      }
    case Release(t, b) =>
      if b in s.held && t !in s.pushers { ReleaseKeeps(s, chain, poolSize, t, b); }
    case PushStep(t, spurious) =>
      if t in s.pushers {
        var p := s.pushers[t];
        PusherInRange(s, chain, poolSize, t);
        if p.linked && s.head == s.next[p.blk] && !spurious {
          PushKeeps(s, chain, poolSize, t);
          chain' := [p.blk] + chain;
        } else {
          LinkKeeps(s, chain, poolSize, t, spurious);
        }
      }
  }

  lemma PusherInRange(s: State, chain: seq<nat>, poolSize: nat, t: nat)
    requires Owned(s, chain, poolSize) && t in s.pushers
    ensures s.pushers[t].blk < |s.next|
  {
  }

  lemma {:induction false} InitLinked(poolSize: nat, n: nat)
    requires n <= poolSize
    ensures Linked(Init(poolSize).next, n - 1, Descending(n))
  {
    if n > 0 { InitLinked(poolSize, n - 1); }
  }

  /** In every interleaving with at most one acquire in flight there is a finite, duplicate-free free chain, and
      free, held and in-transit blocks partition the pool. */
  lemma {:induction false} Ownership(poolSize: nat, acts: seq<Action>) returns (chain: seq<nat>)
    requires AtMost(1, poolSize, acts)
    ensures Inv(Run(poolSize, acts), chain, poolSize)
  {
    if acts == [] {
      chain := Descending(poolSize);
      InitLinked(poolSize, poolSize);
      forall b | 0 <= b < poolSize ensures b in chain {
        assert chain[poolSize - 1 - b] == b;
      }
    } else {
      hide Inv;
      var before := acts[..|acts| - 1];
      chain := Ownership(poolSize, before);
      chain := StepKeeps(Run(poolSize, before), chain, poolSize, acts[|acts| - 1]);
    }
  }

  /** No block is ever handed to two callers at a time, nor is a held block still free. */
  lemma NoDoubleHandout(poolSize: nat, acts: seq<Action>, b: nat)
    requires AtMost(1, poolSize, acts)
    ensures Run(poolSize, acts).held[b] <= 1
    ensures forall chain :: Linked(Run(poolSize, acts).next, Run(poolSize, acts).head, chain) && b in chain
              ==> b !in Run(poolSize, acts).held
  {
    hide Run;
    var s := Run(poolSize, acts);
    var free := Ownership(poolSize, acts);
    forall chain | Linked(s.next, s.head, chain) && b in chain ensures b !in s.held {
      LinkedUnique(s.next, s.head, chain, free);
    }
  }

  /** An acquire comes back empty only when every block is held or on its way back; with no release in flight, only
      when all are held. */
  lemma FailsOnlyWhenExhausted(poolSize: nat, acts: seq<Action>, t: nat, spurious: bool)
    requires AtMost(1, poolSize, acts)
    requires var s := Run(poolSize, acts);
             && t in s.poppers && !s.poppers[t].Popped?
             && PopNext(s, t, spurious).poppers[t] == Popped(NIL)
    ensures var s := Run(poolSize, acts);
            && (forall b :: 0 <= b < poolSize ==> b in s.held || InTransit(s, b))
            && (s.pushers == map[] ==> forall b :: 0 <= b < poolSize ==> s.held[b] == 1)
  {
    hide Run;
    var s := Run(poolSize, acts);
    var chain := Ownership(poolSize, acts);
    RetryIsFree(s, chain, poolSize);
    LinkedInRange(s.next, s.head, chain);
  }

  // ----- exactly when the pool is safe

  /** With k acquires in flight at most, no block is ever handed to two callers. */
  ghost predicate Exclusive(k: nat, poolSize: nat) {
    forall acts, b :: AtMost(k, poolSize, acts) ==> Run(poolSize, acts).held[b] <= 1
  }

  lemma {:induction false} AtMostMore(j: nat, k: nat, poolSize: nat, acts: seq<Action>)
    requires j <= k && AtMost(j, poolSize, acts)
    ensures AtMost(k, poolSize, acts)
  {
    hide Run;
    if acts != [] { AtMostMore(j, k, poolSize, acts[..|acts| - 1]); }
  }

  // ----- a pool of at most one block needs no discipline: the exchange cannot meet another successor

  /** The only block, if any, is free, held once or in transit once, and its next pointer is always null. */
  ghost predicate TinyInv(s: State) {
    && |s.next| <= 1 && (forall i :: 0 <= i < |s.next| ==> s.next[i] == NIL)
    && (s.head == NIL || (s.head == 0 && |s.next| == 1 && s.held == multiset{} && s.pushers == map[]))
    && (forall b :: b in s.held ==> b == 0 && s.held[b] == 1 && |s.next| == 1 && s.pushers == map[])
    && (forall t :: t in s.pushers ==> s.pushers[t].blk == 0 && |s.next| == 1 && s.held == multiset{})
    && (forall t, u :: t in s.pushers && u in s.pushers ==> t == u)
    && forall t :: t in s.poppers ==> TinyPopper(s.poppers[t])
  }

  ghost predicate TinyPopper(p: Popper) {
    match p
    case ReadNext(h) => h == 0
    case TryPop(h, nx) => h == 0 && nx == NIL
    case LoadHead => true
    case Popped(_) => true
  }

  lemma TinyPop(s: State, t: nat, spurious: bool)
    requires TinyInv(s) && t in s.poppers
    ensures TinyInv(PopNext(s, t, spurious))
  {
    assert TinyPopper(s.poppers[t]);
  }

  lemma TinyPush(s: State, t: nat, spurious: bool)
    requires TinyInv(s) && t in s.pushers
    ensures TinyInv(PushNext(s, t, spurious))
  {
    assert s.head == NIL;
    assert forall u :: u in s.pushers ==> u == t;
  }

  lemma TinyRelease(s: State, t: nat, b: nat)
    requires TinyInv(s) && b in s.held && t !in s.pushers
    ensures TinyInv(Next(s, Release(t, b)))
  {
    assert s.held[b] == 1;
    var held := s.held - multiset{b};
    forall c ensures c !in held {
      if c in s.held { assert s.held[c] == 1 && c == b; }
    }
    assert held == multiset{};
  }

  lemma TinyStep(s: State, a: Action)
    requires TinyInv(s)
    ensures TinyInv(Next(s, a))
  {
    hide PopNext, PushNext;
    match a
    case Acquire(t) =>
    case PopStep(t, spurious) => if t in s.poppers { TinyPop(s, t, spurious); }
    case Release(t, b) => if b in s.held && t !in s.pushers { TinyRelease(s, t, b); }
    case PushStep(t, spurious) => if t in s.pushers { TinyPush(s, t, spurious); }
  }

  lemma {:induction false} TinyPool(poolSize: nat, acts: seq<Action>)
    requires poolSize <= 1
    ensures TinyInv(Run(poolSize, acts))
  {
    hide Next;
    if acts != [] {
      TinyPool(poolSize, acts[..|acts| - 1]);
      hide TinyInv;
      TinyStep(Run(poolSize, acts[..|acts| - 1]), acts[|acts| - 1]);
    }
  }

  // ----- two acquirers on two blocks or more are too many

  /** Only the first k threads ever call acquire. */
  ghost predicate Threads(k: nat, acts: seq<Action>) {
    forall i :: 0 <= i < |acts| && acts[i].Acquire? ==> acts[i].t < k
  }

  lemma {:induction false} ThreadsAtMost(k: nat, poolSize: nat, acts: seq<Action>)
    requires Threads(k, acts)
    ensures forall t :: t in Run(poolSize, acts).poppers ==> t < k
    ensures AtMost(k, poolSize, acts)
  {
    if acts != [] {
      var before, a := acts[..|acts| - 1], acts[|acts| - 1];
      ThreadsAtMost(k, poolSize, before);
      PoppersGrow(Run(poolSize, before), a);
      BelowCount(k, InFlight(Run(poolSize, acts)));
    }
  }

  lemma PoppersGrow(s: State, a: Action)
    ensures forall t :: t in Next(s, a).poppers ==> t in s.poppers || a == Acquire(t)
  {
  }

  lemma {:induction false} BelowCount(k: nat, ts: set<nat>)
    requires forall t :: t in ts ==> t < k
    ensures |ts| <= k
  {
    if k > 0 {
      BelowCount(k - 1, ts - {k - 1});
    } else {
      assert ts == {};
    }
  }

  lemma RunThen(poolSize: nat, acts: seq<Action>, a: Action)
    ensures Run(poolSize, acts + [a]) == Next(Run(poolSize, acts), a)
  {
    assert (acts + [a])[..|acts|] == acts;
  }

  /** A step appended to a run. */
  lemma Extend(poolSize: nat, acts: seq<Action>, a: Action, k: nat) returns (more: seq<Action>)
    requires Threads(k, acts) && (a.Acquire? ==> a.t < k)
    ensures Threads(k, more) && Run(poolSize, more) == Next(Run(poolSize, acts), a)
  {
    hide Run, Next;
    more := acts + [a];
    RunThen(poolSize, acts, a);
  }

  /** Thread t reads head h and its successor, and stops before the exchange. */
  lemma PopHalf(poolSize: nat, acts: seq<Action>, k: nat, t: nat, h: nat) returns (more: seq<Action>)
    requires var s := Run(poolSize, acts); s.head == h < |s.next| && (t in s.poppers ==> s.poppers[t].Popped?)
    requires Threads(k, acts) && t < k
    ensures Threads(k, more)
    ensures var s := Run(poolSize, acts); Run(poolSize, more) == s.(poppers := s.poppers[t := TryPop(h, s.next[h])])
  {
    hide Run;
    var s := Run(poolSize, acts);
    more := Extend(poolSize, acts, Acquire(t), k);
    more := Extend(poolSize, more, PopStep(t, false), k);
    assert Run(poolSize, more) == s.(poppers := s.poppers[t := ReadNext(h)]);
    more := Extend(poolSize, more, PopStep(t, false), k);
  }

  /** The exchange of a stalled thread succeeds whenever the head is the block it read. */
  lemma PopRest(poolSize: nat, acts: seq<Action>, k: nat, t: nat, h: nat, nx: int) returns (more: seq<Action>)
    requires var s := Run(poolSize, acts); s.head == h && t in s.poppers && s.poppers[t] == TryPop(h, nx)
    requires Threads(k, acts)
    ensures Threads(k, more)
    ensures var s := Run(poolSize, acts);
            Run(poolSize, more) == s.(head := nx, poppers := s.poppers[t := Popped(h)], held := s.held + multiset{h})
  {
    hide Run;
    more := Extend(poolSize, acts, PopStep(t, false), k);
  }

  lemma SetTwice(m: map<nat, Popper>, t: nat, p: Popper, q: Popper)
    ensures m[t := p][t := q] == m[t := q]
  {
  }

  /** One thread alone: acquire block h. */
  lemma PopAlone(poolSize: nat, acts: seq<Action>, k: nat, t: nat, h: nat) returns (more: seq<Action>)
    requires var s := Run(poolSize, acts); s.head == h < |s.next| && (t in s.poppers ==> s.poppers[t].Popped?)
    requires Threads(k, acts) && t < k
    ensures Threads(k, more)
    ensures var s := Run(poolSize, acts);
            Run(poolSize, more)
              == s.(head := s.next[h], poppers := s.poppers[t := Popped(h)], held := s.held + multiset{h})
  {
    hide Run;
    var s := Run(poolSize, acts);
    more := PopHalf(poolSize, acts, k, t, h);
    more := PopRest(poolSize, more, k, t, h, s.next[h]);
    SetTwice(s.poppers, t, TryPop(h, s.next[h]), Popped(h));
  }

  /** One thread alone: an acquire from an empty pool comes back with nothing. */
  lemma PopEmptyAlone(poolSize: nat, acts: seq<Action>, k: nat, t: nat) returns (more: seq<Action>)
    requires var s := Run(poolSize, acts); s.head == NIL && (t in s.poppers ==> s.poppers[t].Popped?)
    requires Threads(k, acts) && t < k
    ensures Threads(k, more)
    ensures var s := Run(poolSize, acts); Run(poolSize, more) == s.(poppers := s.poppers[t := Popped(NIL)])
  {
    hide Run;
    var s := Run(poolSize, acts);
    more := Extend(poolSize, acts, Acquire(t), k);
    more := Extend(poolSize, more, PopStep(t, false), k);
    SetTwice(s.poppers, t, LoadHead, Popped(NIL));
  }

  /** One thread alone: release a held block b. */
  lemma PushAlone(poolSize: nat, acts: seq<Action>, k: nat, t: nat, b: nat) returns (more: seq<Action>)
    requires var s := Run(poolSize, acts); b in s.held && b < |s.next| && s.pushers == map[]
    requires Threads(k, acts)
    ensures Threads(k, more)
    ensures var s := Run(poolSize, acts);
            Run(poolSize, more) == s.(head := b, next := s.next[b := s.head], held := s.held - multiset{b})
  {
    hide Run;
    var s := Run(poolSize, acts);
    more := Extend(poolSize, acts, Release(t, b), k);
    more := Extend(poolSize, more, PushStep(t, false), k);
    var u := Run(poolSize, more);
    assert u == s.(held := s.held - multiset{b}, next := s.next[b := s.head], pushers := u.pushers);
    assert u.pushers[t] == Pusher(b, true);
    more := Extend(poolSize, more, PushStep(t, false), k);
    assert Without(u.pushers, t) == map[];
  }

  /** Where the failing run stands: thread 0 has read the top block and its successor, thread 1 is not inside acquire,
      nobody is inside release. */
  ghost predicate Stage(s: State, n: nat, held: multiset<nat>)
    requires n >= 2
  {
    && |s.next| == n && s.held == held && s.pushers == map[]
    && 0 in s.poppers && s.poppers[0] == TryPop(n - 1, n - 2)
    && (1 in s.poppers ==> s.poppers[1].Popped?)
  }

  /** Thread 0 stalls before its exchange, with nothing handed out. */
  lemma Stalled(n: nat) returns (acts: seq<Action>)
    requires n >= 2
    ensures Threads(2, acts)
    ensures var s := Run(n, acts);
            Stage(s, n, multiset{}) && s.head == n - 1 && s.next[n - 1] == n - 2
  {
    acts := [];
    NothingYet(n);
    hide Run;
    acts := PopHalf(n, acts, 2, 0, n - 1);
  }

  lemma NothingYet(n: nat)
    requires n >= 2
    ensures var s := Run(n, []);
            && s.head == n - 1 && |s.next| == n && s.next[n - 1] == n - 2
            && s.pushers == map[] && s.poppers == map[] && s.held == multiset{}
  {
  }

  /** Thread 1 takes the top block. */
  lemma OneTaken(n: nat) returns (acts: seq<Action>)
    requires n >= 2
    ensures Threads(2, acts)
    ensures var s := Run(n, acts); Stage(s, n, multiset{} + multiset{n - 1}) && s.head == n - 2
  {
    hide Run;
    acts := Stalled(n);
    acts := PopAlone(n, acts, 2, 1, n - 1);
  }

  /** And the one below it. */
  lemma BothTaken(n: nat) returns (acts: seq<Action>)
    requires n >= 2
    ensures Threads(2, acts)
    ensures Stage(Run(n, acts), n, multiset{} + multiset{n - 1} + multiset{n - 2})
  {
    hide Run;
    acts := OneTaken(n);
    acts := PopAlone(n, acts, 2, 1, n - 2);
  }

  lemma TakeBack(a: nat, b: nat)
    requires a != b
    ensures (multiset{} + multiset{a} + multiset{b}) - multiset{a} == multiset{b}
    ensures a in multiset{} + multiset{a} + multiset{b}
  {
  }

  /** Then it gives the top one back. */
  lemma Overtaken(n: nat) returns (acts: seq<Action>)
    requires n >= 2
    ensures Threads(2, acts)
    ensures var s := Run(n, acts); Stage(s, n, multiset{n - 2}) && s.head == n - 1
  {
    hide Run;
    TakeBack(n - 1, n - 2);
    acts := BothTaken(n);
    acts := PushAlone(n, acts, 2, 1, n - 1);
  }

  /** The untagged exchange succeeds on a head that has come back with another successor: the block below the top is
      held and is the head. */
  lemma StaleExchange(n: nat) returns (acts: seq<Action>)
    requires n >= 2
    ensures Threads(2, acts)
    ensures var s := Run(n, acts);
            && |s.next| == n && s.head == n - 2 && s.held == multiset{n - 2} + multiset{n - 1}
            && (1 in s.poppers ==> s.poppers[1].Popped?)
  {
    hide Run;
    acts := Overtaken(n);
    acts := PopRest(n, acts, 2, 0, n - 1, n - 2);
  }

  lemma HeldTwice(a: nat, b: nat)
    requires a != b
    ensures (multiset{a} + multiset{b} + multiset{a})[a] == 2
  {
  }

  /** So it is handed out again. */
  lemma AbaRun(n: nat) returns (acts: seq<Action>)
    requires n >= 2
    ensures Threads(2, acts) && Run(n, acts).held[n - 2] == 2
  {
    hide Run;
    HeldTwice(n - 2, n - 1);
    acts := StaleExchange(n);
    acts := PopAlone(n, acts, 2, 1, n - 2);
  }

  /** No block is ever handed to two callers if and only if at most one acquire is in flight at a time, or the pool
      has no more than one block. */
  lemma ExclusiveIff(k: nat, poolSize: nat)
    ensures Exclusive(k, poolSize) <==> k <= 1 || poolSize <= 1
  {
    hide Run;
    if k <= 1 || poolSize <= 1 {
      forall acts, b | AtMost(k, poolSize, acts) ensures Run(poolSize, acts).held[b] <= 1 {
        if k <= 1 {
          AtMostMore(k, 1, poolSize, acts);
          NoDoubleHandout(poolSize, acts, b);
        } else {
          TinyPool(poolSize, acts);
        }
      }
    } else {
      var acts := AbaRun(poolSize);
      ThreadsAtMost(2, poolSize, acts);
      AtMostMore(2, k, poolSize, acts);
      assert Run(poolSize, acts).held[poolSize - 2] > 1;
    }
  }
}
