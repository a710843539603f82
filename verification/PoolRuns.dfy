/**
  The pool does what it is for: a thread inside acquire or release that is left alone comes to an end, wherever other
  threads are stalled and however often its exchange has failed.
 */
module PoolRuns {
  import opened FreeList
  import opened PoolMachine

  /** Head and next pointers name blocks of the pool or nothing, and so does all that threads remember. */
  ghost predicate WellRanged(s: State) {
    && NIL <= s.head < |s.next|
    && (forall i :: 0 <= i < |s.next| ==> NIL <= s.next[i] < |s.next|)
    && (forall t :: t in s.pushers ==> s.pushers[t].blk < |s.next|)
    && (forall b :: b in s.held ==> b < |s.next|)
    && forall t :: t in s.poppers ==> PopperRanged(s.poppers[t], |s.next|)
  }

  ghost predicate PopperRanged(p: Popper, n: nat) {
    match p
    case LoadHead => true
    case ReadNext(h) => h < n
    case TryPop(h, nx) => h < n && NIL <= nx < n
    case Popped(_) => true
  }

  lemma PopRanged(s: State, t: nat, spurious: bool)
    requires WellRanged(s) && t in s.poppers
    ensures WellRanged(PopNext(s, t, spurious)) && |PopNext(s, t, spurious).next| == |s.next|
  {
    assert PopperRanged(s.poppers[t], |s.next|);
    var u := PopNext(s, t, spurious);
    forall v | v in u.poppers ensures PopperRanged(u.poppers[v], |u.next|) {
      if v != t { assert PopperRanged(s.poppers[v], |s.next|); }
    }
    forall b | b in u.held ensures b < |u.next| {
      if b !in s.held { assert s.poppers[t].TryPop? && b == s.poppers[t].h; }
    }
  }

  lemma PushRanged(s: State, t: nat, spurious: bool)
    requires WellRanged(s) && t in s.pushers
    ensures WellRanged(PushNext(s, t, spurious)) && |PushNext(s, t, spurious).next| == |s.next|
  {
    hide PopperRanged;
  }

  lemma ReleaseRanged(s: State, t: nat, b: nat)
    requires WellRanged(s)
    ensures WellRanged(Next(s, Release(t, b))) && |Next(s, Release(t, b)).next| == |s.next|
  {
    hide PopperRanged, PopNext, PushNext;
    forall c | c in s.held - multiset{b} ensures c in s.held {
    }
  }

  lemma RangeKept(s: State, a: Action)
    requires WellRanged(s)
    ensures WellRanged(Next(s, a)) && |Next(s, a).next| == |s.next|
  {
    match a
    case Acquire(t) =>
    case PopStep(t, spurious) =>
      hide WellRanged, PopNext;
      if t in s.poppers { PopRanged(s, t, spurious); }
    case Release(t, b) =>
      hide WellRanged;
      ReleaseRanged(s, t, b);
    case PushStep(t, spurious) =>
      hide WellRanged, PushNext;
      if t in s.pushers { PushRanged(s, t, spurious); }
  }

  lemma {:induction false} RunRanged(poolSize: nat, acts: seq<Action>)
    ensures WellRanged(Run(poolSize, acts)) && |Run(poolSize, acts).next| == poolSize
  {
    if acts != [] {
      RunRanged(poolSize, acts[..|acts| - 1]);
      hide WellRanged, Next;
      RangeKept(Run(poolSize, acts[..|acts| - 1]), acts[|acts| - 1]);
    }
  }

  // ----- release

  /** A thread inside release that is left alone puts its block on top within two steps. */
  lemma PushFinishes(poolSize: nat, acts: seq<Action>, t: nat) returns (more: seq<Action>)
    requires t in Run(poolSize, acts).pushers
    ensures more == acts + [PushStep(t, false)] || more == acts + [PushStep(t, false)] + [PushStep(t, false)]
    ensures var s, u := Run(poolSize, acts), Run(poolSize, more); var b := s.pushers[t].blk;
            && u.head == b && b < |s.next| && u.next == s.next[b := s.head]
            && t !in u.pushers && u.poppers == s.poppers && u.held == s.held
  {
    hide Run;
    var s := Run(poolSize, acts);
    RunRanged(poolSize, acts);
    RunThen(poolSize, acts, PushStep(t, false));
    more := acts + [PushStep(t, false)];
    if t in Run(poolSize, more).pushers {
      RunThen(poolSize, more, PushStep(t, false));
      more := more + [PushStep(t, false)];
    }
  }

  // ----- acquire

  function PopSteps(t: nat, n: nat): (acts: seq<Action>)
    ensures |acts| == n
  {
    if n == 0 then [] else [PopStep(t, false)] + PopSteps(t, n - 1)
  }

  /** How many steps an acquire takes at most when no one else moves. */
  function Remaining(s: State, p: Popper): nat {
    match p
    case LoadHead => 3
    case ReadNext(h) => if h == s.head then 2 else 5
    case TryPop(h, nx) => if h == s.head then 1 else 3
    case Popped(_) => 0
  }

  lemma PopShortens(s: State, t: nat)
    requires WellRanged(s) && t in s.poppers && !s.poppers[t].Popped?
    ensures var u := PopNext(s, t, false);
            t in u.poppers && Remaining(u, u.poppers[t]) < Remaining(s, s.poppers[t])
  {
    assert PopperRanged(s.poppers[t], |s.next|);
  }

  /** A thread inside acquire that is left alone returns within five steps. */
  lemma {:induction false} PopFinishes(poolSize: nat, acts: seq<Action>, t: nat) returns (n: nat)
    requires t in Run(poolSize, acts).poppers
    ensures n <= Remaining(Run(poolSize, acts), Run(poolSize, acts).poppers[t]) <= 5
    ensures var u := Run(poolSize, acts + PopSteps(t, n)); t in u.poppers && u.poppers[t].Popped?
    decreases Remaining(Run(poolSize, acts), Run(poolSize, acts).poppers[t])
  {
    hide Run;
    var s := Run(poolSize, acts);
    if s.poppers[t].Popped? {
      n := 0;
      assert acts + [] == acts;
    } else {
      RunRanged(poolSize, acts);
      RunThen(poolSize, acts, PopStep(t, false));
      PopShortens(s, t);
      hide PopNext, Remaining;
      AtMostFive(s, s.poppers[t]);
      n := PopFinishes(poolSize, acts + [PopStep(t, false)], t);
      assert acts + PopSteps(t, n + 1) == acts + [PopStep(t, false)] + PopSteps(t, n);
      n := n + 1;
    }
  }

  lemma AtMostFive(s: State, p: Popper)
    ensures Remaining(s, p) <= 5
  {
  }
}
