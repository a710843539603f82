/**
  The free list of the memory pool. Blocks are numbered by their place in the storage array and
  NIL stands for the null pointer.
 */
module FreeList {

  const NIL: int := -1

  /** The chain from head through next visits exactly these blocks and then ends. */
  ghost predicate Linked(next: seq<int>, head: int, chain: seq<nat>)
    decreases |chain|
  {
    if chain == [] then head == NIL
    else head == chain[0] && chain[0] < |next| && Linked(next, next[chain[0]], chain[1..])
  }

  ghost predicate NoDuplicates(chain: seq<nat>) {
    forall i, j :: 0 <= i < j < |chain| ==> chain[i] != chain[j]
  }

  /** The blocks n-1 down to 0. */
  function Descending(n: nat): (s: seq<nat>)
    ensures |s| == n && forall i :: 0 <= i < n ==> s[i] == n - 1 - i
  {
    if n == 0 then [] else [n - 1] + Descending(n - 1)
  }

  /** Storing into the next field of a block outside the chain does not disturb the chain. */
  lemma {:induction false} LinkedElsewhere(next: seq<int>, head: int, chain: seq<nat>, b: nat, v: int)
    requires Linked(next, head, chain) && b < |next| && b !in chain
    ensures Linked(next[b := v], head, chain)
    decreases |chain|
  {
    if chain != [] { LinkedElsewhere(next, next[chain[0]], chain[1..], b, v); }
  }

  lemma {:induction false} LinkedInRange(next: seq<int>, head: int, chain: seq<nat>)
    requires Linked(next, head, chain)
    ensures forall i :: 0 <= i < |chain| ==> chain[i] < |next|
    decreases |chain|
  {
    if chain != [] { LinkedInRange(next, next[chain[0]], chain[1..]); }
  }

  /** There is only one chain from a head. */
  lemma {:induction false} LinkedUnique(next: seq<int>, head: int, a: seq<nat>, b: seq<nat>)
    requires Linked(next, head, a) && Linked(next, head, b)
    ensures a == b
    decreases |a|
  {
    if a != [] && b != [] { LinkedUnique(next, next[a[0]], a[1..], b[1..]); }
  }

  /** The pool used by one thread: each exchange then succeeds at once. */
  class MemoryPool {
    const next: array<int>
    var head: int
    ghost var chain: seq<nat>

    ghost predicate Valid()
      reads this, next
    {
      Linked(next[..], head, chain) && NoDuplicates(chain)
    }

    constructor (poolSize: nat)
      ensures Valid() && fresh(next)
      ensures next.Length == poolSize && chain == Descending(poolSize)
    {
      next := new int[poolSize](_ => NIL);
      head := NIL;
      chain := [];
      new;
      var i := 0;
      while i < poolSize
        invariant 0 <= i <= poolSize == next.Length
        invariant Valid() && chain == Descending(i)
        invariant fresh(next)
      {
        Push(i);
        i := i + 1;
      }
    }

    method Push(b: nat)
      requires Valid() && b < next.Length && b !in chain
      modifies this, next
      ensures Valid() && chain == [b] + old(chain)
    {
      LinkedElsewhere(next[..], head, chain, b, head);
      ghost var nexts := next[..][b := head];
      next[b] := head;
      assert next[..] == nexts;
      head := b;
      chain := [b] + chain;
      assert chain[1..] == old(chain);
    }

    method Pop() returns (h: int)
      requires Valid()
      modifies this
      ensures Valid()
      ensures if old(chain) == [] then h == NIL && chain == [] else h == old(chain)[0] && chain == old(chain)[1..]
    {
      h := head;
      if h != NIL {
        head := next[h];
        chain := chain[1..];
      }
    }

    method Acquire() returns (b: int)
      requires Valid()
      modifies this
      ensures Valid()
      ensures if old(chain) == [] then b == NIL && chain == [] else b == old(chain)[0] && chain == old(chain)[1..]
    {
      b := Pop();
    }

    method Release(b: int)
      requires Valid() && (b == NIL || (0 <= b < next.Length && b !in chain))
      modifies this, next
      ensures Valid() && chain == if b == NIL then old(chain) else [b] + old(chain)
    {
      if b != NIL {
        Push(b);
      }
    }
  }
}
