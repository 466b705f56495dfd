/** The physical page allocator of kernel/kalloc.c. Pages are named by page number
    (address / PGSIZE); `first` is the first page above the kernel, NPAGES is PHYSTOP / PGSIZE.
    The freelist is linked through the free pages themselves; 0 is the null pointer. */
module Kalloc {

  const PGSIZE: nat := 4096
  const NPAGES: nat := 0x88000

  /** The list `free` starting at head, linked through next. */
  ghost predicate Chain(head: nat, next: map<nat, nat>, free: seq<nat>)
    decreases |free|
  {
    if free == [] then head == 0 else head == free[0] && head in next && Chain(next[head], next, free[1..])
  }

  lemma {:induction false} ChainFrame(head: nat, next: map<nat, nat>, free: seq<nat>, p: nat, v: nat)
    requires Chain(head, next, free) && p !in free
    ensures Chain(head, next[p := v], free)
    decreases |free|
  {
    if free == [] {
    } else {
      ChainFrame(next[head], next, free[1..], p, v);
    }
  }

  /** Counting a reference to p up and down. */
  function Up(m: map<nat, nat>, p: nat): map<nat, nat> { if p in m then m[p := m[p] + 1] else m }

  function Down(m: map<nat, nat>, p: nat): map<nat, nat> { if p in m && m[p] > 0 then m[p := m[p] - 1] else m }

  lemma UpThenDown(m: map<nat, nat>, p: nat)
    ensures Down(Up(m, p), p) == m
  {
  }

  predicate Within(first: nat, p: nat) { first <= p < NPAGES }

  class Kmem {
    const first: nat
    var head: nat                   // kmem.freelist
    var next: map<nat, nat>         // r->next, stored in the free page itself
    var freePages: nat
    var refcnt: map<nat, nat>
    ghost var free: seq<nat>        // the freelist, as a list

    ghost predicate Managed(p: nat) { Within(first, p) }

    /** refcnt is 0 exactly on the freelist, which is acyclic and counted by freePages. */
    ghost predicate Valid()
      reads this
    {
      && 0 < first
      && Chain(head, next, free) && |free| == freePages
      && (forall i, j | 0 <= i < j < |free| :: free[i] != free[j])
      && (forall p <- free :: Managed(p))
      && (forall p: nat :: p in refcnt <==> Managed(p))
      && forall p <- refcnt :: refcnt[p] == 0 <==> p in free
    }

    /** kalloc: the head of the freelist with count 1, or 0 when the list is empty. */
    method Alloc() returns (r: nat)
      requires Valid()
      modifies this`head, this`freePages, this`refcnt, this`free
      ensures Valid()
      ensures r == 0 <==> old(free) == []
      ensures r == 0 ==> refcnt == old(refcnt) && free == old(free)
      ensures r != 0 ==>
                && free == old(free)[1..] && r == old(free)[0]
                && Managed(r) && old(refcnt)[r] == 0 && refcnt == Up(old(refcnt), r)
    {
      assert free != [] ==> free[0] in free;
      r := head;
      if r != 0 {
        head := next[r];
        freePages := freePages - 1;
        refcnt := refcnt[r := 1];
        free := free[1..];
      }
    }

    /** kfree: drop one reference; the last one puts the page back. The requires are its panics. */
    method Free(p: nat)
      requires Valid() && Managed(p) && refcnt[p] >= 1
      modifies this`head, this`next, this`freePages, this`refcnt, this`free
      ensures Valid()
      ensures refcnt == Down(old(refcnt), p)
      ensures free == if old(refcnt)[p] == 1 then [p] + old(free) else old(free)
    {
      refcnt := refcnt[p := refcnt[p] - 1];
      if refcnt[p] > 0 { return; }
      ChainFrame(head, next, free, p, head);
      next := next[p := head];
      head := p;
      freePages := freePages + 1;
      free := [p] + free;
      assert free[1..] == old(free);
    }

    /** kaddref: one more reference to a page that is in use. */
    method AddRef(p: nat)
      requires Valid() && Managed(p) && refcnt[p] >= 1
      modifies this`refcnt
      ensures Valid() && refcnt == Up(old(refcnt), p)
    {
      refcnt := refcnt[p := refcnt[p] + 1];
    }

    /** meminfo: the walk over the freelist agrees with freemem's counter. */
    method MemInfo() returns (bytes: nat)
      requires Valid()
      ensures bytes == PGSIZE * freePages
    {
      forall i | 0 <= i < |free| ensures free[i] != 0 { assert free[i] in free; }
      bytes := 0;
      var r := head;
      ghost var k := 0;
      while r != 0
        invariant k <= |free| && Chain(r, next, free[k..]) && bytes == PGSIZE * k
        invariant r != 0 || k == |free|
        decreases |free| - k
      {
        assert free[k..][1..] == free[k+1..];
        bytes := bytes + PGSIZE;
        r, k := next[r], k + 1;
      }
    }

    /** kinit/freerange: each page's temporary count of 1 is dropped again by kfree, which
        pushes the page on the list. */
    constructor (firstPage: nat)
      requires 0 < firstPage <= NPAGES
      ensures Valid() && first == firstPage && freePages == NPAGES - firstPage
      ensures forall p <- refcnt :: refcnt[p] == 0
    {
      first := firstPage;
      head, next, freePages, free := 0, map[], 0, [];
      refcnt := map p | 0 <= p < NPAGES && Within(firstPage, p) :: 0;
      new;
      for p := firstPage to NPAGES
        invariant first == firstPage && Chain(head, next, free) && |free| == freePages == p - firstPage
        invariant forall i, j | 0 <= i < j < |free| :: free[i] != free[j]
        invariant forall q: nat :: q in free <==> firstPage <= q < p
        invariant forall q: nat :: q in refcnt <==> firstPage <= q < NPAGES
        invariant forall q <- refcnt :: refcnt[q] == 0
      {
        ChainFrame(head, next, free, p, head);
        next := next[p := head];
        head := p;
        freePages := freePages + 1;
        free := [p] + free;
      }
    }
  }
}
