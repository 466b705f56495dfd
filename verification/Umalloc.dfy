/** user/umalloc.c, the allocator of section 8.7 of The C Programming Language. Addresses and
    sizes are in units of one header (16 bytes); a block counts its header. */
module Umalloc {
  import opened Sbrk

  /** A block: the address of its header and its units. */
  datatype Blk = Blk(a: nat, n: nat)

  function End(b: Blk): nat { b.a + b.n }

  function Sum(bs: seq<Blk>): nat { if bs == [] then 0 else Sum(bs[..|bs| - 1]) + bs[|bs| - 1].n }

  lemma {:induction false} SumJoin(xs: seq<Blk>, ys: seq<Blk>)
    ensures Sum(xs + ys) == Sum(xs) + Sum(ys)
    decreases |ys|
  {
    if ys == [] {
      assert xs + ys == xs;
    } else {
      assert (xs + ys)[..|xs + ys| - 1] == xs + ys[..|ys| - 1];
      SumJoin(xs, ys[..|ys| - 1]);
    }
  }

  predicate Apart(x: Blk, y: Blk) { End(x) <= y.a || End(y) <= x.a }

  // ---------- The free list as a sequence ----------

  /** base first, then blocks by address; neighbours may touch. */
  ghost predicate Ordered(f: seq<Blk>, base: nat) {
    && 0 < |f| && f[0] == Blk(base, 0) && (forall i | 0 < i < |f| :: f[i].n > 0)
    && forall i: nat, j: nat {:trigger Before(f, i, j)} :: Before(f, i, j)
  }

  ghost predicate Before(f: seq<Blk>, i: nat, j: nat) { i < j < |f| ==> f[i].a < f[j].a && End(f[i]) <= f[j].a }

  /** Element i does not touch the next. */
  ghost predicate Loose(f: seq<Blk>, i: int) { 0 <= i && i + 1 < |f| ==> End(f[i]) < f[i + 1].a }

  /** Fully coalesced. */
  ghost predicate FreeOk(f: seq<Blk>, base: nat) {
    Ordered(f, base) && forall i {:trigger Loose(f, i)} :: Loose(f, i)
  }

  function Succ(i: nat, n: nat): nat { if i + 1 < n then i + 1 else 0 }

  /** The headers in memory hold that list, as a ring. */
  ghost predicate Linked(ptr: map<nat, nat>, size: map<nat, nat>, f: seq<Blk>) {
    forall i {:trigger Node(ptr, size, f, i)} | 0 <= i < |f| :: Node(ptr, size, f, i)
  }

  ghost predicate Node(ptr: map<nat, nat>, size: map<nat, nat>, f: seq<Blk>, i: int)
    requires 0 <= i < |f|
  {
    f[i].a in ptr && f[i].a in size && ptr[f[i].a] == f[Succ(i, |f|)].a && size[f[i].a] == f[i].n
  }

  /** Where a block at address a belongs: after element t. */
  ghost predicate Gap(f: seq<Blk>, t: int, a: nat) {
    0 <= t < |f| && f[t].a < a && (t + 1 < |f| ==> a < f[t + 1].a)
  }

  function Put(f: seq<Blk>, t: nat, b: Blk): seq<Blk>
    requires t < |f|
  {
    f[..t + 1] + [b] + f[t + 1..]
  }

  function MergeAt(f: seq<Blk>, i: nat): seq<Blk> {
    if i + 1 < |f| && End(f[i]) == f[i + 1].a then f[..i] + [Blk(f[i].a, f[i].n + f[i + 1].n)] + f[i + 2..] else f
  }

  /** free's effect: b goes after element t and merges with either neighbour it touches. */
  function Insert(f: seq<Blk>, t: nat, b: Blk): seq<Blk>
    requires t < |f|
  {
    MergeAt(MergeAt(Put(f, t, b), t + 1), t)
  }

  lemma {:induction false} SumOne(xs: seq<Blk>, b: Blk)
    ensures Sum(xs + [b]) == Sum(xs) + b.n
  {
    assert (xs + [b])[..|xs|] == xs;
  }

  lemma {:induction false} SumMid(xs: seq<Blk>, b: Blk, ys: seq<Blk>)
    ensures Sum(xs + [b] + ys) == Sum(xs) + b.n + Sum(ys)
  {
    SumOne(xs, b);
    SumJoin(xs + [b], ys);
  }

  lemma {:induction false} SumTwo(xs: seq<Blk>, b: Blk, c: Blk, ys: seq<Blk>)
    ensures Sum(xs + [b] + [c] + ys) == Sum(xs) + b.n + c.n + Sum(ys)
  {
    SumMid(xs + [b], c, ys);
    SumOne(xs, b);
  }

  lemma {:induction false} MergeSum(f: seq<Blk>, i: nat)
    ensures Sum(MergeAt(f, i)) == Sum(f)
  {
    if i + 1 < |f| && End(f[i]) == f[i + 1].a {
      SplitTwo(f, i);
      SumTwo(f[..i], f[i], f[i + 1], f[i + 2..]);
      SumMid(f[..i], Blk(f[i].a, f[i].n + f[i + 1].n), f[i + 2..]);
    }
  }

  lemma SplitTwo(f: seq<Blk>, i: nat)
    requires i + 1 < |f|
    ensures f == f[..i] + [f[i]] + [f[i + 1]] + f[i + 2..]
  {
  }

  lemma {:induction false} PutSum(f: seq<Blk>, t: nat, b: Blk)
    requires t < |f|
    ensures Sum(Put(f, t, b)) == Sum(f) + b.n
  {
    SumMid(f[..t + 1], b, f[t + 1..]);
    SumJoin(f[..t + 1], f[t + 1..]);
    assert f[..t + 1] + f[t + 1..] == f;
  }

  lemma {:induction false} InsertSum(f: seq<Blk>, t: nat, b: Blk)
    requires t < |f|
    ensures Sum(Insert(f, t, b)) == Sum(f) + b.n
  {
    PutSum(f, t, b);
    MergeSum(Put(f, t, b), t + 1);
    MergeSum(MergeAt(Put(f, t, b), t + 1), t);
  }

  lemma MiddleAt(a: seq<Blk>, b: Blk, c: seq<Blk>, k: nat)
    requires k < |a| + 1 + |c|
    ensures (a + [b] + c)[k] == if k < |a| then a[k] else if k == |a| then b else c[k - |a| - 1]
  {
  }

  lemma PutAt(f: seq<Blk>, t: nat, b: Blk)
    requires t < |f|
    ensures IsPut(f, Put(f, t, b), t, b)
  {
    var g := Put(f, t, b);
    forall k | 0 <= k < |g| ensures g[k] == if k <= t then f[k] else if k == t + 1 then b else f[k - 1] {
      MiddleAt(f[..t + 1], b, f[t + 1..], k);
    }
  }

  /** g is f with elements i and i + 1 made one. */
  ghost predicate IsMerged(f: seq<Blk>, g: seq<Blk>, i: nat) {
    && i + 1 < |f| && |g| == |f| - 1
    && forall k {:trigger g[k]} | 0 <= k < |g| ::
         g[k] == if k < i then f[k] else if k == i then Blk(f[i].a, f[i].n + f[i + 1].n) else f[k + 1]
  }

  /** g is f, with element i merged with the next if they touch. */
  ghost predicate IsMerge(f: seq<Blk>, g: seq<Blk>, i: nat) {
    if i + 1 < |f| && End(f[i]) == f[i + 1].a then IsMerged(f, g, i) else g == f
  }

  lemma MergeAtIs(f: seq<Blk>, i: nat)
    ensures IsMerge(f, MergeAt(f, i), i)
  {
    if i + 1 < |f| && End(f[i]) == f[i + 1].a {
      MergedIs(f, MergeAt(f, i), i, Blk(f[i].a, f[i].n + f[i + 1].n));
    }
  }

  lemma MergedIs(f: seq<Blk>, g: seq<Blk>, i: nat, b: Blk)
    requires i + 1 < |f| && b == Blk(f[i].a, f[i].n + f[i + 1].n) && g == f[..i] + [b] + f[i + 2..]
    ensures IsMerged(f, g, i)
  {
    var x, y := f[..i], f[i + 2..];
    forall k | 0 <= k < |g| ensures g[k] == if k < i then f[k] else if k == i then b else f[k + 1] {
      MiddleAt(x, b, y, k);
    }
  }

  lemma MergeOrdered(f: seq<Blk>, g: seq<Blk>, base: nat, i: nat)
    requires Ordered(f, base) && f[0].n == 0 && (i == 0 ==> Loose(f, 0)) && IsMerge(f, g, i)
    ensures Ordered(g, base)
  {
    if g != f {
      forall j: nat, k: nat ensures Before(g, j, k) {
        assert Before(f, j, k) && Before(f, j, k + 1) && Before(f, j + 1, k + 1);
      }
    }
  }

  lemma MergeLoose(f: seq<Blk>, g: seq<Blk>, base: nat, i: nat, j: nat)
    requires Ordered(f, base) && IsMerge(f, g, i) && Loose(f, i + 1) && (j != i ==> Loose(f, j))
    requires j > i ==> Loose(f, j + 1)
    ensures Loose(g, j)
  {
    assert Before(f, i, i + 1);
  }

  /** b is clear of every free block but may touch one. */
  ghost predicate Clear(f: seq<Blk>, b: Blk) { forall i {:trigger Apart(f[i], b)} | 0 <= i < |f| :: Apart(f[i], b) }

  lemma PutOk(f: seq<Blk>, base: nat, t: nat, b: Blk)
    requires FreeOk(f, base) && Gap(f, t, b.a) && Clear(f, b) && b.n > 0
    ensures var g := Put(f, t, b); Ordered(g, base) && forall j: nat | j != t && j != t + 1 :: Loose(g, j)
  {
    var g := Put(f, t, b);
    PutAt(f, t, b);
    assert End(f[t]) <= b.a && (t + 1 < |f| ==> End(b) <= f[t + 1].a) by {
      assert Apart(f[t], b) && (t + 1 < |f| ==> Apart(f[t + 1], b));
    }
    PutOrdered(f, g, base, t, b);
    forall j: nat | j != t && j != t + 1 ensures Loose(g, j) { assert if j < t then Loose(f, j) else Loose(f, j - 1); }
  }

  lemma PutOrdered(f: seq<Blk>, g: seq<Blk>, base: nat, t: nat, b: Blk)
    requires Ordered(f, base) && IsPut(f, g, t, b) && b.n > 0 && f[t].a < b.a && End(f[t]) <= b.a
    requires t + 1 < |f| ==> End(b) <= f[t + 1].a
    ensures Ordered(g, base)
  {
    forall i: nat, j: nat ensures Before(g, i, j) {
      if i < j < |g| {
        assert Before(f, i, j) && Before(f, i, j - 1) && Before(f, i, t) && Before(f, t + 1, j - 1);
        if i > 0 { assert Before(f, i - 1, j - 1); }
      }
    }
  }

  lemma InsertOk(f: seq<Blk>, base: nat, t: nat, b: Blk)
    requires FreeOk(f, base) && Gap(f, t, b.a) && Clear(f, b) && b.n > 0
    ensures FreeOk(Insert(f, t, b), base)
  {
    var g := Put(f, t, b);
    var h := MergeAt(g, t + 1);
    PutOk(f, base, t, b);
    PutAt(f, t, b);
    MergeAtIs(g, t + 1);
    MergeAtIs(h, t);
    MergedOk(g, h, MergeAt(h, t), base, t);
  }

  /** With only element t and t + 1 touching a neighbour, the two merges leave nothing that touches. */
  lemma MergedOk(g: seq<Blk>, h: seq<Blk>, k: seq<Blk>, base: nat, t: nat)
    requires Ordered(g, base) && (forall j: nat | j != t && j != t + 1 :: Loose(g, j)) && (t == 0 ==> Loose(g, 0))
    requires IsMerge(g, h, t + 1) && IsMerge(h, k, t)
    ensures FreeOk(k, base)
  {
    MergeOrdered(g, h, base, t + 1);
    forall j: nat | j != t ensures Loose(h, j) { MergeLoose(g, h, base, t + 1, j); }
    assert t == 0 ==> Loose(h, 0) by {
      if t == 0 { assert |g| > 1 ==> h[0] == g[0] && (|h| > 1 ==> h[1].a == g[1].a); }
    }
    MergeOrdered(h, k, base, t);
    forall j ensures Loose(k, j) { if j >= 0 { MergeLoose(h, k, base, t, j); } }
  }

  // ---------- The ring in memory ----------

  /** g is f with b put in after element t. */
  ghost predicate IsPut(f: seq<Blk>, g: seq<Blk>, t: nat, b: Blk) {
    && t < |f| && |g| == |f| + 1
    && forall k {:trigger g[k]} | 0 <= k < |g| :: g[k] == if k <= t then f[k] else if k == t + 1 then b else f[k - 1]
  }

  lemma PutLinked(ptr: map<nat, nat>, size: map<nat, nat>, f: seq<Blk>, g: seq<Blk>, base: nat, t: nat, b: Blk)
    requires Linked(ptr, size, f) && IsPut(f, g, t, b) && Ordered(g, base) && b.a in size && size[b.a] == b.n
    ensures Linked(ptr[b.a := f[Succ(t, |f|)].a][f[t].a := b.a], size, g)
  {
    var ptr' := ptr[b.a := f[Succ(t, |f|)].a][f[t].a := b.a];
    assert g[t + 1] == b && g[t] == f[t] && g[0] == f[0] && (t + 2 < |g| ==> g[t + 2] == f[t + 1]);
    forall i: nat | i < |g| ensures Node(ptr', size, g, i) {
      assert Before(g, i, t) && Before(g, t, i) && Before(g, i, t + 1) && Before(g, t + 1, i) && Before(g, t, t + 1);
      if i < t {
        assert Node(ptr, size, f, i) && g[i] == f[i] && g[i + 1] == f[i + 1];
      } else if i == t {
        assert Node(ptr, size, f, i);
      } else if i > t + 1 {
        assert Node(ptr, size, f, i - 1) && g[i] == f[i - 1] && (i + 1 < |g| ==> g[i + 1] == f[i]);
      }
    }
  }

  /** Element i absorbs the next one. */
  lemma MergeLinked(ptr: map<nat, nat>, size: map<nat, nat>, f: seq<Blk>, base: nat, i: nat)
    requires Ordered(f, base) && Linked(ptr, size, f) && i + 1 < |f| && End(f[i]) == f[i + 1].a
    ensures f[i].a in size && f[i + 1].a in size && f[i + 1].a in ptr
    ensures Linked(ptr[f[i].a := ptr[f[i + 1].a]], size[f[i].a := size[f[i].a] + size[f[i + 1].a]], MergeAt(f, i))
  {
    assert Node(ptr, size, f, i) && Node(ptr, size, f, i + 1);
    MergeAtIs(f, i);
    MergedLinked(ptr, size, f, MergeAt(f, i), base, i);
  }

  lemma MergedLinked(ptr: map<nat, nat>, size: map<nat, nat>, f: seq<Blk>, g: seq<Blk>, base: nat, i: nat)
    requires Ordered(f, base) && Linked(ptr, size, f) && IsMerged(f, g, i)
    requires Node(ptr, size, f, i) && Node(ptr, size, f, i + 1)
    ensures Linked(ptr[f[i].a := ptr[f[i + 1].a]], size[f[i].a := size[f[i].a] + size[f[i + 1].a]], g)
  {
    var ptr', size' := ptr[f[i].a := ptr[f[i + 1].a]], size[f[i].a := size[f[i].a] + size[f[i + 1].a]];
    assert g[i].a == f[i].a && g[0].a == f[0].a;
    forall k: nat | k < |g| ensures Node(ptr', size', g, k) {
      assert Before(f, k, i) && Before(f, i, k + 1);
      if k < i { assert Node(ptr, size, f, k) && g[k] == f[k] && g[k + 1].a == f[k + 1].a; }
      else if k > i { assert Node(ptr, size, f, k + 1) && g[k] == f[k + 1] && (k + 1 < |g| ==> g[k + 1] == f[k + 2]); }
      else { assert i + 1 < |g| ==> g[i + 1] == f[i + 2]; }
    }
  }

  /** The ring after bp has absorbed or been pointed to its right neighbour, and p has been pointed to bp. */
  lemma RightLinked(ptr: map<nat, nat>, size: map<nat, nat>, f: seq<Blk>, base: nat, t: nat, b: Blk)
    requires FreeOk(f, base) && Linked(ptr, size, f) && Gap(f, t, b.a) && b.n > 0 && b.a in size && size[b.a] == b.n
    requires Clear(f, b)
    ensures f[t].a in ptr && f[t].a in size && size[f[t].a] == f[t].n && f[t].a != b.a
    ensures var h, p, next := MergeAt(Put(f, t, b), t + 1), f[t].a, ptr[f[t].a];
            && Ordered(h, base) && t + 1 < |h| && h[t] == f[t] && h[t + 1].a == b.a
            && if End(b) == next
               then next in ptr && next in size
                      && Linked(ptr[b.a := ptr[next]][p := b.a], size[b.a := b.n + size[next]], h)
               else Linked(ptr[b.a := next][p := b.a], size, h)
  {
    var g := Put(f, t, b);
    PutOk(f, base, t, b);
    PutAt(f, t, b);
    assert Node(ptr, size, f, t) && g[t] == f[t] && g[t + 1] == b && g[0] == f[0]
             && (t + 1 < |f| ==> g[t + 2] == f[t + 1]);
    MergeAtIs(g, t + 1);
    MergeOrdered(g, MergeAt(g, t + 1), base, t + 1);
    if End(b) == ptr[f[t].a] {
      RightMerged(ptr, size, f, g, base, t, b);
    } else {
      RightPlain(ptr, size, f, g, base, t, b);
    }
  }

  lemma RightPlain(ptr: map<nat, nat>, size: map<nat, nat>, f: seq<Blk>, g: seq<Blk>, base: nat, t: nat, b: Blk)
    requires Linked(ptr, size, f) && IsPut(f, g, t, b) && Ordered(g, base) && b.a in size && size[b.a] == b.n
    requires Node(ptr, size, f, t)
    requires g[t] == f[t] && g[t + 1] == b && (t + 1 < |f| ==> g[t + 2] == f[t + 1]) && End(b) != ptr[f[t].a]
    ensures MergeAt(g, t + 1) == g && Linked(ptr[b.a := ptr[f[t].a]][f[t].a := b.a], size, g)
  {
    PutLinked(ptr, size, f, g, base, t, b);
  }

  lemma RightMerged(ptr: map<nat, nat>, size: map<nat, nat>, f: seq<Blk>, g: seq<Blk>, base: nat, t: nat, b: Blk)
    requires Linked(ptr, size, f) && IsPut(f, g, t, b) && Ordered(g, base) && b.a in size && size[b.a] == b.n
    requires Node(ptr, size, f, t)
    requires g[t] == f[t] && g[t + 1] == b && g[0] == f[0] && (t + 1 < |f| ==> g[t + 2] == f[t + 1])
    requires End(b) == ptr[f[t].a]
    ensures var p, next, h := f[t].a, ptr[f[t].a], MergeAt(g, t + 1);
            && next in ptr && next in size && Linked(ptr[b.a := ptr[next]][p := b.a], size[b.a := b.n + size[next]], h)
            && t + 1 < |h| && h[t] == f[t] && h[t + 1].a == b.a
  {
    var p, next := f[t].a, ptr[f[t].a];
    assert Before(g, 0, t + 1) && Before(g, t, t + 1);
    assert t + 1 < |f|;
    assert Node(ptr, size, f, t + 1);
    PutLinked(ptr, size, f, g, base, t, b);
    MergeLinked(ptr[b.a := next][p := b.a], size, g, base, t + 1);
    MergeAtIs(g, t + 1);
    assert ptr[b.a := next][p := b.a][b.a := ptr[next]] == ptr[b.a := ptr[next]][p := b.a];
  }

  lemma GapUnique(f: seq<Blk>, base: nat, t: int, k: int, a: nat)
    requires Ordered(f, base) && Gap(f, t, a) && Gap(f, k, a)
    ensures t == k
  {
    assert Before(f, t, k) && Before(f, k, t) && Before(f, t + 1, k) && Before(f, k + 1, t);
  }

  lemma {:induction false} FindGap(f: seq<Blk>, base: nat, a: nat, n: nat) returns (t: nat)
    requires Ordered(f, base) && base < a && 0 < n <= |f| && (n < |f| ==> a < f[n].a)
    requires forall i | 0 <= i < |f| :: f[i].a != a
    ensures Gap(f, t, a)
  {
    if f[n - 1].a < a { t := n - 1; } else { t := FindGap(f, base, a, n - 1); }
  }

  // ---------- Blocks in use ----------

  ghost predicate LiveAt(b: Blk, size: map<nat, nat>, f: seq<Blk>, base: nat, top: nat) {
    b.a in size && size[b.a] == b.n > 0 && base < b.a && End(b) <= top && Clear(f, b)
  }

  /** Live blocks are disjoint from each other and from the free ones, and their headers are intact. */
  ghost predicate LiveOk(live: seq<Blk>, size: map<nat, nat>, f: seq<Blk>, base: nat, top: nat) {
    && (forall j {:trigger LiveAt(live[j], size, f, base, top)} | 0 <= j < |live| ::
        LiveAt(live[j], size, f, base, top))
    && (forall i, j {:trigger Apart(live[i], live[j])} | 0 <= i < j < |live| :: Apart(live[i], live[j]))
    && Capped(f, top)
  }

  lemma MergeClear(f: seq<Blk>, base: nat, i: nat, x: Blk)
    requires Clear(f, x) && x.n > 0
    ensures Clear(MergeAt(f, i), x)
  {
    if i + 1 < |f| && End(f[i]) == f[i + 1].a {
      MergeAtIs(f, i);
      assert Apart(f[i], x) && Apart(f[i + 1], x);
    }
  }

  lemma InsertClear(f: seq<Blk>, base: nat, t: nat, b: Blk, x: Blk)
    requires t < |f| && Clear(f, x) && Apart(b, x) && x.n > 0
    ensures Clear(Insert(f, t, b), x)
  {
    PutAt(f, t, b);
    assert Clear(Put(f, t, b), x);
    MergeClear(Put(f, t, b), base, t + 1, x);
    MergeClear(MergeAt(Put(f, t, b), t + 1), base, t, x);
  }

  ghost predicate Capped(f: seq<Blk>, top: nat) { forall i | 0 <= i < |f| :: End(f[i]) <= top }

  lemma MergeCapped(f: seq<Blk>, i: nat, top: nat)
    requires Capped(f, top)
    ensures Capped(MergeAt(f, i), top)
  {
    if i + 1 < |f| && End(f[i]) == f[i + 1].a { MergeAtIs(f, i); }
  }

  lemma InsertCapped(f: seq<Blk>, t: nat, b: Blk, top: nat)
    requires t < |f| && Capped(f, top) && End(b) <= top
    ensures Capped(Insert(f, t, b), top)
  {
    PutAt(f, t, b);
    MergeCapped(Put(f, t, b), t + 1, top);
    MergeCapped(MergeAt(Put(f, t, b), t + 1), t, top);
  }

  /** The block put in is found at element t or the one after it. */
  lemma InsertHas(f: seq<Blk>, t: nat, b: Blk)
    requires t < |f|
    ensures var g := Insert(f, t, b); t < |g| && (g[t].n >= b.n || (t + 1 < |g| && g[t + 1].n >= b.n))
  {
    var g := Put(f, t, b);
    var h := MergeAt(g, t + 1);
    PutAt(f, t, b);
    if t + 2 < |g| && End(g[t + 1]) == g[t + 2].a { MergeAtIs(g, t + 1); }
    assert h[t + 1].n >= b.n;
    if End(h[t]) == h[t + 1].a { MergeAtIs(h, t); }
  }

  lemma InsertLive(live: seq<Blk>, size: map<nat, nat>, size': map<nat, nat>, f: seq<Blk>, base: nat, top: nat, t: nat,
                   b: Blk)
    requires LiveOk(live, size, f, base, top) && t < |f| && End(b) <= top
    requires forall j | 0 <= j < |live| :: Apart(b, live[j])
    requires forall x <- size | x != b.a && (forall i | 0 <= i < |f| :: f[i].a != x) ::
               x in size' && size'[x] == size[x]
    requires b.n > 0 && FreeOk(f, base)
    ensures LiveOk(live, size', Insert(f, t, b), base, top)
  {
    InsertCapped(f, t, b, top);
    forall j | 0 <= j < |live| ensures LiveAt(live[j], size', Insert(f, t, b), base, top) {
      assert LiveAt(live[j], size, f, base, top);
      InsertClear(f, base, t, b, live[j]);
      forall i | 0 <= i < |f| ensures f[i].a != live[j].a { assert Apart(f[i], live[j]); }
      assert b.a != live[j].a by { assert Apart(b, live[j]); }
    }
  }

  /** Memory above everything there was is clear of it. */
  lemma NewCore(live: seq<Blk>, ptr: map<nat, nat>, size: map<nat, nat>, size': map<nat, nat>, f: seq<Blk>, base: nat,
                top: nat, b: Blk)
    requires LiveOk(live, size, f, base, top) && FreeOk(f, base) && top <= b.a && b.n > 0 && size' == size[b.a := b.n]
    requires base < top
    requires Linked(ptr, size, f)
    ensures LiveOk(live, size', f, base, End(b)) && Clear(f, b) && base < b.a
    ensures forall j | 0 <= j < |live| :: Apart(b, live[j])
    ensures Linked(ptr, size', f)
  {
    forall j | 0 <= j < |live| ensures LiveAt(live[j], size', f, base, End(b)) && Apart(b, live[j]) {
      assert LiveAt(live[j], size, f, base, top);
    }
    forall i | 0 <= i < |f| ensures f[i].a < b.a {}
    forall i | 0 <= i < |f| ensures Node(ptr, size', f, i) { assert Node(ptr, size, f, i); }
  }

  lemma {:induction false} DropSum(bs: seq<Blk>, j: nat)
    requires j < |bs|
    ensures Sum(bs[..j] + bs[j + 1..]) + bs[j].n == Sum(bs)
  {
    assert bs == bs[..j] + [bs[j]] + bs[j + 1..];
    SumMid(bs[..j], bs[j], bs[j + 1..]);
    SumJoin(bs[..j], bs[j + 1..]);
  }

  lemma DropLive(live: seq<Blk>, size: map<nat, nat>, f: seq<Blk>, base: nat, top: nat, j: nat)
    requires LiveOk(live, size, f, base, top) && j < |live|
    ensures var rest := live[..j] + live[j + 1..];
            && LiveOk(rest, size, f, base, top) && forall k | 0 <= k < |rest| :: Apart(live[j], rest[k])
  {
    var rest := live[..j] + live[j + 1..];
    forall k | 0 <= k < |rest| ensures LiveAt(rest[k], size, f, base, top) && Apart(live[j], rest[k]) {
      var k' := if k < j then k else k + 1;
      assert rest[k] == live[k'] && LiveAt(live[k'], size, f, base, top);
      assert if k' < j then Apart(live[k'], live[j]) else Apart(live[j], live[k']);
    }
    forall i, k | 0 <= i < k < |rest| ensures Apart(rest[i], rest[k]) {
      assert Apart(live[if i < j then i else i + 1], live[if k < j then k else k + 1]);
    }
  }

  // ---------- Taking units out of a free block ----------

  /** malloc's effect on the list: element k goes if it fits exactly, else it loses its tail. */
  function Take(f: seq<Blk>, k: nat, n: nat): seq<Blk>
    requires k < |f| && n <= f[k].n
  {
    if f[k].n == n then f[..k] + f[k + 1..] else f[k := Blk(f[k].a, f[k].n - n)]
  }

  function Taken(b: Blk, n: nat): Blk
    requires n <= b.n
  {
    Blk(b.a + b.n - n, n)
  }

  lemma {:induction false} TakeSum(f: seq<Blk>, k: nat, n: nat)
    requires k < |f| && n <= f[k].n
    ensures Sum(Take(f, k, n)) + n == Sum(f)
  {
    if f[k].n == n {
      DropSum(f, k);
    } else {
      assert f == f[..k] + [f[k]] + f[k + 1..] && Take(f, k, n) == f[..k] + [Blk(f[k].a, f[k].n - n)] + f[k + 1..];
      SumMid(f[..k], f[k], f[k + 1..]);
      SumMid(f[..k], Blk(f[k].a, f[k].n - n), f[k + 1..]);
    }
  }

  ghost predicate IsRemoved(f: seq<Blk>, g: seq<Blk>, k: nat) {
    k < |f| && |g| == |f| - 1 && forall i {:trigger g[i]} | 0 <= i < |g| :: g[i] == if i < k then f[i] else f[i + 1]
  }

  lemma RemoveIs(f: seq<Blk>, k: nat)
    requires k < |f|
    ensures IsRemoved(f, f[..k] + f[k + 1..], k)
  {
  }

  lemma TakeOk(f: seq<Blk>, base: nat, k: nat, n: nat)
    requires FreeOk(f, base) && 0 < k < |f| && 0 < n <= f[k].n
    ensures FreeOk(Take(f, k, n), base) && Clear(Take(f, k, n), Taken(f[k], n))
  {
    var g := Take(f, k, n);
    if f[k].n == n { RemoveIs(f, k); }
    forall i ensures Loose(g, i) { assert Loose(f, i) && Loose(f, i + 1); }
    forall i | 0 <= i < |g| ensures Apart(g[i], Taken(f[k], n)) {
      assert Before(f, i, k) && Before(f, k, i) && Before(f, k, i + 1);
    }
    forall i: nat, j: nat ensures Before(g, i, j) {
      assert Before(f, i, j) && Before(f, i, j + 1) && Before(f, i + 1, j + 1);
    }
  }

  lemma RemoveLinked(ptr: map<nat, nat>, size: map<nat, nat>, f: seq<Blk>, g: seq<Blk>, base: nat, k: nat)
    requires Ordered(f, base) && Linked(ptr, size, f) && 0 < k < |f| && IsRemoved(f, g, k)
    ensures f[k].a in ptr && Linked(ptr[f[k - 1].a := ptr[f[k].a]], size, g)
  {
    assert Node(ptr, size, f, k) && Node(ptr, size, f, k - 1);
    var ptr' := ptr[f[k - 1].a := ptr[f[k].a]];
    assert g[0] == f[0] && g[k - 1] == f[k - 1] && (k < |g| ==> g[k] == f[k + 1]);
    forall i | 0 <= i < |g| ensures Node(ptr', size, g, i) {
      if i + 1 < k {
        assert Node(ptr, size, f, i) && g[i] == f[i] && g[i + 1] == f[i + 1] && Before(f, i, k - 1);
      } else if i >= k {
        assert Node(ptr, size, f, i + 1) && g[i] == f[i + 1] && (i + 1 < |g| ==> g[i + 1] == f[i + 2])
                 && Before(f, k - 1, i + 1);
      }
    }
  }

  lemma ShrinkLinked(ptr: map<nat, nat>, size: map<nat, nat>, f: seq<Blk>, base: nat, k: nat, n: nat)
    requires FreeOk(f, base) && Linked(ptr, size, f) && 0 < k < |f| && 0 < n < f[k].n
    ensures Linked(ptr, size[f[k].a := f[k].n - n][f[k].a + f[k].n - n := n], f[k := Blk(f[k].a, f[k].n - n)])
  {
    var g := f[k := Blk(f[k].a, f[k].n - n)];
    var size' := size[f[k].a := f[k].n - n][f[k].a + f[k].n - n := n];
    forall i | 0 <= i < |g| ensures Node(ptr, size', g, i) {
      assert Node(ptr, size, f, i);
      assert Before(f, i, k) && Before(f, k, i);
    }
  }

  /** The other live blocks are undisturbed, and clear of the new one. */
  lemma TakeLive(live: seq<Blk>, size: map<nat, nat>, size': map<nat, nat>, f: seq<Blk>, base: nat, top: nat, k: nat,
                 n: nat)
    requires LiveOk(live, size, f, base, top) && FreeOk(f, base) && 0 < k < |f| && 0 < n <= f[k].n
    requires var b := Taken(f[k], n);
               b.a in size' && size'[b.a] == n
                 && forall x <- size | x != b.a && x != f[k].a :: x in size' && size'[x] == size[x]
    ensures LiveOk(live + [Taken(f[k], n)], size', Take(f, k, n), base, top)
  {
    var b, g := Taken(f[k], n), Take(f, k, n);
    TakeOk(f, base, k, n);
    if f[k].n == n { RemoveIs(f, k); }
    assert Before(f, 0, k);
    forall j | 0 <= j < |live| ensures LiveAt(live[j], size', g, base, top) && Apart(live[j], b) {
      assert LiveAt(live[j], size, f, base, top) && Apart(f[k], live[j]);
      forall i | 0 <= i < |g| ensures Apart(g[i], live[j]) {
        assert Apart(f[i], live[j]) && (i + 1 < |f| ==> Apart(f[i + 1], live[j]));
      }
    }
  }

  /** Steps from element k to element t around the ring. */
  function Steps(k: int, t: int, n: int): int { if k <= t then t - k else n - k + t }

  /** The place of element k in a walk that starts after element at: 1 to n. */
  function Dist(at: int, k: int, n: int): int { if k > at then k - at else n - at + k }

  /** The blocks a walk from element at has passed on its way to k are all too small. */
  ghost predicate Passed(f: seq<Blk>, at: int, k: int, n: nat) {
    forall i {:trigger f[i]} | 0 <= i < |f| && Dist(at, i, |f|) < Dist(at, k, |f|) :: f[i].n < n
  }

  lemma PassedNext(f: seq<Blk>, at: nat, k: nat, n: nat)
    requires at < |f| && k < |f| && k != at && Passed(f, at, k, n) && f[k].n < n
    ensures Passed(f, at, Succ(k, |f|), n) && Dist(at, Succ(k, |f|), |f|) == Dist(at, k, |f|) + 1
  {
  }

  lemma AllPassed(f: seq<Blk>, at: nat, n: nat)
    requires at < |f| && Passed(f, at, at, n) && f[at].n < n
    ensures forall i | 0 <= i < |f| :: f[i].n < n
  {
  }

  lemma SameElement(f: seq<Blk>, base: nat, i: nat, j: nat)
    requires Ordered(f, base) && i < |f| && j < |f| && f[i].a == f[j].a
    ensures i == j
  {
    assert Before(f, i, j) && Before(f, j, i);
  }

  /** nunits of malloc: the bytes rounded up to units, and a header. */
  function Units(nbytes: nat): (n: nat)
    ensures 16 * (n - 1) >= nbytes && 16 * (n - 2) < nbytes
  {
    (nbytes + 15) / 16 + 1
  }

  /** A C int from an unsigned 64-bit value. */
  function ToInt(x: nat): int { var y := x % 0x1_0000_0000; if y < 0x8000_0000 then y else y - 0x1_0000_0000 }

  /** The units morecore thinks it gets. */
  function Wanted(nunits: nat): nat { if nunits < 4096 then 4096 else nunits }

  /** sbrk takes an int. It is the bytes meant exactly below 2^27 units; from there on, up to the largest request a
      uint can ask for, it is negative or at most 16. */
  lemma SbrkArgument(nu: nat)
    requires nu <= Units(0xFFFF_FFFF)
    ensures ToInt(nu * 16) == nu * 16 <==> nu < 0x800_0000
    ensures nu >= 0x800_0000 ==> ToInt(nu * 16) <= 16
  {
  }

  class Allocator {
    const base: nat                          // the address of the static header
    var ptr: map<nat, nat>                   // the ptr field of each header
    var size: map<nat, nat>                  // the size field
    var freep: nat                           // 0 is null
    ghost var f: seq<Blk>                    // the free list from base on
    ghost var at: nat                        // where freep is in it
    ghost var live: seq<Blk>                 // blocks handed out and not yet freed
    ghost var top: nat                       // all blocks lie below

    /** The ring: circular, by address with one wrap, disjoint and coalesced. */
    ghost predicate Ring()
      reads this
    {
      0 < base && FreeOk(f, base) && Linked(ptr, size, f) && at < |f| && freep == f[at].a != 0
    }

    /** The search loop of free: the element after which bp belongs. */
    method FindPlace(bp: nat) returns (p: nat, ghost t: nat)
      requires Ring() && base < bp && forall i | 0 <= i < |f| :: f[i].a != bp
      ensures Gap(f, t, bp) && p == f[t].a
    {
      t := FindGap(f, base, bp, |f|);
      p := freep;
      ghost var k := at;
      assert Node(ptr, size, f, k);
      while !(bp > p && bp < ptr[p]) && !(p >= ptr[p] && (bp > p || bp < ptr[p]))
        invariant 0 <= k < |f| && p == f[k].a && Node(ptr, size, f, k)
        decreases Steps(k, t, |f|)
      {
        assert Before(f, k, t) && Before(f, t, k) && Before(f, t + 1, k) && Before(f, 0, k) && Before(f, k, k + 1);
        p := ptr[p];
        k := Succ(k, |f|);
        assert Node(ptr, size, f, k);
      }
      assert Before(f, 0, k) && Before(f, k, k + 1);
      assert Gap(f, k, bp);
      GapUnique(f, base, t, k, bp);
    }

    /** free of a block at bp that is clear of the list. */
    method Release(bp: nat, ghost b: Blk) returns (ghost t: nat)
      requires Ring() && b.a == bp && base < bp && b.n > 0 && bp in size && size[bp] == b.n && Clear(f, b)
      modifies `ptr, `size, `freep, `f, `at
      ensures Ring() && Gap(old(f), t, bp) && f == Insert(old(f), t, b) && at == t
      ensures forall x <- old(size) | x != bp && (forall i | 0 <= i < |old(f)| :: old(f)[i].a != x) ::
                x in size && size[x] == old(size)[x]
    {
      forall i | 0 <= i < |f| ensures f[i].a != bp { assert Apart(f[i], b); }
      var p;
      p, t := FindPlace(bp);
      assert Before(f, 0, t);
      InsertOk(f, base, t, b);
      LinkIn(bp, p, b, t);
      freep, at := p, t;
    }

    /** The pointer updates of free, after element t at p. */
    method LinkIn(bp: nat, p: nat, ghost b: Blk, ghost t: nat)
      requires FreeOk(f, base) && Linked(ptr, size, f) && Gap(f, t, bp) && p == f[t].a
      requires b.a == bp && b.n > 0 && bp in size && size[bp] == b.n && Clear(f, b)
      modifies `ptr, `size, `f
      ensures Linked(ptr, size, f) && f == Insert(old(f), t, b) && t < |f| && p == f[t].a
      ensures forall x <- old(size) | x != bp && x != p :: x in size && size[x] == old(size)[x]
    {
      ghost var h := LinkRight(bp, p, b, t);
      if p + size[p] == bp {
        MergeLinked(ptr[p := bp], size, h, base, t);
        assert ptr[p := bp][p := ptr[bp]] == ptr[p := ptr[bp]];
        size := size[p := size[p] + size[bp]];
        ptr := ptr[p := ptr[bp]];
      } else {
        ptr := ptr[p := bp];
      }
      f := MergeAt(h, t);
    }

    /** The first half: bp absorbs the next block or points to it. With p pointing to bp, that is a ring. */
    method LinkRight(bp: nat, p: nat, ghost b: Blk, ghost t: nat) returns (ghost h: seq<Blk>)
      requires FreeOk(f, base) && Linked(ptr, size, f) && Gap(f, t, bp) && p == f[t].a
      requires b.a == bp && b.n > 0 && bp in size && size[bp] == b.n && Clear(f, b)
      modifies `ptr, `size
      ensures h == MergeAt(Put(f, t, b), t + 1) && Ordered(h, base) && Linked(ptr[p := bp], size, h)
      ensures t + 1 < |h| && h[t] == f[t] && h[t + 1].a == bp && p != bp && p in size && bp in ptr && size[p] == h[t].n
      ensures forall x <- old(size) | x != bp :: x in size && size[x] == old(size)[x]
    {
      RightLinked(ptr, size, f, base, t, b);
      h := MergeAt(Put(f, t, b), t + 1);
      var next := ptr[p];
      if bp + size[bp] == next {
        size := size[bp := size[bp] + size[next]];
        ptr := ptr[bp := ptr[next]];
      } else {
        ptr := ptr[bp := next];
      }
    }

    ghost predicate Valid()
      reads this
    {
      && 0 < base && FreeOk(f, base) && LiveOk(live, size, f, base, top) && base < top
      && if freep == 0 then f == [Blk(base, 0)] && live == [] else Linked(ptr, size, f) && at < |f| && freep == f[at].a
    }

    constructor (base: nat)
      requires base > 0
      ensures Valid() && this.base == base && freep == 0 && live == []
    {
      this.base := base;
      ptr, size, freep := map[], map[], 0;
      f, at, live, top := [Blk(base, 0)], 0, [], base + 1;
    }

    /** free(ap) of the j-th live block: its units go back, nothing else moves. */
    method Free(ap: nat, ghost j: nat)
      requires Valid() && 0 < ap && j < |live| && live[j].a == ap - 1
      modifies this
      ensures Valid() && live == old(live)[..j] + old(live)[j + 1..] && Sum(f) + Sum(live) == old(Sum(f) + Sum(live))
      ensures top == old(top)
    {
      ghost var b, rest, size0, f0 := live[j], live[..j] + live[j + 1..], size, f;
      DropLive(live, size, f, base, top, j);
      DropSum(live, j);
      assert LiveAt(b, size, f, base, top);
      ghost var t := Release(ap - 1, b);
      InsertSum(f0, t, b);
      InsertLive(rest, size0, size, f0, base, top, t, b);
      live := rest;
    }

    /** The found branch of malloc: n units from the end of element k, whose predecessor is at prevp. */
    method TakeFrom(prevp: nat, p: nat, n: nat, ghost k: nat) returns (r: nat)
      requires Valid() && freep != 0 && 0 < k < |f| && 0 < n <= f[k].n && p == f[k].a && prevp == f[k - 1].a
      modifies this
      ensures Valid() && freep != 0 && live == old(live) + [Blk(r, n)] && top == old(top)
      ensures Sum(f) + Sum(live) == old(Sum(f) + Sum(live)) && f == Take(old(f), k, n) && r == Taken(old(f)[k], n).a
    {
      ghost var f0, size0, b := f, size, Taken(f[k], n);
      assert Before(f, 0, k - 1);
      TakeSum(f, k, n);
      TakeOk(f, base, k, n);
      SumOne(live, b);
      r := Cut(prevp, p, n, k);
      TakeLive(live, size0, size, f0, base, top, k, n);
      live := live + [b];
      freep := prevp;
    }

    method Cut(prevp: nat, p: nat, n: nat, ghost k: nat) returns (r: nat)
      requires FreeOk(f, base) && Linked(ptr, size, f) && 0 < k < |f| && 0 < n <= f[k].n && p == f[k].a
      requires prevp == f[k - 1].a
      modifies `ptr, `size, `f, `at
      ensures f == Take(old(f), k, n) && Linked(ptr, size, f) && at == k - 1 < |f| && f[at].a == prevp
      ensures r == Taken(old(f)[k], n).a && r in size && size[r] == n
      ensures forall x <- old(size) | x != r && x != p :: x in size && size[x] == old(size)[x]
    {
      assert Node(ptr, size, f, k);
      RemoveIs(f, k);
      r := p;
      if size[p] == n {
        RemoveLinked(ptr, size, f, Take(f, k, n), base, k);
        ptr := ptr[prevp := ptr[p]];
      } else {
        ShrinkLinked(ptr, size, f, base, k, n);
        size := size[p := size[p] - n];
        r := p + size[p];
        size := size[r := n];
      }
      f, at := Take(f, k, n), k - 1;
    }

    /** morecore: brk is what sbrk returns, 0 for an error; new memory lies above all there was.
        The new units are at freep or right after it. */
    method Morecore(nunits: nat, brk: nat) returns (p: nat)
      requires Valid() && freep != 0 && (brk == 0 || brk >= top)
      modifies this
      ensures Valid() && freep != 0 && live == old(live)
      ensures brk == 0 ==> p == 0 && unchanged(this)
      ensures brk != 0 ==> && p == freep && top > old(top) && Sum(f) == old(Sum(f)) + Wanted(nunits)
                           && exists i | 0 <= i < |f| :: f[i].n >= nunits
    {
      var nu := Wanted(nunits);
      if brk == 0 { return 0; }
      ghost var b, f0 := Blk(brk, nu), f;
      size := size[brk := nu];
      top := brk + nu;
      ghost var size1 := size;
      NewCore(live, ptr, old(size), size1, f, base, old(top), b);
      ghost var t := Release(brk, b);
      InsertSum(f0, t, b);
      InsertHas(f0, t, b);
      InsertLive(live, size1, size, f0, base, top, t, b);
      p := freep;
    }

    /** malloc: a block of enough units disjoint from every live one, out of the free ones or of what morecore takes
        for new memory; 0 only if no free block is large enough and sbrk fails. `moved` is by how much the break of
        a process of sz bytes has really moved: by the 16 * got bytes of the units gained if and only if fewer than
        2^27 units are asked for. From there on it moves down, not at all, or up by 16 bytes; the units morecore has
        entered are not backed by memory, and the block comes out of them. */
    method Malloc(nbytes: nat, brk: nat, sz: nat) returns (r: nat, ghost got: nat, moved: int)
      requires Valid() && nbytes < 0x1_0000_0000 && (brk == 0 || brk >= top)
      modifies this
      ensures Valid() && (got == 0 || (brk != 0 && got == Wanted(Units(nbytes))))
      ensures Sum(f) + Sum(live) == old(Sum(f) + Sum(live)) + got
      ensures r != 0 ==> live == old(live) + [Blk(r - 1, Units(nbytes))]
      ensures r == 0 ==> brk == 0 && live == old(live) && f == old(f)
                         && forall i | 0 <= i < |f| :: f[i].n < Units(nbytes)
      ensures got != 0 ==> r != 0 && moved == Moved(sz, ToInt(16 * got))
      ensures got != 0 ==> (moved == 16 * got <==> Units(nbytes) < 0x800_0000)
      ensures got != 0 && Units(nbytes) >= 0x800_0000 ==> moved <= 16
    {
      if freep == 0 { Init(); }
      var asked;
      r, asked := Allocate(Units(nbytes), brk);
      got := if asked then Wanted(Units(nbytes)) else 0;
      moved := if asked then Moved(sz, ToInt(Wanted(Units(nbytes)) * 16)) else 0;
      SbrkArgument(Wanted(Units(nbytes)));
    }

    method Allocate(nunits: nat, brk: nat) returns (r: nat, asked: bool)
      requires Valid() && freep != 0 && 0 < nunits && (brk == 0 || brk >= top)
      modifies this
      ensures Valid() && (asked ==> brk != 0 && r != 0)
      ensures Sum(f) + Sum(live) == old(Sum(f) + Sum(live)) + if asked then Wanted(nunits) else 0
      ensures r != 0 ==> live == old(live) + [Blk(r - 1, nunits)]
      ensures r == 0 ==> brk == 0 && live == old(live) && f == old(f) && forall i | 0 <= i < |f| :: f[i].n < nunits
    {
      var ok, prevp, p; ghost var k;
      ok, prevp, p, k, asked := Search(nunits, brk);
      if !ok { return 0, false; }
      r := TakeBlock(prevp, p, nunits, k);
      r := r + 1;
    }

    method TakeBlock(prevp: nat, p: nat, n: nat, ghost k: nat) returns (r: nat)
      requires Valid() && freep != 0 && 0 < k < |f| && 0 < n <= f[k].n && p == f[k].a && prevp == f[k - 1].a
      modifies this
      ensures Valid() && live == old(live) + [Blk(r, n)] && Sum(f) + Sum(live) == old(Sum(f) + Sum(live))
    {
      r := TakeFrom(prevp, p, n, k);
    }

    /** The first call of malloc: a ring of base alone. */
    method Init()
      requires Valid() && freep == 0
      modifies `ptr, `size, `freep, `at
      ensures Valid() && freep != 0
    {
      freep, at := base, 0;
      ptr, size := ptr[base := base], size[base := 0];
      assert Node(ptr, size, f, 0);
    }

    /** malloc's loop: the first block after freep that is large enough, asking for more memory on
        coming back to freep. The walk from the new freep finds one, so it comes back only once. */
    method Search(nunits: nat, brk: nat) returns (ok: bool, prevp: nat, p: nat, ghost k: nat, asked: bool)
      requires Valid() && freep != 0 && 0 < nunits && (brk == 0 || brk >= top)
      modifies this
      ensures Valid() && freep != 0 && live == old(live) && Sum(f) == old(Sum(f)) + if asked then Wanted(nunits) else 0
      ensures ok ==> 0 < k < |f| && p == f[k].a && prevp == f[k - 1].a && f[k].n >= nunits
      ensures asked ==> brk != 0 && ok
      ensures !ok ==> brk == 0 && f == old(f) && forall i | 0 <= i < |f| :: f[i].n < nunits
    {
      asked := false;
      ok, prevp, p, k := Walk(nunits);
      if !ok {
        p := Morecore(nunits, brk);
        if p == 0 { return; }
        asked := true;
        ok, prevp, p, k := Walk(nunits);
      }
    }

    /** The turns of malloc's loop from freep until a block fits or freep is reached again. */
    method Walk(nunits: nat) returns (ok: bool, prevp: nat, p: nat, ghost k: nat)
      requires Valid() && freep != 0 && 0 < nunits
      ensures ok ==> 0 < k < |f| && p == f[k].a && prevp == f[k - 1].a && f[k].n >= nunits && Passed(f, at, k, nunits)
      ensures !ok ==> forall i | 0 <= i < |f| :: f[i].n < nunits
    {
      prevp := freep;
      p := Follow(prevp, at);
      ghost var j: nat := at;
      k := Succ(at, |f|);
      while size[p] < nunits
        invariant j < |f| && k == Succ(j, |f|) && prevp == f[j].a && p == f[k].a && p in size && size[p] == f[k].n
        invariant Passed(f, at, k, nunits)
        decreases |f| - Dist(at, k, |f|)
      {
        if p == freep {
          SameElement(f, base, k, at);
          AllPassed(f, at, nunits);
          return false, prevp, p, k;
        }
        PassedNext(f, at, k, nunits);
        prevp, j := p, k;
        p := Follow(p, k);
        k := Succ(k, |f|);
      }
      ok := true;
    }

    /** p->s.ptr */
    method Follow(p: nat, ghost k: nat) returns (q: nat)
      requires Valid() && freep != 0 && k < |f| && p == f[k].a
      ensures q == f[Succ(k, |f|)].a && q in size && size[q] == f[Succ(k, |f|)].n
    {
      assert Node(ptr, size, f, k) && Node(ptr, size, f, Succ(k, |f|));
      q := ptr[p];
    }
  }
}
