/** The buffer cache of kernel/bio.c: NBUF buffers on a circular LRU list in front of one
    disk. `disk` changes only through Bwrite, one block at a time, and `writes` records
    every such write in order. `store` is the cache as its users see it: an array of blocks
    that only Modify changes. */
module Bcache {
  import opened Ring

  const NBUF: nat := 30
  const HEAD: nat := NBUF
  const ROOTDEV: nat := 1
  const WORDS: nat := 256                 // BSIZE / sizeof(uint)

  type Block = b: seq<nat> | |b| == WORDS witness seq(WORDS, i => 0)
  type Disk = seq<Block>

  datatype Option<+T> = None | Some(value: T)
  datatype Write = Write(blockno: nat, data: Block)

  /** struct buf; every buffer starts zeroed, so as block 0 of device 0. */
  datatype Buf = Buf(dev: nat, blockno: nat, valid: bool, refcnt: nat, data: Block)

  predicate Caches(b: Buf, blockno: nat) { b.dev == ROOTDEV && b.blockno == blockno }

  /** Each block of the real device has at most one buffer. */
  ghost predicate Unique(bufs: seq<Buf>) {
    forall i, j | 0 <= i < |bufs| && 0 <= j < |bufs| && i != j ::
      !(bufs[i].dev == bufs[j].dev == ROOTDEV && bufs[i].blockno == bufs[j].blockno)
  }

  /** `index` finds the buffer of each cached block. */
  ghost predicate BufOk(b: Buf, i: nat, disk: Disk, dirty: set<nat>, index: map<nat, nat>) {
    && (b.dev == ROOTDEV ==> b.blockno < |disk| && b.blockno in index && index[b.blockno] == i)
    && (b.dev != ROOTDEV ==> !b.valid && b.refcnt == 0)
    && (b.valid && i !in dirty ==> b.data == disk[b.blockno])
    && (i in dirty ==> b.valid && b.refcnt > 0)
  }

  /** `dirty` are the buffers whose data may differ from the disk; they are all referenced. */
  ghost predicate Coherent(bufs: seq<Buf>, disk: Disk, dirty: set<nat>, index: map<nat, nat>) {
    && |bufs| == NBUF && (forall i | 0 <= i < NBUF :: BufOk(bufs[i], i, disk, dirty, index))
    && forall i <- dirty :: i < NBUF
  }

  /** Coherence gives each real block at most one buffer. */
  lemma CoherentIsUnique(bufs: seq<Buf>, disk: Disk, dirty: set<nat>, index: map<nat, nat>)
    requires Coherent(bufs, disk, dirty, index)
    ensures Unique(bufs)
  {
    forall i, j | 0 <= i < NBUF && 0 <= j < NBUF && i != j
      ensures !(bufs[i].dev == bufs[j].dev == ROOTDEV && bufs[i].blockno == bufs[j].blockno)
    {
      assert BufOk(bufs[i], i, disk, dirty, index) && BufOk(bufs[j], j, disk, dirty, index);
    }
  }

  lemma UnusedIsClean(bufs: seq<Buf>, disk: Disk, dirty: set<nat>, index: map<nat, nat>)
    requires Coherent(bufs, disk, dirty, index) && forall i | 0 <= i < NBUF :: bufs[i].refcnt == 0
    ensures dirty == {}
  {
    forall i: nat ensures i !in dirty {
      if i < NBUF { assert BufOk(bufs[i], i, disk, dirty, index); }
    }
  }

  /** The latest content of a block: the buffer's copy if there is one, the disk's otherwise. */
  ghost function Logical(bufs: seq<Buf>, disk: Disk, blockno: nat): Block
    requires blockno < |disk|
  {
    if i :| 0 <= i < |bufs| && Caches(bufs[i], blockno) && bufs[i].valid then bufs[i].data else disk[blockno]
  }

  lemma LogicalOfCached(bufs: seq<Buf>, disk: Disk, i: nat)
    requires Unique(bufs) && i < |bufs| && bufs[i].dev == ROOTDEV && bufs[i].valid && bufs[i].blockno < |disk|
    ensures Logical(bufs, disk, bufs[i].blockno) == bufs[i].data
  {
    assert Caches(bufs[i], bufs[i].blockno);
  }

  lemma LogicalOfUncached(bufs: seq<Buf>, disk: Disk, blockno: nat)
    requires blockno < |disk| && forall i | 0 <= i < |bufs| && bufs[i].valid :: !Caches(bufs[i], blockno)
    ensures Logical(bufs, disk, blockno) == disk[blockno]
  {
  }

  /** Replacing an unreferenced buffer, or filling one from the disk, changes no block's content. */
  lemma LogicalUnchanged(bufs: seq<Buf>, disk: Disk, i: nat, b: Buf, blockno: nat)
    requires i < |bufs| && blockno < |disk| && Unique(bufs) && Unique(bufs[i := b])
    requires Matches(bufs[i], disk) && Matches(b, disk)
    ensures Logical(bufs[i := b], disk, blockno) == Logical(bufs, disk, blockno)
  {
    var after := bufs[i := b];
    if j :| 0 <= j < |bufs| && Caches(bufs[j], blockno) && bufs[j].valid && j != i {
      LogicalOfCached(bufs, disk, j);
      assert after[j] == bufs[j];
      LogicalOfCached(after, disk, j);
    } else {
      CleanIsDisk(bufs, disk, i, blockno);
      CleanIsDisk(after, disk, i, blockno);
    }
  }

  ghost predicate Matches(b: Buf, disk: Disk) {
    b.valid ==> b.blockno < |disk| && b.data == disk[b.blockno]
  }

  lemma CleanIsDisk(bufs: seq<Buf>, disk: Disk, i: nat, blockno: nat)
    requires i < |bufs| && blockno < |disk| && Unique(bufs) && Matches(bufs[i], disk)
    requires forall j | 0 <= j < |bufs| && j != i && bufs[j].valid :: !Caches(bufs[j], blockno)
    ensures Logical(bufs, disk, blockno) == disk[blockno]
  {
    if bufs[i].valid && Caches(bufs[i], blockno) { LogicalOfCached(bufs, disk, i); }
  }

  /** Block n of the store is the block's latest content. */
  ghost predicate StoreAt(bufs: seq<Buf>, disk: Disk, store: Disk, n: nat) {
    n < |disk| == |store| ==> store[n] == Logical(bufs, disk, n)
  }

  ghost predicate StoreOk(bufs: seq<Buf>, disk: Disk, store: Disk) {
    |store| == |disk| && forall n: nat {:trigger StoreAt(bufs, disk, store, n)} :: StoreAt(bufs, disk, store, n)
  }

  ghost predicate Referenced(bufs: seq<Buf>) { forall i | 0 <= i < |bufs| :: bufs[i].refcnt > 0 }

  ghost predicate Cached(bufs: seq<Buf>, blockno: nat) { exists i | 0 <= i < |bufs| :: Caches(bufs[i], blockno) }

  ghost predicate OnRing(ring: seq<nat>, i: nat) { exists j | 1 <= j < |ring| :: ring[j] == i }

  /** The ring runs from the most to the least recently released buffer. */
  ghost predicate Recency(ring: seq<nat>, stamp: seq<nat>, clock: nat) {
    && (forall j | 1 <= j < |ring| :: ring[j] < NBUF)
    && (forall i: nat {:trigger StampAt(stamp, clock, i)} :: StampAt(stamp, clock, i))
    && forall j: nat, k: nat {:trigger Later(ring, stamp, j, k)} :: Later(ring, stamp, j, k)
  }

  ghost predicate StampAt(stamp: seq<nat>, clock: nat, i: nat) { i < |stamp| ==> stamp[i] <= clock }

  ghost predicate Later(ring: seq<nat>, stamp: seq<nat>, j: nat, k: nat) {
    1 <= j < k < |ring| ==> ring[j] < |stamp| && ring[k] < |stamp| && stamp[ring[j]] > stamp[ring[k]]
  }

  class Cache {
    var bufs: seq<Buf>
    var next: seq<nat>
    var prev: seq<nat>
    var disk: Disk
    ghost var ring: seq<nat>        // HEAD, then the buffers from most to least recently released
    ghost var stamp: seq<nat>       // when each buffer last moved to the front
    ghost var clock: nat
    ghost var dirty: set<nat>
    ghost var index: map<nat, nat>  // block number to its buffer
    ghost var writes: seq<Write>
    ghost var store: Disk

    ghost predicate ListOk()
      reads this
    {
      && |ring| == NBUF + 1 && |next| == NBUF + 1 && ring[0] == HEAD && Linked(next, prev, ring)
      && (forall i | 0 <= i < NBUF :: OnRing(ring, i))
      && |stamp| == NBUF && Recency(ring, stamp, clock)
    }

    ghost predicate Valid()
      reads this
    {
      ListOk() && Coherent(bufs, disk, dirty, index) && StoreOk(bufs, disk, store)
    }

    /** binit over a given disk: all buffers zeroed, linked in front of one another. */
    constructor (d: Disk)
      ensures Valid() && disk == d && store == d && writes == [] && dirty == {}
      ensures forall i | 0 <= i < NBUF :: bufs[i].refcnt == 0
    {
      bufs := seq(NBUF, i => Buf(0, 0, false, 0, seq(WORDS, j => 0)));
      next, prev := seq(NBUF + 1, i => HEAD), seq(NBUF + 1, i => HEAD);
      disk, store, dirty, writes, index := d, d, {}, [], map[];
      ring, clock, stamp := [HEAD], NBUF, seq(NBUF, i => i);
      new;
      LinkAll();
      forall i | 0 <= i < NBUF ensures OnRing(ring, i) { assert ring[NBUF - i] == i; }
      forall i: nat ensures StampAt(stamp, clock, i) {}
      forall j: nat, k: nat ensures Later(ring, stamp, j, k) {}
      forall n: nat ensures StoreAt(bufs, disk, store, n) { if n < |d| { LogicalOfUncached(bufs, disk, n); } }
    }

    /** Link the buffers into the list one after the other. */
    method LinkAll()
      requires ring == [HEAD] && next == prev == seq(NBUF + 1, i => HEAD)
      modifies this`next, this`prev, this`ring
      ensures |ring| == NBUF + 1 && ring[0] == HEAD && |next| == NBUF + 1 && Linked(next, prev, ring)
      ensures forall j | 1 <= j <= NBUF :: ring[j] == NBUF - j
    {
      for b := 0 to NBUF
        invariant |ring| == b + 1 && ring[0] == HEAD && |next| == NBUF + 1 && Linked(next, prev, ring)
        invariant forall j | 1 <= j <= b :: ring[j] == b - j
      {
        InsertFront(next, prev, ring, b);
        next, prev := next[b := next[HEAD]], prev[b := HEAD];
        prev := prev[next[HEAD] := b];
        next := next[HEAD := b];
        ring := FrontInserted(ring, b);
      }
    }

    /** Least recently released among the buffers with refcnt 0. */
    ghost predicate Victim(i: nat)
      reads this
      requires |bufs| == NBUF && |stamp| == NBUF
    {
      i < NBUF && bufs[i].refcnt == 0 && forall j | 0 <= j < NBUF && bufs[j].refcnt == 0 :: stamp[i] <= stamp[j]
    }

    /** The first loop of bget: forward from head.next. */
    method FindCached(dev: nat, blockno: nat) returns (r: Option<nat>)
      requires Valid() && dev == ROOTDEV
      ensures r.Some? ==> r.value < NBUF && Caches(bufs[r.value], blockno)
      ensures r.None? ==> !Cached(bufs, blockno)
    {
      var b := next[HEAD];
      ghost var k := 1;
      assert next[ring[0]] == ring[Succ(0, |ring|)];
      while b != HEAD
        invariant 1 <= k <= NBUF + 1 && b == if k == NBUF + 1 then HEAD else ring[k]
        invariant forall j | 1 <= j < k :: !Caches(bufs[ring[j]], blockno)
        decreases NBUF + 1 - k
      {
        if bufs[b].dev == dev && bufs[b].blockno == blockno { return Some(b); }
        assert next[ring[k]] == ring[Succ(k, |ring|)];
        b, k := next[b], k + 1;
      }
      forall i | 0 <= i < NBUF ensures !Caches(bufs[i], blockno) { assert OnRing(ring, i); }
      return None;
    }

    /** The second loop of bget: backward from head.prev. */
    method FindVictim() returns (r: Option<nat>)
      requires Valid()
      ensures r.Some? ==> Victim(r.value)
      ensures r.None? <==> Referenced(bufs)
    {
      var b := prev[HEAD];
      ghost var k := NBUF;
      assert prev[ring[Succ(NBUF, |ring|)]] == ring[NBUF];
      while b != HEAD
        invariant 0 <= k <= NBUF && b == ring[k]
        invariant forall j | k < j <= NBUF :: bufs[ring[j]].refcnt > 0
        decreases k
      {
        if bufs[b].refcnt == 0 {
          forall i | 0 <= i < NBUF && bufs[i].refcnt == 0 ensures stamp[b] <= stamp[i] {
            assert OnRing(ring, i);
            ghost var j :| 1 <= j < |ring| && ring[j] == i;
            assert Later(ring, stamp, j, k);
          }
          return Some(b);
        }
        assert prev[ring[Succ(k - 1, |ring|)]] == ring[k-1];
        b, k := prev[b], k - 1;
      }
      forall i | 0 <= i < NBUF ensures bufs[i].refcnt > 0 { assert OnRing(ring, i); }
      return None;
    }

    /** bget: the block's own buffer if it has one, else the victim, recycled; None is the
        panic "bget: no buffers". */
    method Bget(dev: nat, blockno: nat) returns (r: Option<nat>)
      requires Valid() && dev == ROOTDEV && blockno < |disk|
      modifies this`bufs, this`index
      ensures Valid()
      ensures r.None? <==> !Cached(old(bufs), blockno) && Referenced(old(bufs))
      ensures r.None? ==> bufs == old(bufs)
      ensures r.Some? && Cached(old(bufs), blockno) ==>
                r.value < NBUF && Caches(old(bufs)[r.value], blockno)
                && bufs == old(bufs)[r.value := old(bufs)[r.value].(refcnt := old(bufs)[r.value].refcnt + 1)]
      ensures r.Some? && !Cached(old(bufs), blockno) ==>
                old(Victim(r.value))
                && bufs == old(bufs)[r.value := Buf(dev, blockno, false, 1, old(bufs)[r.value].data)]
    {
      ghost var b0 := bufs;
      CoherentIsUnique(bufs, disk, dirty, index);
      r := FindCached(dev, blockno);
      if r.Some? {
        Count(r.value, bufs[r.value].refcnt + 1);
      } else {
        r := FindVictim();
        if r.Some? {
          index := index[blockno := r.value];
          bufs := bufs[r.value := Buf(dev, blockno, false, 1, bufs[r.value].data)];
          CoherentIsUnique(bufs, disk, dirty, index);
          CleanStore(b0, bufs, disk, store, r.value);
        }
      }
    }

    /** Change a buffer's reference count. */
    method Count(i: nat, refcnt: nat)
      requires Valid() && i < NBUF && (refcnt == 0 ==> i !in dirty) && (refcnt > 0 ==> bufs[i].dev == ROOTDEV)
      modifies this`bufs
      ensures Valid() && bufs == old(bufs)[i := old(bufs)[i].(refcnt := refcnt)]
    {
      ghost var b0 := bufs;
      CoherentIsUnique(bufs, disk, dirty, index);
      bufs := bufs[i := bufs[i].(refcnt := refcnt)];
      CountStore(b0, bufs, disk, store, i);
    }
  
    /** bread: the returned buffer holds the block of the store, whatever was recycled, and the store stays. */
    method Bread(dev: nat, blockno: nat) returns (r: Option<nat>)
      requires Valid() && dev == ROOTDEV && blockno < |disk|
      modifies this`bufs, this`index
      ensures Valid()
      ensures r.None? <==> !Cached(old(bufs), blockno) && Referenced(old(bufs))
      ensures r.None? ==> bufs == old(bufs)
      ensures r.Some? ==>
                var i, before := r.value, old(bufs);
                && i < NBUF && bufs == before[i := bufs[i]]
                && Caches(bufs[i], blockno) && bufs[i].valid && bufs[i].refcnt == before[i].refcnt + 1
                && bufs[i].data == store[blockno]
                && (before[i].refcnt > 0
                    ==> Caches(before[i], blockno) && (before[i].valid ==> bufs[i].data == before[i].data))
      ensures r.Some? ==> forall j | 0 <= j < NBUF && Caches(old(bufs)[j], blockno) :: j == r.value
    {
      r := Bget(dev, blockno);
      if r.None? { return; }
      if !bufs[r.value].valid { Fill(r.value); }
      CoherentIsUnique(bufs, disk, dirty, index);
      CachedIsStore(bufs, disk, store, r.value);
    }

    /** The disk read of bread. */
    method Fill(i: nat)
      requires Valid() && i < NBUF && bufs[i].dev == ROOTDEV && !bufs[i].valid && bufs[i].blockno < |disk|
      modifies this`bufs
      ensures Valid() && bufs == old(bufs)[i := old(bufs)[i].(data := disk[old(bufs)[i].blockno], valid := true)]
    {
      ghost var b0 := bufs;
      CoherentIsUnique(bufs, disk, dirty, index);
      assert BufOk(bufs[i], i, disk, dirty, index);
      bufs := bufs[i := bufs[i].(data := disk[bufs[i].blockno], valid := true)];
      CoherentIsUnique(bufs, disk, dirty, index);
      CleanStore(b0, bufs, disk, store, i);
    }

    /** bwrite: one atomic, ordered disk write. */
    method Bwrite(i: nat)
      requires Valid() && i < NBUF && bufs[i].refcnt > 0 && bufs[i].valid
      modifies this`disk, this`dirty, this`writes
      ensures Valid() && dirty == old(dirty) - {i}
      ensures disk == old(disk)[bufs[i].blockno := bufs[i].data]
      ensures writes == old(writes) + [Write(bufs[i].blockno, bufs[i].data)]
    {
      CoherentIsUnique(bufs, disk, dirty, index);
      WriteStore(bufs, disk, store, i);
      disk := disk[bufs[i].blockno := bufs[i].data];
      writes := writes + [Write(bufs[i].blockno, bufs[i].data)];
      dirty := dirty - {i};
    }

    /** The holder of a buffer changes its data. */
    method Modify(i: nat, data: Block)
      requires Valid() && i < NBUF && bufs[i].refcnt > 0 && bufs[i].valid
      modifies this`bufs, this`dirty, this`store
      ensures Valid() && dirty == old(dirty) + {i} && store == old(store)[bufs[i].blockno := data]
      ensures bufs == old(bufs)[i := old(bufs)[i].(data := data)]
    {
      CoherentIsUnique(bufs, disk, dirty, index);
      ModifyStore(bufs, disk, store, i, data);
      bufs := bufs[i := bufs[i].(data := data)];
      dirty := dirty + {i};
      store := store[bufs[i].blockno := data];
    }

    /** memmove into the buffer, then bwrite. */
    method Overwrite(i: nat, data: Block)
      requires Valid() && i < NBUF && bufs[i].refcnt > 0 && bufs[i].valid
      modifies this`bufs, this`disk, this`dirty, this`writes, this`store
      ensures Valid() && dirty == old(dirty) - {i}
      ensures bufs == old(bufs)[i := old(bufs)[i].(data := data)]
      ensures store == old(store)[bufs[i].blockno := data]
      ensures disk == old(disk)[bufs[i].blockno := data]
      ensures writes == old(writes) + [Write(bufs[i].blockno, data)]
    {
      Modify(i, data);
      Bwrite(i);
    }

    method Bpin(i: nat)
      requires Valid() && i < NBUF && bufs[i].refcnt > 0
      modifies this`bufs
      ensures Valid() && bufs == old(bufs)[i := old(bufs)[i].(refcnt := old(bufs)[i].refcnt + 1)]
    {
      Count(i, bufs[i].refcnt + 1);
    }

    method Bunpin(i: nat)
      requires Valid() && i < NBUF && bufs[i].refcnt > 0 && (i in dirty ==> bufs[i].refcnt > 1)
      modifies this`bufs
      ensures Valid() && bufs == old(bufs)[i := old(bufs)[i].(refcnt := old(bufs)[i].refcnt - 1)]
    {
      Count(i, bufs[i].refcnt - 1);
    }

    /** brelse: drop one reference; at zero the buffer becomes the most recently released. A
        modified buffer must have been written or pinned (log_write) first. */
    method Brelse(i: nat)
      requires Valid() && i < NBUF && bufs[i].refcnt > 0 && (i in dirty ==> bufs[i].refcnt > 1)
      modifies this`bufs, this`next, this`prev, this`ring, this`stamp, this`clock
      ensures Valid() && bufs == old(bufs)[i := old(bufs)[i].(refcnt := old(bufs)[i].refcnt - 1)]
      ensures bufs[i].refcnt == 0 ==>
                ring[1] == i && clock == old(clock) + 1 && stamp == old(stamp)[i := clock]
      ensures bufs[i].refcnt > 0 ==> stamp == old(stamp) && ring == old(ring) && clock == old(clock)
    {
      Count(i, bufs[i].refcnt - 1);
      if bufs[i].refcnt == 0 { MoveToFront(i); }
    }

    /** Two buffers released one after the other. */
    method BrelseBoth(i: nat, j: nat)
      requires Valid() && i < NBUF && j < NBUF && i != j && bufs[i].refcnt > 0 && bufs[j].refcnt > 0
      requires (i in dirty ==> bufs[i].refcnt > 1) && (j in dirty ==> bufs[j].refcnt > 1)
      modifies this`bufs, this`next, this`prev, this`ring, this`stamp, this`clock
      ensures Valid()
      ensures bufs == old(bufs)[i := old(bufs)[i].(refcnt := old(bufs)[i].refcnt - 1)]
                               [j := old(bufs)[j].(refcnt := old(bufs)[j].refcnt - 1)]
    {
      Brelse(i);
      Brelse(j);
    }

    method MoveToFront(i: nat)
      requires ListOk() && i < NBUF
      modifies this`next, this`prev, this`ring, this`stamp, this`clock
      ensures ListOk() && ring[1] == i && clock == old(clock) + 1 && stamp == old(stamp)[i := clock]
    {
      assert OnRing(ring, i);
      ghost var k :| 1 <= k < |ring| && ring[k] == i;
      FrontMove(ring, stamp, clock, k);
      RelinkBuf(i, k);
      ring := FrontInserted(Without(ring, k), i);
      clock := clock + 1;
      stamp := stamp[i := clock];
    }

    method RelinkBuf(i: nat, ghost k: nat)
      requires |next| == NBUF + 1 && Linked(next, prev, ring) && 1 <= k < |ring| && ring[k] == i && ring[0] == HEAD
      modifies this`next, this`prev
      ensures |next| == NBUF + 1 && Linked(next, prev, FrontInserted(Without(ring, k), i))
    {
      ghost var n0, p0 := next, prev;
      Relink(n0, p0, ring, k);
      assert i < |next|;
      prev := prev[next[i] := prev[i]];
      assert prev[i] == p0[i];
      next := next[prev[i] := next[i]];
      next, prev := next[i := next[HEAD]], prev[i := HEAD];
      prev := prev[next[HEAD] := i];
      next := next[HEAD := i];
    }
  }

  /** Moving the k-th node to the front keeps the ring complete and ordered by stamp. */
  lemma FrontMove(ring: seq<nat>, stamp: seq<nat>, clock: nat, k: nat)
    requires |stamp| == NBUF && |ring| == NBUF + 1 && 1 <= k <= NBUF && Recency(ring, stamp, clock)
    requires forall i | 0 <= i < NBUF :: OnRing(ring, i)
    ensures var after := FrontInserted(Without(ring, k), ring[k]);
            && (forall i | 0 <= i < NBUF :: OnRing(after, i))
            && Recency(after, stamp[ring[k] := clock + 1], clock + 1)
  {
    var after, now := FrontInserted(Without(ring, k), ring[k]), clock + 1;
    var s := stamp[ring[k] := now];
    FrontMoveIs(ring, after, k);
    forall i | 0 <= i < NBUF ensures OnRing(after, i) { StillOnRing(ring, after, k, i); }
    forall i: nat ensures StampAt(s, now, i) { assert StampAt(stamp, clock, i); }
    forall j: nat, l: nat ensures Later(after, s, j, l) {
      if 1 <= j < l < |after| { FrontOrder(ring, after, stamp, clock, k, j, l); }
    }
  }

  lemma StillOnRing(ring: seq<nat>, after: seq<nat>, k: nat, i: nat)
    requires FrontMoved(ring, after, k) && OnRing(ring, i)
    ensures OnRing(after, i)
  {
    var j :| 1 <= j < |ring| && ring[j] == i;
    assert after[if j == k then 1 else if j < k then j + 1 else j] == i;
  }

  /** Where the front move puts each node. */
  ghost predicate FrontMoved(ring: seq<nat>, after: seq<nat>, k: nat) {
    && 1 <= k < |ring| && |after| == |ring| && after[1] == ring[k]
    && forall l {:trigger after[l]} | 2 <= l < |ring| :: after[l] == ring[if l - 1 < k then l - 1 else l]
  }

  lemma FrontMoveIs(ring: seq<nat>, after: seq<nat>, k: nat)
    requires 1 <= k < |ring| && after == FrontInserted(Without(ring, k), ring[k])
    ensures FrontMoved(ring, after, k)
  {
  }

  lemma FrontOrder(ring: seq<nat>, after: seq<nat>, stamp: seq<nat>, clock: nat, k: nat, j: nat, l: nat)
    requires |stamp| == NBUF && |ring| == NBUF + 1 && FrontMoved(ring, after, k) && 1 <= j < l <= NBUF
    requires Recency(ring, stamp, clock)
    ensures Later(after, stamp[ring[k] := clock + 1], j, l)
  {
    var l' := if l - 1 < k then l - 1 else l;
    assert after[l] == ring[l'] && Later(ring, stamp, l', k) && Later(ring, stamp, k, l')
             && StampAt(stamp, clock, ring[l']);
    if j > 1 {
      var j' := if j - 1 < k then j - 1 else j;
      assert after[j] == ring[j'] && Later(ring, stamp, j', k) && Later(ring, stamp, k, j')
               && Later(ring, stamp, j', l');
    }
  }

  lemma RefcntOnly(bufs: seq<Buf>, disk: Disk, i: nat, b: Buf, n: nat)
    requires Unique(bufs) && i < |bufs| && b == bufs[i].(refcnt := b.refcnt) && n < |disk|
    ensures Logical(bufs[i := b], disk, n) == Logical(bufs, disk, n)
  {
    var after := bufs[i := b];
    if j :| 0 <= j < |bufs| && Caches(bufs[j], n) && bufs[j].valid {
      LogicalOfCached(bufs, disk, j);
      LogicalOfCached(after, disk, j);
    } else {
      LogicalOfUncached(after, disk, n);
    }
  }

  lemma CachedIsStore(bufs: seq<Buf>, disk: Disk, store: Disk, i: nat)
    requires StoreOk(bufs, disk, store) && Unique(bufs)
    requires i < |bufs| && bufs[i].dev == ROOTDEV && bufs[i].valid && bufs[i].blockno < |disk|
    ensures bufs[i].data == store[bufs[i].blockno]
  {
    assert StoreAt(bufs, disk, store, bufs[i].blockno);
    LogicalOfCached(bufs, disk, i);
  }

  lemma CountStore(before: seq<Buf>, after: seq<Buf>, disk: Disk, store: Disk, i: nat)
    requires StoreOk(before, disk, store) && Unique(before) && i < |before| == |after|
    requires after == before[i := before[i].(refcnt := after[i].refcnt)]
    ensures StoreOk(after, disk, store)
  {
    forall n: nat ensures StoreAt(after, disk, store, n) {
      assert StoreAt(before, disk, store, n);
      if n < |disk| { RefcntOnly(before, disk, i, after[i], n); }
    }
  }

  lemma CleanStore(before: seq<Buf>, after: seq<Buf>, disk: Disk, store: Disk, i: nat)
    requires StoreOk(before, disk, store) && i < |before| == |after| && after == before[i := after[i]]
    requires Unique(before) && Unique(after) && Matches(before[i], disk) && Matches(after[i], disk)
    ensures StoreOk(after, disk, store)
  {
    forall n: nat ensures StoreAt(after, disk, store, n) {
      assert StoreAt(before, disk, store, n);
      if n < |disk| { LogicalUnchanged(before, disk, i, after[i], n); }
    }
  }

  lemma WriteStore(bufs: seq<Buf>, disk: Disk, store: Disk, i: nat)
    requires StoreOk(bufs, disk, store) && Unique(bufs) && i < |bufs| && bufs[i].dev == ROOTDEV && bufs[i].valid
    requires bufs[i].blockno < |disk|
    ensures StoreOk(bufs, disk[bufs[i].blockno := bufs[i].data], store)
  {
    var disk' := disk[bufs[i].blockno := bufs[i].data];
    forall n: nat ensures StoreAt(bufs, disk', store, n) {
      assert StoreAt(bufs, disk, store, n);
      if n < |disk| && n != bufs[i].blockno { SameLogical(bufs, bufs, disk, disk', i, n); }
      LogicalOfCached(bufs, disk, i);
      LogicalOfCached(bufs, disk', i);
    }
  }

  lemma ModifyStore(bufs: seq<Buf>, disk: Disk, store: Disk, i: nat, data: Block)
    requires StoreOk(bufs, disk, store) && Unique(bufs) && i < |bufs| && bufs[i].dev == ROOTDEV && bufs[i].valid
    requires bufs[i].blockno < |disk|
    ensures StoreOk(bufs[i := bufs[i].(data := data)], disk, store[bufs[i].blockno := data])
  {
    var after, store' := bufs[i := bufs[i].(data := data)], store[bufs[i].blockno := data];
    forall n: nat ensures StoreAt(after, disk, store', n) {
      assert StoreAt(bufs, disk, store, n);
      if n < |disk| && n != bufs[i].blockno { SameLogical(bufs, after, disk, disk, i, n); }
      LogicalOfCached(after, disk, i);
    }
  }

  /** Blocks other than buffer i's keep their content. */
  lemma SameLogical(a: seq<Buf>, b: seq<Buf>, disk: Disk, disk': Disk, i: nat, n: nat)
    requires i < |a| == |b| && Unique(a) && b == a[i := a[i].(data := b[i].data)] && n < |disk| == |disk'|
    requires n != a[i].blockno
    requires disk'[n] == disk[n]
    ensures Logical(b, disk', n) == Logical(a, disk, n)
  {
    if j :| 0 <= j < |a| && Caches(a[j], n) && a[j].valid {
      assert b[j] == a[j];
      LogicalOfCached(a, disk, j);
      LogicalOfCached(b, disk', j);
    } else {
      LogicalOfUncached(b, disk', n);
    }
  }
}
