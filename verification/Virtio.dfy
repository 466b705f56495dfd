/** The descriptor and ring book-keeping of kernel/virtio_disk.c (sections 2.6 and 5.2 of Virtio
    1.1). Every method is one critical section under vdisk_lock, or one step of the device;
    calling them in any order gives every interleaving. */
module Virtio {
  const NUM: nat := 8

  /** What a descriptor points to. */
  datatype Addr = Nothing | Header(h: nat) | Data(b: nat) | StatusOf(h: nat)

  datatype Desc = Desc(addr: Addr, more: bool, deviceWrites: bool, next: nat)

  const ZERO_DESC := Desc(Nothing, false, false, 0)

  /** A request: its three descriptors and its buffer. */
  datatype Chain = Chain(d0: nat, d1: nat, d2: nat, b: nat, write: bool)

  /** Offered in the avail ring, taken by the device, posted in the used ring, seen by the
      interrupt handler. */
  datatype Phase = Offered | Taken | Posted | Seen

  // ---------- Descriptors and chains ----------

  predicate InChain(c: Chain, d: nat) { d == c.d0 || d == c.d1 || d == c.d2 }

  /** The three-link chain of request c is laid out in the descriptor table. */
  ghost predicate Laid(desc: seq<Desc>, c: Chain) {
    && |desc| == NUM && c.d0 < NUM && c.d1 < NUM && c.d2 < NUM && c.d0 != c.d1 && c.d1 != c.d2 && c.d0 != c.d2
    && desc[c.d0] == Desc(Header(c.d0), true, false, c.d1)
    && desc[c.d1] == Desc(Data(c.b), true, !c.write, c.d2)
    && desc[c.d2] == Desc(StatusOf(c.d0), false, true, 0)
  }

  ghost predicate ChainAt(desc: seq<Desc>, infoB: seq<nat>, chains: map<nat, Chain>, owner: map<nat, nat>, h: nat) {
    h in chains ==>
      var c := chains[h];
      && c.d0 == h && Laid(desc, c) && |infoB| == NUM && infoB[h] == c.b && c.b != 0
      && (forall d {:trigger InChain(c, d)} | InChain(c, d) :: d in owner && owner[d] == h)
  }

  ghost predicate DescAt(free: seq<bool>, desc: seq<Desc>, chains: map<nat, Chain>, owner: map<nat, nat>, d: nat) {
    && (d in owner ==> d < NUM && owner[d] in chains && InChain(chains[owner[d]], d))
    && (d < NUM ==> |free| == NUM && |desc| == NUM && (free[d] <==> d !in owner) && (free[d] ==> desc[d] == ZERO_DESC))
  }

  /** Each descriptor is free (and blank) or in exactly one chain of one request, and no two requests share a buffer. */
  ghost predicate Chains(free: seq<bool>, desc: seq<Desc>, infoB: seq<nat>, chains: map<nat, Chain>,
                         owner: map<nat, nat>) {
    && |free| == |desc| == |infoB| == NUM
    && (forall h: nat {:trigger ChainAt(desc, infoB, chains, owner, h)} :: ChainAt(desc, infoB, chains, owner, h))
    && (forall d: nat {:trigger DescAt(free, desc, chains, owner, d)} :: DescAt(free, desc, chains, owner, d))
    && OwnBuffers(chains)
  }

  ghost predicate OwnBuffers(chains: map<nat, Chain>) {
    forall g: nat, h: nat {:trigger TwoBuffers(chains, g, h)} :: TwoBuffers(chains, g, h)
  }

  ghost predicate TwoBuffers(chains: map<nat, Chain>, g: nat, h: nat) {
    g in chains && h in chains && g != h ==> chains[g].b != chains[h].b
  }

  /** No pending request has buffer b. */
  ghost predicate Fresh(chains: map<nat, Chain>, b: nat) {
    forall g: nat {:trigger HasBuffer(chains, g, b)} :: !HasBuffer(chains, g, b)
  }

  ghost predicate HasBuffer(chains: map<nat, Chain>, g: nat, b: nat) { g in chains && chains[g].b == b }

  // ---------- Rings ----------

  /** The entries from index i on hold q; indices are 16 bits wide and the rings have NUM slots. */
  ghost predicate RingHolds(ring: seq<nat>, i: nat, q: seq<nat>) {
    |ring| == NUM && forall k: nat {:trigger EntryAt(ring, i, q, k)} :: EntryAt(ring, i, q, k)
  }

  ghost predicate EntryAt(ring: seq<nat>, i: nat, q: seq<nat>, k: nat)
    requires |ring| == NUM
  {
    k < |q| ==> ring[(i + k) % 8] == q[k]
  }

  ghost predicate Distinct(q: seq<nat>) {
    forall i: nat, j: nat {:trigger Differ(q, i, j)} :: Differ(q, i, j)
  }

  ghost predicate Differ(q: seq<nat>, i: nat, j: nat) { i < j < |q| ==> q[i] != q[j] }

  /** q lists exactly the heads in phase p, each once. */
  ghost predicate Lists(q: seq<nat>, phase: map<nat, Phase>, p: Phase) {
    Distinct(q) && forall h: nat {:trigger Listed(q, phase, p, h)} :: Listed(q, phase, p, h)
  }

  ghost predicate Listed(q: seq<nat>, phase: map<nat, Phase>, p: Phase, h: nat) {
    (h in q ==> h < NUM) && (h in q <==> h in phase && phase[h] == p)
  }

  ghost function ToSet(q: seq<nat>): set<nat> { set h <- q }

  lemma {:induction false} DistinctSize(q: seq<nat>)
    requires Distinct(q)
    ensures |ToSet(q)| == |q|
    decreases |q|
  {
    if q == [] {
    } else {
      var n := |q| - 1;
      forall i: nat, j: nat ensures Differ(q[..n], i, j) { assert Differ(q, i, j); }
      DistinctSize(q[..n]);
      assert ToSet(q) == ToSet(q[..n]) + {q[n]};
      forall i | 0 <= i < n ensures q[i] != q[n] { assert Differ(q, i, n); }
    }
  }

  /** Distinct heads other than h leave a ring slot unused. */
  lemma RoomInRing(q: seq<nat>, h: nat)
    requires Distinct(q) && h < NUM && h !in q && forall x <- q :: x < NUM
    ensures |q| < NUM
  {
    DistinctSize(q);
    var all := {0, 1, 2, 3, 4, 5, 6, 7};
    assert ToSet(q) <= all - {h};
    Subset(ToSet(q), all - {h});
  }

  lemma Subset(a: set<nat>, b: set<nat>)
    requires a <= b
    ensures |a| <= |b|
  {
    assert b == a + (b - a);
  }

  /** Writing the slot after q overwrites none of q's entries. */
  lemma RingPush(ring: seq<nat>, i: nat, q: seq<nat>, h: nat)
    requires RingHolds(ring, i, q) && |q| < NUM
    ensures RingHolds(ring[(i + |q|) % 8 := h], i, q + [h])
  {
    var ring', q' := ring[(i + |q|) % 8 := h], q + [h];
    forall k: nat ensures EntryAt(ring', i, q', k) {
      assert EntryAt(ring, i, q, k) && (k < |q| ==> (i + k) % 8 != (i + |q|) % 8);
    }
  }

  /** 65536 is a multiple of 8, so wrapping the index does not move the slot. */
  lemma WrapSlot(i: nat, k: nat)
    requires i < 65536
    ensures ((i + 1) % 65536 + k) % 8 == (i + (k + 1)) % 8
  {
    if i == 65535 { assert i + (k + 1) == k + 8 * 8192; }
  }

  lemma RingPop(ring: seq<nat>, i: nat, i': nat, q: seq<nat>)
    requires RingHolds(ring, i, q) && q != [] && i < 65536 && i' == (i + 1) % 65536
    ensures ring[i % 8] == q[0] && RingHolds(ring, i', q[1..])
  {
    assert EntryAt(ring, i, q, 0);
    var q' := q[1..];
    forall k: nat ensures EntryAt(ring, i', q', k) {
      assert EntryAt(ring, i, q, k + 1);
      WrapSlot(i, k);
    }
  }

  // ---------- Requests ----------

  lemma AddChain(free: seq<bool>, desc: seq<Desc>, infoB: seq<nat>, chains: map<nat, Chain>, owner: map<nat, nat>,
                 c: Chain, free': seq<bool>, desc': seq<Desc>)
    requires Chains(free, desc, infoB, chains, owner) && Laid(desc', c) && c.b != 0
    requires free[c.d0] && free[c.d1] && free[c.d2] && Fresh(chains, c.b)
    requires free' == free[c.d0 := false][c.d1 := false][c.d2 := false]
    requires |desc'| == NUM && forall d | 0 <= d < NUM && !InChain(c, d) :: desc'[d] == desc[d]
    ensures c.d0 !in chains
    ensures Chains(free', desc', infoB[c.d0 := c.b], chains[c.d0 := c], owner[c.d0 := c.d0][c.d1 := c.d0][c.d2 := c.d0])
  {
    var infoB', chains', owner' := infoB[c.d0 := c.b], chains[c.d0 := c],
                                     owner[c.d0 := c.d0][c.d1 := c.d0][c.d2 := c.d0];
    assert DescAt(free, desc, chains, owner, c.d0) && DescAt(free, desc, chains, owner, c.d1)
             && DescAt(free, desc, chains, owner, c.d2);
    assert ChainAt(desc, infoB, chains, owner, c.d0) && (c.d0 in chains ==> InChain(chains[c.d0], c.d0));
    forall h: nat ensures ChainAt(desc', infoB', chains', owner', h) {
      assert ChainAt(desc, infoB, chains, owner, h);
      if h in chains {
        assert InChain(chains[h], chains[h].d0) && InChain(chains[h], chains[h].d1) && InChain(chains[h], chains[h].d2);
      }
    }
    forall d: nat ensures DescAt(free', desc', chains', owner', d) { assert DescAt(free, desc, chains, owner, d); }
    forall g: nat, h: nat ensures TwoBuffers(chains', g, h) {
      assert TwoBuffers(chains, g, h) && !HasBuffer(chains, g, c.b) && !HasBuffer(chains, h, c.b);
    }
  }

  lemma DropChain(free: seq<bool>, desc: seq<Desc>, infoB: seq<nat>, chains: map<nat, Chain>, owner: map<nat, nat>,
                  h: nat, free': seq<bool>, desc': seq<Desc>)
    requires Chains(free, desc, infoB, chains, owner) && h in chains && h < NUM && Laid(desc, chains[h])
    requires var c := chains[h]; free' == free[c.d0 := true][c.d1 := true][c.d2 := true]
                                 && desc' == desc[c.d0 := ZERO_DESC][c.d1 := ZERO_DESC][c.d2 := ZERO_DESC]
    ensures var c := chains[h]; Chains(free', desc', infoB[h := 0], chains - {h}, owner - {c.d0, c.d1, c.d2})
  {
    var c := chains[h];
    var infoB', chains', owner' := infoB[h := 0], chains - {h}, owner - {c.d0, c.d1, c.d2};
    assert ChainAt(desc, infoB, chains, owner, h) && InChain(c, c.d0) && InChain(c, c.d1) && InChain(c, c.d2);
    forall g: nat ensures ChainAt(desc', infoB', chains', owner', g) {
      assert ChainAt(desc, infoB, chains, owner, g);
      if g in chains {
        assert InChain(chains[g], chains[g].d0) && InChain(chains[g], chains[g].d1) && InChain(chains[g], chains[g].d2);
      }
    }
    forall d: nat ensures DescAt(free', desc', chains', owner', d) {
      assert DescAt(free, desc, chains, owner, d);
      assert d in owner && owner[d] == h ==> InChain(c, d);
    }
    forall x: nat, y: nat ensures TwoBuffers(chains', x, y) { assert TwoBuffers(chains, x, y); }
  }

  /** b->disk is set exactly until the interrupt for its request. */
  ghost predicate BusyAt(chains: map<nat, Chain>, phase: map<nat, Phase>, busy: set<nat>, status: seq<nat>, h: nat) {
    h in chains && h in phase ==>
      (chains[h].b in busy <==> phase[h] != Seen) && (phase[h] == Posted ==> h < |status|)
  }

  ghost predicate Busy(chains: map<nat, Chain>, phase: map<nat, Phase>, busy: set<nat>, status: seq<nat>) {
    && phase.Keys == chains.Keys && |status| == NUM
    && forall h: nat {:trigger BusyAt(chains, phase, busy, status, h)} :: BusyAt(chains, phase, busy, status, h)
  }

  lemma BusyStart(chains: map<nat, Chain>, phase: map<nat, Phase>, busy: set<nat>, status: seq<nat>, h: nat, c: Chain)
    requires Busy(chains, phase, busy, status) && h !in chains && h < NUM && Fresh(chains, c.b)
    ensures Busy(chains[h := c], phase[h := Offered], busy + {c.b}, status[h := 0xff])
  {
    var chains', phase', busy', status' := chains[h := c], phase[h := Offered], busy + {c.b}, status[h := 0xff];
    forall g: nat ensures BusyAt(chains', phase', busy', status', g) {
      assert BusyAt(chains, phase, busy, status, g) && !HasBuffer(chains, g, c.b);
    }
  }

  lemma BusyDevice(chains: map<nat, Chain>, phase: map<nat, Phase>, busy: set<nat>, status: seq<nat>, h: nat,
                   result: nat)
    requires Busy(chains, phase, busy, status) && h in phase && h < NUM
    ensures phase[h] == Offered ==> Busy(chains, phase[h := Taken], busy, status)
    ensures phase[h] == Taken ==> Busy(chains, phase[h := Posted], busy, status[h := result])
  {
    var taken, posted, status' := phase[h := Taken], phase[h := Posted], status[h := result];
    forall g: nat ensures phase[h] == Offered ==> BusyAt(chains, taken, busy, status, g) {
      assert BusyAt(chains, phase, busy, status, g);
    }
    forall g: nat ensures phase[h] == Taken ==> BusyAt(chains, posted, busy, status', g) {
      assert BusyAt(chains, phase, busy, status, g);
    }
  }

  /** Clearing b->disk when the completion is seen touches no other request. */
  lemma BusySeen(chains: map<nat, Chain>, phase: map<nat, Phase>, busy: set<nat>, status: seq<nat>, h: nat)
    requires Busy(chains, phase, busy, status) && h in phase && phase[h] == Posted
    requires OwnBuffers(chains)
    ensures h < NUM && Busy(chains, phase[h := Seen], busy - {chains[h].b}, status)
  {
    var phase', busy' := phase[h := Seen], busy - {chains[h].b};
    assert BusyAt(chains, phase, busy, status, h);
    forall g: nat ensures BusyAt(chains, phase', busy', status, g) {
      assert BusyAt(chains, phase, busy, status, g) && TwoBuffers(chains, g, h);
    }
  }

  lemma BusyGone(chains: map<nat, Chain>, phase: map<nat, Phase>, busy: set<nat>, status: seq<nat>, h: nat)
    requires Busy(chains, phase, busy, status)
    ensures Busy(chains - {h}, phase - {h}, busy, status)
  {
    var chains', phase' := chains - {h}, phase - {h};
    forall g: nat ensures BusyAt(chains', phase', busy, status, g) { assert BusyAt(chains, phase, busy, status, g); }
  }

  /** The device reported success for request h. */
  predicate Succeeded(status: seq<nat>, h: nat) { h < |status| && status[h] == 0 }

  /** Exactly the completions in `done` have been seen: those requests are Seen, their buffers no longer
      busy, and all others as before. */
  ghost predicate SeenAll(phase0: map<nat, Phase>, phase: map<nat, Phase>, busy0: set<nat>, busy: set<nat>,
                          chains: map<nat, Chain>, done: seq<nat>) {
    && phase == (map h <- phase0 :: if h in done then Seen else phase0[h])
    && busy == busy0 - (set h <- done | h in chains :: chains[h].b)
  }

  lemma SeenNext(phase0: map<nat, Phase>, phase: map<nat, Phase>, busy0: set<nat>, busy: set<nat>,
                 chains: map<nat, Chain>, all: seq<nat>, n: nat)
    requires n < |all| && SeenAll(phase0, phase, busy0, busy, chains, all[..n]) && all[n] in chains && all[n] in phase
    ensures SeenAll(phase0, phase[all[n] := Seen], busy0, busy - {chains[all[n]].b}, chains, all[..n + 1])
  {
    assert all[..n + 1] == all[..n] + [all[n]];
  }

  /** The first n of the posted requests have been taken, each with status 0; posted are the ones still to come. */
  ghost predicate Processed(phase0: map<nat, Phase>, phase: map<nat, Phase>, busy0: set<nat>, busy: set<nat>,
                            chains: map<nat, Chain>, status: seq<nat>, all: seq<nat>, posted: seq<nat>, n: nat) {
    && n <= |all| && posted == all[n..] && SeenAll(phase0, phase, busy0, busy, chains, all[..n])
    && forall h <- all[..n] :: Succeeded(status, h)
  }

  lemma ProcessedNext(phase0: map<nat, Phase>, phase: map<nat, Phase>, busy0: set<nat>, busy: set<nat>,
                      chains: map<nat, Chain>, status: seq<nat>, all: seq<nat>, posted: seq<nat>, n: nat)
    requires Processed(phase0, phase, busy0, busy, chains, status, all, posted, n)
    requires posted != [] && posted[0] in chains && posted[0] in phase && Succeeded(status, posted[0])
    ensures var h := posted[0];
            Processed(phase0, phase[h := Seen], busy0, busy - {chains[h].b}, chains, status, all, posted[1..], n + 1)
  {
    SeenNext(phase0, phase, busy0, busy, chains, all, n);
    assert all[..n + 1] == all[..n] + [all[n]];
  }

  /** Between the 16-bit indices from and to, the ring holds q, the heads in phase p. */
  ghost predicate Queue(ring: seq<nat>, from: nat, to: nat, q: seq<nat>, phase: map<nat, Phase>, p: Phase) {
    RingHolds(ring, from, q) && Lists(q, phase, p) && from < 65536 && to == (from + |q|) % 65536
  }

  /** The slot written for a new entry holds no unread one, however often the index has wrapped. */
  lemma QueuePush(ring: seq<nat>, from: nat, to: nat, q: seq<nat>, phase: map<nat, Phase>, p: Phase, h: nat)
    requires Queue(ring, from, to, q, phase, p) && h < NUM && (h in phase ==> phase[h] != p)
    ensures h !in q && Queue(ring[to % 8 := h], from, (to + 1) % 65536, q + [h], phase[h := p], p)
  {
    var q', phase' := q + [h], phase[h := p];
    assert Listed(q, phase, p, h);
    forall x: nat ensures (x in q ==> x < NUM) && Listed(q', phase', p, x) { assert Listed(q, phase, p, x); }
    forall i: nat, j: nat ensures Differ(q', i, j) { assert Differ(q, i, j); }
    RoomInRing(q, h);
    RingPush(ring, from, q, h);
    assert to % 8 == (from + |q|) % 8;
  }

  /** The indices differ exactly when something is unread, and then the slot at from holds the oldest. */
  lemma QueuePop(ring: seq<nat>, from: nat, to: nat, q: seq<nat>, phase: map<nat, Phase>, p: Phase, other: Phase)
    requires Queue(ring, from, to, q, phase, p) && other != p
    ensures q == [] <==> from == to
    ensures q != [] ==> && q[0] < NUM && q[0] in phase && phase[q[0]] == p && ring[from % 8] == q[0]
                        && Queue(ring, (from + 1) % 65536, to, q[1..], phase[q[0] := other], p)
  {
    if q != [] {
      forall i: nat, j: nat ensures Differ(q[1..], i, j) { assert Differ(q, i + 1, j + 1); }
      forall x | x == q[0] || x in q[1..] ensures x in q && x < NUM { assert Listed(q, phase, p, x); }
      assert q[0] !in q[1..] by {
        forall i | 0 <= i < |q| - 1 ensures q[1..][i] != q[0] { assert Differ(q, 0, i + 1); }
      }
      RoomInRing(q[1..], q[0]);
      RingPop(ring, from, (from + 1) % 65536, q);
      ListsPop(q, phase, p, other);
    }
  }

  lemma QueueOther(ring: seq<nat>, from: nat, to: nat, q: seq<nat>, phase: map<nat, Phase>, p: Phase, h: nat,
                   other: Phase)
    requires Queue(ring, from, to, q, phase, p) && (h in phase ==> phase[h] != p) && other != p
    ensures Queue(ring, from, to, q, phase[h := other], p) && Queue(ring, from, to, q, phase - {h}, p)
  {
    var moved, gone := phase[h := other], phase - {h};
    forall x: nat ensures Listed(q, moved, p, x) && Listed(q, gone, p, x) { assert Listed(q, phase, p, x); }
  }

  lemma ListsPop(q: seq<nat>, phase: map<nat, Phase>, p: Phase, other: Phase)
    requires Lists(q, phase, p) && q != [] && other != p
    ensures q[0] in phase && phase[q[0]] == p && Lists(q[1..], phase[q[0] := other], p)
  {
    var q', phase' := q[1..], phase[q[0] := other];
    assert q[0] in q && Listed(q, phase, p, q[0]);
    forall i: nat, j: nat ensures Differ(q', i, j) { assert Differ(q, i + 1, j + 1); }
    forall h: nat ensures Listed(q', phase', p, h) {
      assert Listed(q, phase, p, h);
      if h in q' { var i :| 0 <= i < |q'| && q'[i] == h; assert Differ(q, 0, i + 1) && h == q[i + 1]; }
      if h in q && h != q[0] { var i :| 0 <= i < |q| && q[i] == h; assert q'[i - 1] == h; }
    }
  }

  class Disk {
    var free: seq<bool>
    var desc: seq<Desc>
    var infoB: seq<nat>                      // disk.info[i].b, 0 is null
    var status: seq<nat>                     // disk.info[i].status
    var availRing: seq<nat>
    var availIdx: nat                        // avail->idx, 16 bits
    var usedRing: seq<nat>
    var usedIdx: nat                         // used->idx, 16 bits, the device's
    var seenIdx: nat                         // disk.used_idx, 16 bits
    var deviceIdx: nat                       // how far the device has read avail, 16 bits
    var busy: set<nat>                       // buffers with b->disk == 1
    ghost var chains: map<nat, Chain>
    ghost var owner: map<nat, nat>
    ghost var phase: map<nat, Phase>
    ghost var offered: seq<nat>
    ghost var posted: seq<nat>

    ghost predicate Valid()
      reads this
    {
      Chains(free, desc, infoB, chains, owner) && Rings()
    }

    /** The rings hold exactly the requests in the phases they stand for. */
    ghost predicate Rings()
      reads this
    {
      && Busy(chains, phase, busy, status)
      && Queue(availRing, deviceIdx, availIdx, offered, phase, Offered)
      && Queue(usedRing, seenIdx, usedIdx, posted, phase, Posted)
    }

    /** virtio_disk_init's share: nothing in flight. */
    constructor ()
      ensures Valid() && chains == map[] && busy == {}
    {
      free, desc, infoB, status := seq(NUM, i => true), seq(NUM, i => ZERO_DESC), seq(NUM, i => 0), seq(NUM, i => 0);
      availRing, usedRing := seq(NUM, i => 0), seq(NUM, i => 0);
      availIdx, usedIdx, seenIdx, deviceIdx, busy := 0, 0, 0, 0, {};
      chains, owner, phase, offered, posted := map[], map[], map[], [], [];
    }

    /** alloc_desc: the lowest free descriptor, or NUM for none. */
    method AllocDesc() returns (r: nat)
      requires |free| == NUM
      modifies `free
      ensures r <= NUM && |free| == NUM && (forall i | 0 <= i < r :: !old(free)[i])
      ensures r < NUM ==> old(free)[r] && free == old(free)[r := false]
      ensures r == NUM ==> free == old(free)
    {
      for i := 0 to NUM
        invariant free == old(free) && forall j | 0 <= j < i :: !free[j]
      {
        if free[i] {
          free := free[i := false];
          return i;
        }
      }
      return NUM;
    }

    /** free_desc: the requires are its panics. */
    method FreeDesc(i: nat)
      requires |free| == |desc| == NUM && i < NUM && !free[i]
      modifies `free, `desc
      ensures free == old(free)[i := true] && desc == old(desc)[i := ZERO_DESC]
    {
      desc := desc[i := ZERO_DESC];
      free := free[i := true];
    }

    /** alloc3_desc: three different free descriptors, or no change when fewer are free. */
    method Alloc3() returns (ok: bool, a: nat, b: nat, c: nat)
      requires |free| == |desc| == NUM && forall d | 0 <= d < NUM && free[d] :: desc[d] == ZERO_DESC
      modifies `free, `desc
      ensures desc == old(desc)
      ensures ok ==> && a < NUM && b < NUM && c < NUM && a != b && b != c && a != c && old(free)[a] && old(free)[b]
                     && old(free)[c]
                     && free == old(free)[a := false][b := false][c := false]
      ensures !ok ==> free == old(free) && forall x, y, z | 0 <= x < y < z < NUM :: !(free[x] && free[y] && free[z])
    {
      b, c := NUM, NUM;
      a := AllocDesc();
      if a == NUM { return false, a, b, c; }
      b := AllocDesc();
      if b < NUM { c := AllocDesc(); }
      if c < NUM { return true, a, b, c; }
      FreeDesc(a);
      if b < NUM { FreeDesc(b); }
      assert free == old(free) && desc == old(desc);
      return false, a, b, c;
    }

    /** free_chain: follows the links of the chain from its head and frees exactly those. */
    method FreeChain(h: nat, ghost c: Chain)
      requires |free| == NUM && Laid(desc, c) && c.d0 == h && !free[c.d0] && !free[c.d1] && !free[c.d2]
      modifies `free, `desc
      ensures free == old(free)[c.d0 := true][c.d1 := true][c.d2 := true]
      ensures desc == old(desc)[c.d0 := ZERO_DESC][c.d1 := ZERO_DESC][c.d2 := ZERO_DESC]
    {
      var i, go := h, true;
      ghost var k := 0;
      while go
        invariant |free| == |desc| == NUM && k <= 3 && (go <==> k < 3)
        invariant k == 0 ==> i == c.d0 && free == old(free) && desc == old(desc)
        invariant k == 1 ==> i == c.d1 && free == old(free)[c.d0 := true] && desc == old(desc)[c.d0 := ZERO_DESC]
        invariant k == 2 ==> i == c.d2 && free == old(free)[c.d0 := true][c.d1 := true]
                             && desc == old(desc)[c.d0 := ZERO_DESC][c.d1 := ZERO_DESC]
        invariant k == 3 ==> free == old(free)[c.d0 := true][c.d1 := true][c.d2 := true]
                             && desc == old(desc)[c.d0 := ZERO_DESC][c.d1 := ZERO_DESC][c.d2 := ZERO_DESC]
        decreases 3 - k
      {
        var more, next := desc[i].more, desc[i].next;
        FreeDesc(i);
        k := k + 1;
        if more { i := next; } else { go := false; }
      }
    }

    /** virtio_disk_rw up to the notification: false (it would sleep) when fewer than three
        descriptors are free, else the request's chain is laid out and offered. */
    method Start(b: nat, write: bool) returns (ok: bool, h: nat)
      requires Valid() && b != 0 && Fresh(chains, b)
      modifies this
      ensures Valid() && posted == old(posted)
      ensures !ok ==> chains == old(chains) && phase == old(phase) && busy == old(busy)
                      && forall x, y, z | 0 <= x < y < z < NUM :: !(free[x] && free[y] && free[z])
      ensures ok ==> && h !in old(chains) && h in chains && chains == old(chains)[h := chains[h]] && chains[h].b == b
                     && chains[h].write == write
                     && phase == old(phase)[h := Offered] && offered == old(offered) + [h] && busy == old(busy) + {b}
    {
      forall d | 0 <= d < NUM && free[d] ensures desc[d] == ZERO_DESC { assert DescAt(free, desc, chains, owner, d); }
      ghost var free0, desc0 := free, desc;
      var i1, i2;
      ok, h, i1, i2 := Alloc3();
      if !ok { return; }
      ghost var c := Chain(h, i1, i2, b, write);
      LayOut(h, i1, i2, b, write);
      assert chains == old(chains) && owner == old(owner) && infoB == old(infoB) && Rings();
      AddChain(free0, desc0, infoB, chains, owner, c, free, desc);
      Publish(h, b, c, owner[c.d0 := h][c.d1 := h][c.d2 := h]);
    }

    method LayOut(i0: nat, i1: nat, i2: nat, b: nat, write: bool)
      requires |desc| == NUM && i0 < NUM && i1 < NUM && i2 < NUM && i0 != i1 && i1 != i2 && i0 != i2
      modifies `desc
      ensures Laid(desc, Chain(i0, i1, i2, b, write))
      ensures forall d | 0 <= d < NUM && !InChain(Chain(i0, i1, i2, b, write), d) :: desc[d] == old(desc)[d]
    {
      desc := desc[i0 := Desc(Header(i0), true, false, i1)];
      desc := desc[i1 := Desc(Data(b), true, !write, i2)];
      desc := desc[i2 := Desc(StatusOf(i0), false, true, 0)];
    }

    /** Recording the buffer and offering the head h. */
    method Publish(h: nat, b: nat, ghost c: Chain, ghost owner': map<nat, nat>)
      requires h == c.d0 < NUM && h !in chains && b == c.b != 0 && Fresh(chains, b) && Rings()
      requires |infoB| == NUM && Chains(free, desc, infoB[h := b], chains[h := c], owner')
      modifies `status, `busy, `infoB, `availRing, `availIdx, `chains, `phase, `offered, `owner
      ensures Valid() && chains == old(chains)[h := c] && phase == old(phase)[h := Offered]
      ensures offered == old(offered) + [h]
      ensures busy == old(busy) + {b}
    {
      Offer(h);
      QueueOther(usedRing, seenIdx, usedIdx, posted, phase, Posted, h, Offered);
      BusyStart(chains, phase, busy, status, h, c);
      Record(h, b, chains[h := c], phase[h := Offered], owner');
    }

    method Record(h: nat, b: nat, ghost chains': map<nat, Chain>, ghost phase': map<nat, Phase>,
                  ghost owner': map<nat, nat>)
      requires h < |infoB| && h < |status| && Chains(free, desc, infoB[h := b], chains', owner')
      requires Busy(chains', phase', busy + {b}, status[h := 0xff])
      requires Queue(availRing, deviceIdx, availIdx, offered, phase', Offered)
      requires Queue(usedRing, seenIdx, usedIdx, posted, phase', Posted)
      modifies `status, `busy, `infoB, `chains, `phase, `owner
      ensures Valid() && chains == chains' && phase == phase' && busy == old(busy) + {b}
    {
      status := status[h := 0xff];
      busy := busy + {b};
      infoB := infoB[h := b];
      chains, phase, owner := chains', phase', owner';
    }

    method Offer(h: nat)
      requires Queue(availRing, deviceIdx, availIdx, offered, phase, Offered) && h < NUM && h !in phase
      modifies `availRing, `availIdx, `offered
      ensures offered == old(offered) + [h]
      ensures Queue(availRing, deviceIdx, availIdx, offered, phase[h := Offered], Offered)
    {
      QueuePush(availRing, deviceIdx, availIdx, offered, phase, Offered, h);
      availRing := availRing[availIdx % 8 := h];
      availIdx := (availIdx + 1) % 65536;
      offered := offered + [h];
    }

    /** The device takes the next offered request, whose chain is as the driver laid it out. */
    method DeviceTake() returns (ok: bool, h: nat)
      requires Valid()
      modifies `deviceIdx, `phase, `offered
      ensures Valid() && (ok <==> old(offered) != [])
      ensures ok ==> h == old(offered)[0] && h in chains && Laid(desc, chains[h]) && offered == old(offered)[1..]
                     && phase == old(phase)[h := Taken]
      ensures !ok ==> offered == old(offered) && phase == old(phase)
    {
      h := 0;
      ok := deviceIdx != availIdx;
      QueuePop(availRing, deviceIdx, availIdx, offered, phase, Offered, Taken);
      if !ok { return; }
      h := availRing[deviceIdx % 8];
      QueueOther(usedRing, seenIdx, usedIdx, posted, phase, Posted, h, Taken);
      BusyDevice(chains, phase, busy, status, h, 0);
      assert ChainAt(desc, infoB, chains, owner, h);
      deviceIdx := (deviceIdx + 1) % 65536;
      phase, offered := phase[h := Taken], offered[1..];
    }

    /** The device completes a request it has taken, in any order. */
    method DeviceDone(h: nat, result: nat)
      requires Valid() && h in phase && phase[h] == Taken
      modifies `status, `usedRing, `usedIdx, `phase, `posted
      ensures Valid() && phase == old(phase)[h := Posted] && posted == old(posted) + [h]
      ensures h < |old(status)| && status == old(status)[h := result]
    {
      assert ChainAt(desc, infoB, chains, owner, h);
      QueueOther(availRing, deviceIdx, availIdx, offered, phase, Offered, h, Posted);
      BusyDevice(chains, phase, busy, status, h, result);
      Post(h);
      status := status[h := result];
      phase := phase[h := Posted];
    }

    method Post(h: nat)
      requires Queue(usedRing, seenIdx, usedIdx, posted, phase, Posted) && h < NUM && h in phase && phase[h] != Posted
      modifies `usedRing, `usedIdx, `posted
      ensures posted == old(posted) + [h] && Queue(usedRing, seenIdx, usedIdx, posted, phase[h := Posted], Posted)
    {
      QueuePush(usedRing, seenIdx, usedIdx, posted, phase, Posted, h);
      usedRing := usedRing[usedIdx % 8 := h];
      usedIdx := (usedIdx + 1) % 65536;
      posted := posted + [h];
    }

    /** virtio_disk_intr: every posted completion clears b->disk of its own request, up to the first one with a
        non-zero status, which is the panic. */
    method Interrupt() returns (ok: bool, ghost n: nat)
      requires Valid()
      modifies `seenIdx, `phase, `posted, `busy
      ensures Valid() && n <= |old(posted)| && posted == old(posted)[n..]
      ensures SeenAll(old(phase), phase, old(busy), busy, chains, old(posted)[..n])
      ensures (forall h <- old(posted)[..n] :: Succeeded(status, h)) && ok == (n == |old(posted)|)
      ensures n < |old(posted)| ==> !Succeeded(status, old(posted)[n])
    {
      n, ok := 0, true;
      ghost var all := posted;
      assert all[0..] == all;
      while ok && seenIdx != usedIdx
        invariant Valid() && Processed(old(phase), phase, old(busy), busy, chains, status, all, posted, n)
        invariant !ok ==> n < |all| && !Succeeded(status, all[n])
        decreases |posted|, ok
      {
        ok, n := SeeNext(old(phase), old(busy), all, n);
      }
      if ok { QueuePop(usedRing, seenIdx, usedIdx, posted, phase, Posted, Seen); }
    }

    method SeeNext(ghost phase0: map<nat, Phase>, ghost busy0: set<nat>, ghost all: seq<nat>, ghost n: nat)
      returns (ok: bool, ghost n': nat)
      requires Valid() && seenIdx != usedIdx && Processed(phase0, phase, busy0, busy, chains, status, all, posted, n)
      modifies `seenIdx, `phase, `posted, `busy
      ensures Valid() && Processed(phase0, phase, busy0, busy, chains, status, all, posted, n')
      ensures if ok then |posted| < |old(posted)|
              else n' < |all| && !Succeeded(status, all[n']) && posted == old(posted)
    {
      ghost var p1, b1, q1 := phase, busy, posted;
      ok := SeeOne();
      if ok { ProcessedNext(phase0, p1, busy0, b1, chains, status, all, q1, n); }
      n' := if ok then n + 1 else n;
    }

    /** One turn of virtio_disk_intr's loop. */
    method SeeOne() returns (ok: bool)
      requires Valid() && seenIdx != usedIdx
      modifies `seenIdx, `phase, `posted, `busy
      ensures Valid() && old(posted) != [] && ok == Succeeded(status, old(posted)[0])
      ensures !ok ==> phase == old(phase) && posted == old(posted) && busy == old(busy)
      ensures ok ==> && posted == old(posted)[1..]
                     && var h := old(posted)[0]; h in chains && h in old(phase) && phase == old(phase)[h := Seen]
                                                 && busy == old(busy) - {chains[h].b}
    {
      QueuePop(usedRing, seenIdx, usedIdx, posted, phase, Posted, Seen);
      var id := usedRing[seenIdx % 8];
      BusySeen(chains, phase, busy, status, id);
      QueueOther(availRing, deviceIdx, availIdx, offered, phase, Offered, id, Seen);
      assert ChainAt(desc, infoB, chains, owner, id);
      if status[id] != 0 { return false; }     // panic("virtio_disk_intr status")
      busy := busy - {infoB[id]};
      seenIdx := (seenIdx + 1) % 65536;
      phase, posted := phase[id := Seen], posted[1..];
      ok := true;
    }

    /** free_chain of the request h. */
    method FreeOwn(h: nat, ghost c: Chain)
      requires Chains(free, desc, infoB, chains, owner) && h in chains && c == chains[h]
      modifies `free, `desc
      ensures h < NUM && Chains(free, desc, infoB[h := 0], chains - {h}, owner - {c.d0, c.d1, c.d2})
      ensures |free| == |old(free)| == NUM && (forall d | 0 <= d < NUM :: free[d] <==> old(free)[d] || InChain(c, d))
      ensures forall d | 0 <= d < NUM && InChain(c, d) :: !old(free)[d]
    {
      ghost var free0, desc0 := free, desc;
      assert ChainAt(desc, infoB, chains, owner, h) && InChain(c, c.d0) && InChain(c, c.d1) && InChain(c, c.d2);
      assert DescAt(free, desc, chains, owner, c.d0) && DescAt(free, desc, chains, owner, c.d1)
               && DescAt(free, desc, chains, owner, c.d2);
      FreeChain(h, c);
      DropChain(free0, desc0, infoB, chains, owner, h, free, desc);
    }

    /** The end of virtio_disk_rw: exactly the request's own three descriptors become free. */
    method Finish(h: nat)
      requires Valid() && h in phase && phase[h] == Seen
      modifies `free, `desc, `infoB, `chains, `phase, `owner
      ensures Valid() && chains == old(chains) - {h} && phase == old(phase) - {h}
      ensures var c := old(chains)[h];
              && (forall d | 0 <= d < NUM :: free[d] <==> old(free)[d] || InChain(c, d))
              && (forall d | 0 <= d < NUM && InChain(c, d) :: !old(free)[d])
    {
      ghost var c := chains[h];
      QueueOther(usedRing, seenIdx, usedIdx, posted, phase, Posted, h, Seen);
      QueueOther(availRing, deviceIdx, availIdx, offered, phase, Offered, h, Seen);
      BusyGone(chains, phase, busy, status, h);
      FreeOwn(h, c);
      infoB := infoB[h := 0];
      chains, phase, owner := chains - {h}, phase - {h}, owner - {c.d0, c.d1, c.d2};
    }
  }
}
