/** kernel/mmap.c: the global table of mapped areas over the page tables. Addresses and
    lengths are in pages. A process is named by its pid, a file by a positive number. */
module Mmap {
  import opened Kalloc
  import opened PageTable
  import opened Ownership
  import opened Vm

  const NMMAP: nat := 64
  const MMAPBASE: nat := 0x4000_0000
  const U64: nat := 0x1_0000_0000_0000_0000

  /** struct mmap_area; f == 0 is an anonymous mapping, p == 0 an unused entry. */
  datatype Area = Area(p: nat, f: nat, addr: nat, length: nat, offset: nat, writable: bool, anon: bool)

  const NO_AREA := Area(0, 0, 0, 0, 0, false, false)

  /** An address space: its root table page, p->sz in pages and the trapframe page. */
  datatype Space = Space(root: nat, sz: nat, tf: nat)

  ghost predicate Inside(a: Area, v: nat) { a.addr <= v < a.addr + a.length }

  ghost predicate InBounds(a: Area) {
    0 < a.length && a.addr + a.length <= TRAPFRAME && (a.anon <==> a.f == 0)
  }

  ghost predicate Disjoint(a: Area, b: Area) { a.addr + a.length <= b.addr || b.addr + b.length <= a.addr }

  ghost predicate AreasOk(areas: seq<Area>, spaces: map<nat, Space>) {
    && |areas| == NMMAP && 0 !in spaces
    && (forall i | 0 <= i < NMMAP :: areas[i].p == 0 ==> areas[i] == NO_AREA)
    && forall i | 0 <= i < NMMAP && areas[i].p != 0 :: areas[i].p in spaces && InBounds(areas[i])
  }

  /** No two areas of a process overlap; kmmap does not see to that. */
  ghost predicate Apart(areas: seq<Area>) {
    forall i, j | 0 <= i < j < |areas| && areas[i].p == areas[j].p != 0 :: Disjoint(areas[i], areas[j])
  }

  /** How many areas of pid contain page v. */
  ghost function Hits(areas: seq<Area>, pid: nat, v: nat): nat {
    if areas == [] then 0 else
    Hits(areas[..|areas|-1], pid, v) + if areas[|areas|-1].p == pid && Inside(areas[|areas|-1], v) then 1 else 0
  }

  lemma {:induction false} HitsCover(areas: seq<Area>, pid: nat, root: nat, v: nat)
    ensures Hits(areas, pid, v) > 0 <==> (root, v) in Cover(areas, pid, root)
    decreases |areas|
  {
    if areas == [] {
    } else {
      var a := areas[|areas|-1];
      HitsCover(areas[..|areas|-1], pid, root, v);
      assert (root, v) in Range(root, a.addr, a.length) <==> Inside(a, v);
    }
  }

  /** What a call can end in: done, failed for lack of memory or table space, mappages' panic "remap", or failed with
      an area of the child left behind. */
  datatype Outcome = Done | Failed | Remap | Stuck

  ghost predicate SpacesOk(spaces: map<nat, Space>, roots: set<nat>) {
    && (forall p <- spaces :: spaces[p].root in roots && spaces[p].sz <= TRAPFRAME)
    && RootsDiffer(spaces)
  }

  ghost predicate RootsDiffer(spaces: map<nat, Space>) {
    forall p, q {:trigger OwnRoots(spaces, p, q)} :: OwnRoots(spaces, p, q)
  }

  ghost predicate OwnRoots(spaces: map<nat, Space>, p: nat, q: nat) {
    p in spaces && q in spaces && p != q ==> spaces[p].root != spaces[q].root
  }

  /** All pages of pid's areas. */
  ghost function Cover(areas: seq<Area>, pid: nat, root: nat): set<Spot> {
    if areas == [] then {} else
    var a := areas[|areas|-1];
    Cover(areas[..|areas|-1], pid, root) + if a.p == pid then Range(root, a.addr, a.length) else {}
  }

  lemma {:induction false} CoverIs(areas: seq<Area>, pid: nat, root: nat, u: Spot)
    ensures u in Cover(areas, pid, root) <==>
              u.0 == root && exists i | 0 <= i < |areas| :: areas[i].p == pid && Inside(areas[i], u.1)
    decreases |areas|
  {
    if areas == [] {
    } else {
      var n := |areas| - 1;
      CoverIs(areas[..n], pid, root, u);
      if u.0 == root && exists i | 0 <= i < n :: areas[..n][i].p == pid && Inside(areas[..n][i], u.1) {
        var i :| 0 <= i < n && areas[..n][i].p == pid && Inside(areas[..n][i], u.1);
        assert areas[i].p == pid && Inside(areas[i], u.1);
      }
      if i :| 0 <= i < |areas| && areas[i].p == pid && Inside(areas[i], u.1) && i < n {
        assert areas[..n][i].p == pid;
      }
      assert u in Range(root, areas[n].addr, areas[n].length) <==> u.0 == root && Inside(areas[n], u.1) by {
        if u.0 == root && Inside(areas[n], u.1) { assert u == (root, u.1); }
      }
    }
  }

  /** How many areas hold a reference to file f. */
  function Holders(areas: seq<Area>, f: nat): nat {
    if areas == [] then 0 else Holders(areas[..|areas|-1], f) + if areas[|areas|-1].f == f then 1 else 0
  }

  lemma {:induction false} HoldersUpdate(areas: seq<Area>, i: nat, a: Area, f: nat)
    requires i < |areas|
    ensures Holders(areas[i := a], f) + (if areas[i].f == f then 1 else 0)
              == Holders(areas, f) + (if a.f == f then 1 else 0)
    decreases |areas|
  {
    var n := |areas| - 1;
    if i < n {
      assert areas[i := a][..n] == areas[..n][i := a];
      HoldersUpdate(areas[..n], i, a, f);
    } else {
      assert areas[i := a][..n] == areas[..n];
    }
  }

  /** A file's reference count is the areas that map it plus its other holders. */
  ghost predicate FilesOk(areas: seq<Area>, refs: map<nat, nat>, others: map<nat, nat>) {
    && refs.Keys == others.Keys && 0 !in refs
    && (forall f <- refs :: refs[f] == Holders(areas, f) + others[f])
    && forall i | 0 <= i < |areas| && areas[i].f != 0 :: areas[i].f in refs
  }

  lemma FilesAfter(areas: seq<Area>, refs: map<nat, nat>, others: map<nat, nat>, i: nat, a: Area)
    requires FilesOk(areas, refs, others) && i < |areas| && (a.f != 0 ==> a.f in refs)
    ensures areas[i].f != 0 ==> areas[i].f in refs && refs[areas[i].f] >= 1
    ensures areas[i].f != 0 && a.f == 0 ==> FilesOk(areas[i := a], Down(refs, areas[i].f), others)
    ensures areas[i].f == 0 && a.f != 0 ==> FilesOk(areas[i := a], Up(refs, a.f), others)
    ensures areas[i].f == 0 && a.f == 0 ==> FilesOk(areas[i := a], refs, others)
  {
    if areas[i].f != 0 { HoldersUpdate(areas, i, NO_AREA, areas[i].f); }
    forall f <- refs
      ensures Holders(areas[i := a], f) + (if areas[i].f == f then 1 else 0)
                == Holders(areas, f) + (if a.f == f then 1 else 0)
    {
      HoldersUpdate(areas, i, a, f);
    }
  }

  /** Every user page of a process lies below its size or in one of its areas. */
  ghost predicate MappedOk(flat: map<Spot, Pte>, areas: seq<Area>, spaces: map<nat, Space>) {
    forall u: Spot, p {:trigger Home(flat, areas, spaces, u, p)} :: Home(flat, areas, spaces, u, p)
  }

  ghost predicate Home(flat: map<Spot, Pte>, areas: seq<Area>, spaces: map<nat, Space>, u: Spot, p: nat) {
    u in flat && p in spaces && u.1 < TRAPFRAME && u.0 == spaces[p].root ==>
      u.1 < spaces[p].sz || u in Cover(areas, p, spaces[p].root)
  }

  // ---------- What a page of an area holds ----------

  /** readi into a zeroed page: file bytes from off on, zeros past the end of the file. */
  function FilePage(bytes: Bytes, off: nat): Bytes {
    seq(PGSIZE, i requires 0 <= i => if off + i < |bytes| then bytes[off + i] else 0)
  }

  /** Where page v starts in the file; file offsets are 32-bit unsigned. */
  function FileOffset(a: Area, v: nat): nat { (a.offset + (v - a.addr) * 4096) % 0x1_0000_0000 }

  function AreaPage(files: map<nat, Bytes>, a: Area, v: nat): Bytes {
    if a.anon || a.f !in files || v < a.addr then FilePage([], 0) else FilePage(files[a.f], FileOffset(a, v))
  }

  /** mmap_perm */
  function AreaPerm(a: Area): Perm { Perm(true, a.writable, false, true) }

  /** The populated pages of the area hold what the mapping prescribes. */
  ghost predicate Faithful(flat: map<Spot, Pte>, data: map<nat, Bytes>, files: map<nat, Bytes>, a: Area, root: nat) {
    forall v: nat | Inside(a, v) && (root, v) in flat ::
      PageData(data, flat[(root, v)].ppn) == AreaPage(files, a, v) && flat[(root, v)].perm == AreaPerm(a)
  }

  ghost predicate Full(flat: map<Spot, Pte>, a: Area, root: nat) {
    forall v: nat | Inside(a, v) :: (root, v) in flat
  }

  ghost predicate AllFaithful(flat: map<Spot, Pte>, data: map<nat, Bytes>, files: map<nat, Bytes>, areas: seq<Area>,
                              spaces: map<nat, Space>) {
    forall i {:trigger areas[i]} | 0 <= i < |areas| && areas[i].p in spaces ::
             Faithful(flat, data, files, areas[i], spaces[areas[i].p].root)
  }

  /** f has all of f0 and the first n of the pages vs, and nothing else. */
  ghost predicate Touched(f0: map<Spot, Pte>, f: map<Spot, Pte>, root: nat, vs: seq<nat>, n: nat)
    requires n <= |vs|
  {
    && (forall u <- f0 :: u in f && f[u] == f0[u])
    && (forall u <- f :: u in f0 || (u.0 == root && u.1 in vs[..n]))
    && forall v <- vs[..n] :: (root, v) in f
  }

  lemma TouchedStep(f0: map<Spot, Pte>, f: map<Spot, Pte>, f': map<Spot, Pte>, root: nat, vs: seq<nat>, n: nat)
    requires n < |vs| && Touched(f0, f, root, vs, n)
    requires (forall u <- f :: u in f' && f'[u] == f[u]) && forall u <- f' :: u in f || u == (root, vs[n])
    ensures (root, vs[n]) in f' ==> Touched(f0, f', root, vs, n + 1)
    ensures f' == f ==> Touched(f0, f', root, vs, n)
  {
    assert vs[..n + 1] == vs[..n] + [vs[n]];
  }

  lemma FaithfulAfter(f: map<Spot, Pte>, d: map<nat, Bytes>, f': map<Spot, Pte>, d': map<nat, Bytes>,
                      files: map<nat, Bytes>,
                      areas: seq<Area>, spaces: map<nat, Space>, k: nat, v: nat, p: nat, more: bool)
    requires AreasOk(areas, spaces) && Apart(areas) && AllFaithful(f, d, files, areas, spaces) && SameData(f, d, d')
    requires RootsDiffer(spaces)
    requires k < NMMAP && areas[k].p in spaces && Inside(areas[k], v)
    requires if more then && f' == f[(spaces[areas[k].p].root, v) := Pte(p, true, AreaPerm(areas[k]))]
                          && PageData(d', p) == AreaPage(files, areas[k], v)
             else f' == f
    ensures AllFaithful(f', d', files, areas, spaces)
  {
    forall i | 0 <= i < |areas| && areas[i].p in spaces
      ensures Faithful(f', d', files, areas[i], spaces[areas[i].p].root)
    {
      var b, root := areas[i], spaces[areas[i].p].root;
      assert Faithful(f, d, files, b, root) && InBounds(b);
      forall w: nat | Inside(b, w) && (root, w) in f'
        ensures PageData(d', f'[(root, w)].ppn) == AreaPage(files, b, w) && f'[(root, w)].perm == AreaPerm(b)
      {
        if more && (root, w) == (spaces[areas[k].p].root, v) {
          assert OwnRoots(spaces, b.p, areas[k].p);
          assert i == k;
        }
      }
    }
  }

  lemma PopulatedIsFull(f0: map<Spot, Pte>, d0: map<nat, Bytes>, f: map<Spot, Pte>, d: map<nat, Bytes>,
                        files: map<nat, Bytes>, a: Area, root: nat)
    requires Populated(f0, d0, f, d, files, a, root, a.length) && Fresh(f0, a, root)
    ensures Faithful(f, d, files, a, root) && Full(f, a, root)
  {
    forall v: nat | Inside(a, v)
      ensures (root, v) in f && PageData(d, f[(root, v)].ppn) == AreaPage(files, a, v)
      ensures f[(root, v)].perm == AreaPerm(a)
    {
      assert PopulatedAt(f0, f, d, files, a, root, v);
    }
  }

  /** Touching every page of an area, in whatever order and however often, ends in the same
      contents and permissions as MAP_POPULATE: file bytes, zero past the end of the file. */
  lemma LazyEqualsEager(f0: map<Spot, Pte>, f: map<Spot, Pte>, d: map<nat, Bytes>, vs: seq<nat>,
                        g0: map<Spot, Pte>, e0: map<nat, Bytes>, g: map<Spot, Pte>, e: map<nat, Bytes>,
                        files: map<nat, Bytes>, a: Area, root: nat, v: nat, k: nat)
    requires Touched(f0, f, root, vs, |vs|) && Faithful(f, d, files, a, root) && forall w: nat | Inside(a, w) :: w in vs
    requires Populated(g0, e0, g, e, files, a, root, a.length) && Fresh(g0, a, root) && Inside(a, v) && k < PGSIZE
    ensures (root, v) in f && (root, v) in g && f[(root, v)].perm == g[(root, v)].perm
    ensures var x := PageData(d, f[(root, v)].ppn);
            && x == PageData(e, g[(root, v)].ppn) && |x| == PGSIZE
            && (a.anon ==> x[k] == 0)
            && (!a.anon && a.f in files ==>
                  var at := FileOffset(a, v) + k; x[k] == if at < |files[a.f]| then files[a.f][at] else 0)
  {
    assert v in vs[..|vs|];
    PopulatedIsFull(g0, e0, g, e, files, a, root);
  }

  /** The bits MAP_ANONYMOUS and MAP_POPULATE of flags between 0 and 3, the only ones kmmap accepts. */
  predicate IsAnon(flags: int) { flags == 1 || flags == 3 }

  predicate Populates(flags: int) { flags == 2 || flags == 3 }

  /** struct file, as far as kmmap looks at it. */
  datatype FileKind = FileKind(inode: bool, readable: bool, writable: bool)

  /** The argument checks of kmmap, on bytes; ofile maps open descriptors to files. */
  predicate MmapArgs(addr: nat, length: int, prot: int, flags: int, fd: int, offset: int,
                     ofile: map<int, nat>, kinds: map<nat, FileKind>)
  {
    && addr % 4096 == 0 && length > 0 && length % 4096 == 0
    && (prot == 1 || prot == 3) && 0 <= flags <= 3
    && if IsAnon(flags) then fd == -1 && offset == 0
       else fd in ofile && ofile[fd] in kinds && kinds[ofile[fd]].inode && kinds[ofile[fd]].readable
            && (prot == 3 ==> kinds[ofile[fd]].writable)
  }

  /** MMAPBASE + addr, a uint64. */
  function StartOf(addr: nat): nat { (MMAPBASE + addr) % U64 }

  /** The area ends below the trapframe. */
  predicate Fits(addr: nat, length: int) { addr < U64 && StartOf(addr) + length <= TRAPFRAME * PGSIZE }

  /** Every open file has a reference. */
  predicate Opened(refs: map<nat, nat>, ofile: map<int, nat>) {
    forall d <- ofile :: ofile[d] in refs && refs[ofile[d]] >= 1
  }

  /** The entry kmmap fills in. */
  function NewArea(pid: nat, addr: nat, length: int, prot: int, flags: int, fd: int, offset: int,
                   ofile: map<int, nat>): Area
    requires length > 0
  {
    var anon := IsAnon(flags);
    Area(pid, if !anon && fd in ofile then ofile[fd] else 0, StartOf(addr) / 4096, length / 4096,
         offset % 0x1_0000_0000, prot == 3, anon)
  }

  /** The call kmmap(2^64 - MMAPBASE, one page, ..) is accepted, and its area starts at address 0. */
  lemma WrapsToZero(pid: nat)
    ensures var addr := U64 - MMAPBASE;
            && MmapArgs(addr, 4096, 1, 1, -1, 0, map[], map[]) && StartOf(addr) == 0
            && HasZero([NewArea(pid, addr, 4096, 1, 1, -1, 0, map[])], pid)
  {
    assert [NewArea(pid, U64 - MMAPBASE, 4096, 1, 1, -1, 0, map[])][0].p == pid;
  }

  class MmapTable {
    const vm: Memory
    const files: map<nat, Bytes>              // file contents, unchanged while mapped
    var areas: seq<Area>
    var refs: map<nat, nat>                   // struct file reference counts
    var spaces: map<nat, Space>
    ghost var others: map<nat, nat>           // references to files other than from areas
    var kept: map<nat, nat>                   // pages the kernel holds for itself: stacks, pipes, its own tables, ...

    constructor (vm: Memory, files: map<nat, Bytes>, refs: map<nat, nat>)
      requires vm.Valid() && vm.sh.roots == {} && 0 !in refs && vm.flat == map[]
      ensures this.vm == vm && Valid() && spaces == map[] && kept == map[]
    {
      this.vm, this.files := vm, files;
      areas, spaces, kept := seq(NMMAP, i => NO_AREA), map[], map[];
      this.refs, others := refs, refs;
      new;
      forall f <- refs ensures Holders(areas, f) == 0 { NoHolders(areas, f); }
    }

    ghost predicate Valid()
      reads this, vm, vm.km
    {
      && vm.Valid() && AreasOk(areas, spaces) && SpacesOk(spaces, vm.sh.roots) && FilesOk(areas, refs, others)
      && MappedOk(vm.flat, areas, spaces)
    }

    /** mmap_alloc_page: an already mapped page is left alone, else one fresh frame is filled
        and mapped, or nothing changes. */
    method AllocPage(a: Area, v: nat) returns (ok: bool, ghost p: nat)
      requires Valid() && a in areas && a.p in spaces && Inside(a, v)
      modifies vm, vm.km
      ensures Valid() && vm.sh.roots == old(vm.sh.roots) && vm.held == old(vm.held)
      ensures SameData(old(vm.flat), old(vm.data), vm.data)
      ensures !ok || (spaces[a.p].root, v) in old(vm.flat) ==> vm.flat == old(vm.flat)
      ensures !ok ==> (spaces[a.p].root, v) !in vm.flat
      ensures ok && (spaces[a.p].root, v) !in old(vm.flat) ==>
                && p in old(vm.km.refcnt) && old(vm.km.refcnt)[p] == 0 && Unused(old(vm.flat), p)
                && vm.flat == old(vm.flat)[(spaces[a.p].root, v) := Pte(p, true, AreaPerm(a))]
                && PageData(vm.data, p) == AreaPage(files, a, v)
    {
      p := 0;
      var root := spaces[a.p].root;
      InAreaIsCovered(areas, spaces, a, v);
      var t, pte := vm.Lookup(root, v);
      if pte != NULL_PTE { return true, p; }
      ghost var f0 := vm.flat;
      ok, p := vm.MapFresh(root, v, AreaPage(files, a, v), AreaPerm(a));
      if ok { MappedAt(f0, areas, spaces, a.p, v, Pte(p, true, AreaPerm(a))); }
    }
  
    method FindByAddr(pid: nat, addr: nat) returns (r: int)
      requires |areas| == NMMAP
      ensures -1 <= r < NMMAP && (r >= 0 ==> areas[r].p == pid && areas[r].addr == addr)
      ensures forall i | 0 <= i < if r < 0 then NMMAP else r :: !(areas[i].p == pid && areas[i].addr == addr)
    {
      for i := 0 to NMMAP
        invariant forall j | 0 <= j < i :: !(areas[j].p == pid && areas[j].addr == addr)
      {
        if areas[i].p == pid && areas[i].addr == addr { return i; }
      }
      return -1;
    }

    method FindContaining(pid: nat, v: nat) returns (r: int)
      requires |areas| == NMMAP
      ensures -1 <= r < NMMAP && (r >= 0 ==> areas[r].p == pid && Inside(areas[r], v))
      ensures r < 0 ==> forall i | 0 <= i < NMMAP :: !(areas[i].p == pid && Inside(areas[i], v))
    {
      for i := 0 to NMMAP
        invariant forall j | 0 <= j < i :: !(areas[j].p == pid && Inside(areas[j], v))
      {
        if areas[i].p == pid && areas[i].addr <= v && v < areas[i].addr + areas[i].length { return i; }
      }
      return -1;
    }

    /** mmap_handle_pagefault: false (kill) outside the areas, on a write to a read-only area,
        or without memory; otherwise the faulting page is mapped. */
    method Fault(pid: nat, v: nat, write: bool) returns (ok: bool)
      requires Valid() && pid in spaces
      modifies vm, vm.km
      ensures Valid() && vm.sh.roots == old(vm.sh.roots) && vm.held == old(vm.held)
      ensures SameData(old(vm.flat), old(vm.data), vm.data)
      ensures ok ==> (spaces[pid].root, v) in vm.flat
                     && exists i | 0 <= i < NMMAP ::
                          areas[i].p == pid && Inside(areas[i], v) && (write ==> areas[i].writable)
      ensures !ok ==> vm.flat == old(vm.flat)
      ensures forall u <- old(vm.flat) :: u in vm.flat && vm.flat[u] == old(vm.flat)[u]
      ensures forall u <- vm.flat :: u in old(vm.flat) || u == (spaces[pid].root, v)
      ensures (spaces[pid].root, v) in vm.flat && (spaces[pid].root, v) !in old(vm.flat) ==>
                Unused(old(vm.flat), vm.flat[(spaces[pid].root, v)].ppn)
      ensures Apart(areas) && AllFaithful(old(vm.flat), old(vm.data), files, areas, spaces) ==>
                AllFaithful(vm.flat, vm.data, files, areas, spaces)
    {
      var i := FindContaining(pid, v);
      if i < 0 { return false; }
      if write && !areas[i].writable { return false; }
      ghost var f0, d0, p := vm.flat, vm.data, 0;
      ok, p := AllocPage(areas[i], v);
      if Apart(areas) && AllFaithful(f0, d0, files, areas, spaces) {
        FaithfulAfter(f0, d0, vm.flat, vm.data, files, areas, spaces, i, v, p, ok && (spaces[pid].root, v) !in f0);
      }
    }

    /** A program touching pages vs of its areas, in any order and with any repetition. */
    method Touch(pid: nat, vs: seq<nat>, write: bool) returns (ok: bool)
      requires Valid() && pid in spaces
      modifies vm, vm.km
      ensures Valid() && vm.sh.roots == old(vm.sh.roots) && vm.held == old(vm.held)
      ensures Apart(areas) && AllFaithful(old(vm.flat), old(vm.data), files, areas, spaces) ==>
                AllFaithful(vm.flat, vm.data, files, areas, spaces)
      ensures exists n | 0 <= n <= |vs| && (ok ==> n == |vs|) :: Touched(old(vm.flat), vm.flat, spaces[pid].root, vs, n)
    {
      ghost var f0, root := vm.flat, spaces[pid].root;
      ok := true;
      var k := 0;
      while ok && k < |vs|
        invariant k <= |vs| && Valid() && vm.sh.roots == old(vm.sh.roots) && vm.held == old(vm.held)
        invariant Apart(areas) && AllFaithful(old(vm.flat), old(vm.data), files, areas, spaces) ==>
                    AllFaithful(vm.flat, vm.data, files, areas, spaces)
        invariant Touched(f0, vm.flat, root, vs, k)
        decreases |vs| - k, ok
      {
        ghost var f1 := vm.flat;
        ok := Fault(pid, vs[k], write);
        TouchedStep(f0, f1, vm.flat, root, vs, k);
        if ok { k := k + 1; }
      }
    }

    /** kmmap: 0, or the start address and one more area; with MAP_POPULATE every page of it that was not
        mapped sits on a frame of its own. A failed MAP_POPULATE unmaps the first area in the table that
        starts there. That is the new one, and its whole range is unmapped, unless an older area with the
        same start comes first: then that one goes and the new one stays, although 0 is returned. The start
        is computed in 64 bits, so it can lie below MMAPBASE; at address 0 success looks like failure. That
        the area ends below the trapframe is up to the caller; Ownership.UnmapKeepsCounts says why. */
    method Map(pid: nat, addr: nat, length: int, prot: int, flags: int, fd: int, offset: int, ofile: map<int, nat>,
               kinds: map<nat, FileKind>)
      returns (r: nat, ghost ok: bool, ghost i: nat, ghost j: nat)
      requires Valid() && pid in spaces && Opened(refs, ofile) && addr < U64
      requires MmapArgs(addr, length, prot, flags, fd, offset, ofile, kinds) ==> Fits(addr, length)
      modifies this`areas, this`refs, vm, vm.km
      ensures Valid() && vm.sh.roots == old(vm.sh.roots) && vm.held == old(vm.held)
      ensures SameData(old(vm.flat), old(vm.data), vm.data)
      ensures if !MmapArgs(addr, length, prot, flags, fd, offset, ofile, kinds) || !HasUnused(old(areas))
              then !ok && areas == old(areas) && refs == old(refs) && vm.flat == old(vm.flat)
              else MapResult(old(areas), old(refs), old(vm.flat), old(vm.data), areas, refs, vm.flat, vm.data, files,
                             spaces[pid].root,
                             NewArea(pid, addr, length, prot, flags, fd, offset, ofile), Populates(flags), ok, i, j)
      ensures r == if ok then StartOf(addr) else 0
      ensures NoNewOwners(old(areas), areas, {pid})
    {
      i, j, ok := 0, 0, false;
      if !MmapArgs(addr, length, prot, flags, fd, offset, ofile, kinds) { return 0, ok, i, j; }
      var k := FindOwned(0);
      if k < 0 { return 0, ok, i, j; }
      i := k;
      var a := NewArea(pid, addr, length, prot, flags, fd, offset, ofile);
      NewAreaInBounds(pid, addr, length, prot, flags, fd, offset, ofile);
      var done;
      done, j := Register(k, a, Populates(flags));
      ok := done;
      r := if done then StartOf(addr) else 0;
    }

    /** The system call, for callers that only need the state to stay valid. */
    method MapOnly(pid: nat, addr: nat, length: int, prot: int, flags: int, fd: int, offset: int,
                   ofile: map<int, nat>, kinds: map<nat, FileKind>) returns (r: nat)
      requires Valid() && pid in spaces && Opened(refs, ofile) && Fits(addr, length)
      modifies this`areas, this`refs, vm, vm.km
      ensures Valid() && vm.sh.roots == old(vm.sh.roots) && vm.held == old(vm.held)
      ensures SameData(old(vm.flat), old(vm.data), vm.data) && NoNewOwners(old(areas), areas, {pid})
    {
      ghost var ok, i, j;
      r, ok, i, j := Map(pid, addr, length, prot, flags, fd, offset, ofile, kinds);
    }

    /** The rest of kmmap for the unused entry k and the new area a. */
    method Register(k: nat, a: Area, populate: bool) returns (ok: bool, ghost j: nat)
      requires Valid() && k < NMMAP && areas[k].p == 0 && InBounds(a) && a.p in spaces
      requires a.f != 0 ==> a.f in refs && refs[a.f] >= 1
      modifies this`areas, this`refs, vm, vm.km
      ensures Valid() && vm.sh.roots == old(vm.sh.roots) && vm.held == old(vm.held)
      ensures SameData(old(vm.flat), old(vm.data), vm.data)
      ensures !ok ==> populate && FirstAt(old(areas)[k := a], a.p, a.addr, j)
                      && areas == old(areas)[k := a][j := NO_AREA]
      ensures !ok && j == k ==> refs == old(refs) && vm.flat == old(vm.flat) - AreaSpots(a, spaces)
      ensures ok ==> areas == old(areas)[k := a]
      ensures ok ==> if !populate then vm.flat == old(vm.flat)
                     else Populated(old(vm.flat), old(vm.data), vm.flat, vm.data, files, a, spaces[a.p].root, a.length)
    {
      ghost var a0, f0, d0, r0, n := areas, vm.flat, vm.data, refs, 0;
      j := 0;
      AddArea(k, a);
      if !populate { return true, j; }
      assert areas[k] == a;
      ok, n := Populate(a);
      if !ok {
        Unpopulated(f0, d0, vm.flat, vm.data, files, a, spaces[a.p].root, n);
        j := UndoMap(k, a, a0, r0);
      }
    }

    /** The failure exit of the MAP_POPULATE loop. */
    method UndoMap(k: nat, a: Area, ghost a0: seq<Area>, ghost r0: map<nat, nat>) returns (ghost j: nat)
      requires Valid() && k < NMMAP && |a0| == NMMAP && a0[k] == NO_AREA && areas == a0[k := a] && a.p in spaces
      requires FilesOk(a0, r0, others)
      modifies this`areas, this`refs, vm, vm.km
      ensures Valid() && vm.sh.roots == old(vm.sh.roots) && vm.held == old(vm.held) && vm.data == old(vm.data)
      ensures FirstAt(old(areas), a.p, a.addr, j) && areas == old(areas)[j := NO_AREA]
      ensures j == k ==> refs == r0 && vm.flat == old(vm.flat) - AreaSpots(a, spaces)
    {
      assert areas[k] == a;
      var found;
      found, j := Munmap(a.p, a.addr);
      if j == k {
        assert areas == a0;
        FilesDetermined(a0, r0, refs, others);
      }
    }

    /** The MAP_POPULATE loop of kmmap. */
    method Populate(a: Area) returns (ok: bool, ghost k: nat)
      requires Valid() && a in areas && a.p in spaces
      modifies vm, vm.km
      ensures Valid() && vm.sh.roots == old(vm.sh.roots) && vm.held == old(vm.held)
      ensures k <= a.length && (ok ==> k == a.length)
      ensures Populated(old(vm.flat), old(vm.data), vm.flat, vm.data, files, a, spaces[a.p].root, k)
    {
      ghost var f0, d0 := vm.flat, vm.data;
      var i := 0;
      k, ok := 0, true;
      while ok && i < a.length
        invariant i <= a.length && k == i && Valid() && vm.sh.roots == old(vm.sh.roots) && vm.held == old(vm.held)
        invariant Populated(f0, d0, vm.flat, vm.data, files, a, spaces[a.p].root, k)
        decreases a.length - i, ok
      {
        ok := PopulatePage(a, i, f0, d0);
        if ok { i, k := i + 1, k + 1; }
      }
    }

    method PopulatePage(a: Area, i: nat, ghost f0: map<Spot, Pte>, ghost d0: map<nat, Bytes>) returns (ok: bool)
      requires Valid() && a in areas && a.p in spaces && i < a.length
      requires Populated(f0, d0, vm.flat, vm.data, files, a, spaces[a.p].root, i)
      modifies vm, vm.km
      ensures Valid() && vm.sh.roots == old(vm.sh.roots) && vm.held == old(vm.held)
      ensures Populated(f0, d0, vm.flat, vm.data, files, a, spaces[a.p].root, if ok then i + 1 else i)
    {
      ghost var f1, d1, p, u := vm.flat, vm.data, 0, (spaces[a.p].root, a.addr + i);
      assert a.addr + i < TRAPFRAME by { InAreaIsCovered(areas, spaces, a, a.addr + i); }
      ok, p := AllocPage(a, a.addr + i);
      PopulateOne(f0, d0, f1, d1, vm.flat, vm.data, files, a, u.0, i, p, ok);
    }

    /** The rest of do_munmap once the entry k is found. */
    method RemoveArea(k: nat)
      requires Valid() && k < NMMAP && areas[k].p != 0
      modifies this`areas, this`refs, vm, vm.km
      ensures Valid() && vm.sh.roots == old(vm.sh.roots) && vm.held == old(vm.held) && vm.data == old(vm.data)
      ensures var a := old(areas)[k];
              && areas == old(areas)[k := NO_AREA]
              && vm.flat == old(vm.flat) - Range(spaces[a.p].root, a.addr, a.length)
              && Elsewhere(old(vm.tables), old(vm.sh), vm.tables, vm.sh, spaces[a.p].root)
    {
      var local := areas[k];
      ghost var f0 := vm.flat;
      FilesAfter(areas, refs, others, k, NO_AREA);
      MappedAfterMunmap(f0, areas, spaces, k);
      areas := areas[k := NO_AREA];
      vm.UnmapRange(spaces[local.p].root, local.addr, local.length);
      if local.f != 0 { refs := Down(refs, local.f); }
    }

    /** do_munmap: the area's entry, its mapped pages with one reference each, and its file
        reference all go; everything else stays. */
    method Munmap(pid: nat, addr: nat) returns (ok: bool, ghost i: nat)
      requires Valid() && pid in spaces
      modifies this`areas, this`refs, vm, vm.km
      ensures Valid() && vm.sh.roots == old(vm.sh.roots) && vm.held == old(vm.held) && vm.data == old(vm.data)
      ensures Elsewhere(old(vm.tables), old(vm.sh), vm.tables, vm.sh, spaces[pid].root)
      ensures !ok ==> areas == old(areas) && refs == old(refs) && vm.flat == old(vm.flat)
                      && forall j | 0 <= j < NMMAP :: !(areas[j].p == pid && areas[j].addr == addr)
      ensures ok ==> && FirstAt(old(areas), pid, addr, i) && areas == old(areas)[i := NO_AREA]
                     && vm.flat == old(vm.flat) - Range(spaces[pid].root, addr, old(areas)[i].length)
    {
      i := 0;
      var k := FindByAddr(pid, addr);
      if k < 0 { return false, i; }
      i := k;
      RemoveArea(k);
      return true, i;
    }
  
    /** mmap_cleanup: unmap the process's first area until none is found. Address 0 stands for none, so the loop ends
        at an area that starts there: it removes exactly the areas before that one. `done` is whether all are gone. */
    method Cleanup(pid: nat) returns (ghost done: bool)
      requires Valid() && pid in spaces
      modifies this`areas, this`refs, vm, vm.km
      ensures Valid() && vm.sh.roots == old(vm.sh.roots) && vm.held == old(vm.held) && vm.data == old(vm.data)
      ensures Swept(old(areas), areas, pid, AtZero(old(areas), pid))
      ensures vm.flat == old(vm.flat) - Cover(old(areas)[..AtZero(old(areas), pid)], pid, spaces[pid].root)
      ensures Elsewhere(old(vm.tables), old(vm.sh), vm.tables, vm.sh, spaces[pid].root)
      ensures done <==> !HasZero(old(areas), pid)
      ensures done <==> forall i | 0 <= i < NMMAP :: areas[i].p != pid
    {
      ghost var a0, f0, root, n := areas, vm.flat, spaces[pid].root, 0;
      var more := true;
      assert f0 - {} == f0 && a0[..0] == [];
      while more
        invariant Valid() && vm.sh.roots == old(vm.sh.roots) && vm.held == old(vm.held) && vm.data == old(vm.data)
        invariant n <= AtZero(a0, pid) && Swept(a0, areas, pid, n) && vm.flat == f0 - Cover(a0[..n], pid, root)
        invariant Elsewhere(old(vm.tables), old(vm.sh), vm.tables, vm.sh, root)
        invariant !more ==> n == AtZero(a0, pid)
        decreases NMMAP - n, more
      {
        more, n := CleanupRound(pid, a0, f0, n, old(vm.tables), old(vm.sh));
      }
      done := n == NMMAP;
      SweptAll(a0, areas, pid, n);
    }

    /** One turn of mmap_cleanup's outer loop; the entries below n are done. */
    method CleanupRound(pid: nat, ghost a0: seq<Area>, ghost f0: map<Spot, Pte>, ghost n: nat, ghost t0: Tables,
                        ghost sh0: Shape)
      returns (more: bool, ghost n': nat)
      requires Valid() && pid in spaces && |a0| == NMMAP && n <= AtZero(a0, pid) && Swept(a0, areas, pid, n)
      requires vm.flat == f0 - Cover(a0[..n], pid, spaces[pid].root)
      requires Elsewhere(t0, sh0, vm.tables, vm.sh, spaces[pid].root)
      modifies this`areas, this`refs, vm, vm.km
      ensures Valid() && vm.sh.roots == old(vm.sh.roots) && vm.held == old(vm.held) && vm.data == old(vm.data)
      ensures n' <= AtZero(a0, pid) && Swept(a0, areas, pid, n')
      ensures vm.flat == f0 - Cover(a0[..n'], pid, spaces[pid].root)
      ensures Elsewhere(t0, sh0, vm.tables, vm.sh, spaces[pid].root)
      ensures if more then n' > n else n' == AtZero(a0, pid)
    {
      ghost var a1, f1, tables1, sh1, root := areas, vm.flat, vm.tables, vm.sh, spaces[pid].root;
      var k := FindOwned(pid);
      var addr := if k < 0 then 0 else areas[k].addr;
      more := addr != 0;
      n' := SweptTo(a0, a1, pid, n, if k < 0 then NMMAP else k, root);
      if more {
        var ok; ghost var i;
        ok, i := Munmap(pid, addr);
        assert i == k;
        ElsewhereThen(t0, sh0, tables1, sh1, vm.tables, vm.sh, root);
        SweptNext(a0, a1, pid, k, root, f0);
        n' := k + 1;
      }
    }

    method FindOwned(pid: nat) returns (r: int)
      requires |areas| == NMMAP
      ensures -1 <= r < NMMAP && (r >= 0 ==> areas[r].p == pid)
      ensures forall i | 0 <= i < if r < 0 then NMMAP else r :: areas[i].p != pid
    {
      for i := 0 to NMMAP
        invariant forall j | 0 <= j < i :: areas[j].p != pid
      {
        if areas[i].p == pid { return i; }
      }
      return -1;
    }
  
    /** The copying loop of mmap_fork: each area of the parent gets an entry for the child and
        one more file reference. Stops with false when the table is full. */
    method CopyAreas(parent: nat, child: nat) returns (ok: bool, list: seq<Area>)
      requires Valid() && parent in spaces && child in spaces && parent != child
      requires forall i | 0 <= i < NMMAP :: areas[i].p != child
      modifies this`areas, this`refs
      ensures Valid() && Extended(old(areas), areas, parent, child) && (forall a <- list :: a in areas)
      ensures ok ==> list == Copies(old(areas), parent, child)
    {
      ghost var a0 := areas;
      list, ok := [], true;
      var i := 0;
      assert a0[..0] == [];
      while ok && i < NMMAP
        invariant i <= NMMAP && Valid() && Copying(a0, areas, list, parent, child, i)
        decreases NMMAP - i, ok
      {
        ok, list := CopyArea(parent, child, i, list, a0);
        if ok { i := i + 1; }
      }
      assert a0[..NMMAP] == a0;
    }

    method CopyArea(parent: nat, child: nat, i: nat, list: seq<Area>, ghost a0: seq<Area>)
      returns (ok: bool, list': seq<Area>)
      requires Valid() && parent in spaces && child in spaces && parent != child
      requires i < NMMAP && AreasOk(a0, spaces) && Copying(a0, areas, list, parent, child, i)
      modifies this`areas, this`refs
      ensures Valid() && Copying(a0, areas, list', parent, child, if ok then i + 1 else i)
    {
      list' := list;
      if areas[i].p != parent {
        CopySkip(a0, areas, list, parent, child, i);
        return true, list;
      }
      var dst := FindOwned(0);
      if dst < 0 { return false, list; }
      CopyStep(a0, areas, spaces, list, parent, child, i, dst);
      FilesAfter(areas, refs, others, i, areas[i]);
      list' := list + [areas[i].(p := child)];
      AddArea(dst, areas[i].(p := child));
      ok := true;
    }

    /** Fill the unused entry dst, taking a reference to the file. */
    method AddArea(dst: nat, a: Area)
      requires Valid() && dst < NMMAP && areas[dst].p == 0 && a.p in spaces && InBounds(a)
      requires a.f != 0 ==> a.f in refs && refs[a.f] >= 1
      modifies this`areas, this`refs
      ensures Valid() && areas == old(areas)[dst := a] && refs == if a.f != 0 then Up(old(refs), a.f) else old(refs)
    {
      FilesAfter(areas, refs, others, dst, a);
      MappedMore(vm.flat, areas, spaces, dst, a);
      if a.f != 0 { refs := Up(refs, a.f); }
      areas := areas[dst := a];
    }

    /** mmap_fork. When done, the child has the parent's areas and maps exactly the pages the parent has
        populated in them, through the same PTEs. It panics in mappages only if, and with enough memory
        exactly if, a populated page lies in two of the parent's areas or is mapped in the child already.
        On failure areas and file references are as before, and the child's pages inside the areas are gone,
        unless the parent has an area at address 0: then areas of the child can be left behind. */
    method Fork(parent: nat, child: nat) returns (r: Outcome)
      requires Valid() && parent in spaces && child in spaces && parent != child
      requires forall i | 0 <= i < NMMAP :: areas[i].p != child
      modifies this`areas, this`refs, vm, vm.km
      ensures Valid() && vm.sh.roots == old(vm.sh.roots) && vm.held == old(vm.held) && vm.data == old(vm.data)
      ensures Elsewhere(old(vm.tables), old(vm.sh), vm.tables, vm.sh, spaces[child].root)
      ensures r == Done ==> && Extended(old(areas), areas, parent, child)
                            && (forall a <- old(areas) | a.p == parent :: a.(p := child) in areas)
                            && Shared(old(vm.flat), vm.flat, spaces[parent].root,
                                      Cover(areas, child, spaces[child].root))
      ensures r == Done ==> forall v: nat ::
                !Twice(old(vm.flat), old(areas), parent, spaces[parent].root, spaces[child].root, v)
      ensures r == Remap ==> exists v: nat ::
                Twice(old(vm.flat), old(areas), parent, spaces[parent].root, spaces[child].root, v)
      ensures r == Failed ==> areas == old(areas) && refs == old(refs)
                              && Trimmed(old(vm.flat), vm.flat, Cover(old(areas), parent, spaces[child].root))
      ensures r == Failed && old(vm.flat).Keys !! Cover(old(areas), parent, spaces[child].root) ==>
                vm.flat == old(vm.flat) && SameCounts(old(vm.tables), old(vm.km.refcnt), vm.tables, vm.km.refcnt)
      ensures r == Stuck ==> HasZero(old(areas), parent) && exists i | 0 <= i < NMMAP :: areas[i].p == child
    {
      ghost var f0, cov := vm.flat, Cover(areas, parent, spaces[child].root);
      r := ForkAreas(parent, child);
      if r == Failed && f0.Keys !! cov {
        TrimmedNone(f0, vm.flat, cov);
        AllCounts(f0, vm.held, old(vm.tables), old(vm.km.refcnt), old(vm.users), vm.tables, vm.km.refcnt, vm.users);
      }
    }

    method ForkAreas(parent: nat, child: nat) returns (r: Outcome)
      requires Valid() && parent in spaces && child in spaces && parent != child
      requires forall i | 0 <= i < NMMAP :: areas[i].p != child
      modifies this`areas, this`refs, vm, vm.km
      ensures Valid() && vm.sh.roots == old(vm.sh.roots) && vm.held == old(vm.held) && vm.data == old(vm.data)
      ensures Elsewhere(old(vm.tables), old(vm.sh), vm.tables, vm.sh, spaces[child].root)
      ensures r == Done ==> && Extended(old(areas), areas, parent, child)
                            && (forall a <- old(areas) | a.p == parent :: a.(p := child) in areas)
                            && Shared(old(vm.flat), vm.flat, spaces[parent].root,
                                      Cover(areas, child, spaces[child].root))
      ensures r == Done ==> forall v: nat ::
                !Twice(old(vm.flat), old(areas), parent, spaces[parent].root, spaces[child].root, v)
      ensures r == Remap ==> exists v: nat ::
                Twice(old(vm.flat), old(areas), parent, spaces[parent].root, spaces[child].root, v)
      ensures r == Failed ==> areas == old(areas) && refs == old(refs)
                              && Trimmed(old(vm.flat), vm.flat, Cover(old(areas), parent, spaces[child].root))
      ensures r == Stuck ==> HasZero(old(areas), parent) && exists i | 0 <= i < NMMAP :: areas[i].p == child
    {
      ghost var a0, f0, r0 := areas, vm.flat, refs;
      var ok, list := CopyAreas(parent, child);
      if ok {
        r := ShareOrUndo(parent, child, list, a0, r0);
      } else {
        assert Trimmed(f0, f0 - Cover(areas, child, spaces[child].root), Cover(a0, parent, spaces[child].root)) by {
          CopyCover(a0, areas, parent, child, spaces[child].root);
        }
        r := UndoFork(parent, child, a0, r0);
      }
    }

    /** mmap_fork once all areas are copied. */
    method ShareOrUndo(parent: nat, child: nat, list: seq<Area>, ghost a0: seq<Area>, ghost r0: map<nat, nat>)
      returns (r: Outcome)
      requires Valid() && parent in spaces && child in spaces && parent != child && Extended(a0, areas, parent, child)
      requires |a0| == NMMAP && (forall i | 0 <= i < |a0| :: a0[i].p != child) && FilesOk(a0, r0, others)
      requires (forall a <- list :: a in areas) && list == Copies(a0, parent, child)
      modifies this`areas, this`refs, vm, vm.km
      ensures Valid() && vm.sh.roots == old(vm.sh.roots) && vm.held == old(vm.held) && vm.data == old(vm.data)
      ensures Elsewhere(old(vm.tables), old(vm.sh), vm.tables, vm.sh, spaces[child].root)
      ensures r == Done ==> areas == old(areas) && (forall a <- a0 | a.p == parent :: a.(p := child) in areas)
      ensures r == Done ==> Shared(old(vm.flat), vm.flat, spaces[parent].root, Cover(areas, child, spaces[child].root))
      ensures r == Done ==> forall v: nat ::
                !Twice(old(vm.flat), a0, parent, spaces[parent].root, spaces[child].root, v)
      ensures r == Remap ==> exists v: nat ::
                Twice(old(vm.flat), a0, parent, spaces[parent].root, spaces[child].root, v)
      ensures r == Failed
              ==> areas == a0 && refs == r0 && Trimmed(old(vm.flat), vm.flat, Cover(a0, parent, spaces[child].root))
      ensures r == Stuck ==> HasZero(a0, parent) && exists i | 0 <= i < NMMAP :: areas[i].p == child
    {
      ghost var f0, a1, cov, w, pr, cr := vm.flat, areas, {}, 0, spaces[parent].root, spaces[child].root;
      CopyCover(a0, a1, parent, child, cr);
      CopiesCover(a0, a1, list, parent, child, cr);
      assert pr != cr by { assert OwnRoots(spaces, parent, child); }
      r, cov, w := ShareAreas(child, spaces[parent].root, list, f0);
      assert areas == a1 && refs == old(refs) && vm.data == old(vm.data);
      if r == Failed {
        SharedTrimmed(f0, vm.flat, pr, cov, Cover(a1, child, cr), Cover(a0, parent, cr));
        ghost var tables1, sh1 := vm.tables, vm.sh;
        r := UndoFork(parent, child, a0, r0);
        ElsewhereThen(old(vm.tables), old(vm.sh), tables1, sh1, vm.tables, vm.sh, cr);
      } else {
        TwiceIn(f0, a0, list, parent, child, pr, cr, r == Done, w);
      }
    }

    /** The failure exits of mmap_fork. The cleanup stops short if the child has been given an area at address 0. */
    method UndoFork(parent: nat, child: nat, ghost a0: seq<Area>, ghost r0: map<nat, nat>) returns (r: Outcome)
      requires Valid() && child in spaces && Extended(a0, areas, parent, child)
      requires forall i | 0 <= i < |a0| :: a0[i].p != child
      requires FilesOk(a0, r0, others)
      modifies this`areas, this`refs, vm, vm.km
      ensures Valid() && vm.sh.roots == old(vm.sh.roots) && vm.held == old(vm.held) && vm.data == old(vm.data)
      ensures Elsewhere(old(vm.tables), old(vm.sh), vm.tables, vm.sh, spaces[child].root)
      ensures r == Failed || r == Stuck
      ensures r == Failed ==> && areas == a0 && refs == r0
                              && vm.flat == old(vm.flat) - Cover(old(areas), child, spaces[child].root)
      ensures r == Stuck ==> HasZero(a0, parent) && exists i | 0 <= i < NMMAP :: areas[i].p == child
    {
      ghost var a1 := areas;
      ghost var done := Cleanup(child);
      var k := FindOwned(child);
      r := if k < 0 then Failed else Stuck;
      if done {
        assert a1[..NMMAP] == a1 && AtZero(a1, child) == NMMAP;
        assert areas == a0;
        FilesDetermined(a0, r0, refs, others);
      } else {
        CopiedZero(a0, a1, parent, child);
      }
    }

    /** The second loop of mmap_fork, over the child's areas. Unless done, only some of the pages have been
        shared; w is a page that mappages meets twice. */
    method ShareAreas(child: nat, pr: nat, list: seq<Area>, ghost f0: map<Spot, Pte>)
      returns (r: Outcome, ghost cov: set<Spot>, ghost w: nat)
      requires Valid() && child in spaces && pr in vm.sh.roots && f0 == vm.flat && pr != spaces[child].root
      requires forall a <- list :: a in areas && a.p == child
      modifies vm`tables, vm`sh, vm`flat, vm`users, vm`held, vm.km
      ensures r != Stuck
      ensures Valid() && vm.sh.roots == old(vm.sh.roots) && vm.held == old(vm.held) && Shared(f0, vm.flat, pr, cov)
      ensures Elsewhere(old(vm.tables), old(vm.sh), vm.tables, vm.sh, spaces[child].root)
      ensures cov <= Cover(list, child, spaces[child].root)
      ensures r == Done ==> cov == Cover(list, child, spaces[child].root)
                            && Once(f0, list, child, pr, spaces[child].root)
      ensures r == Remap ==> Twice(f0, list, child, pr, spaces[child].root, w)
    {
      ghost var cr := spaces[child].root;
      cov, r, w := {}, Done, 0;
      var i := 0;
      SharedNone(f0, list, child, pr, cr, w);
      while r == Done && i < |list|
        invariant r != Stuck && i <= |list| && Valid() && vm.sh.roots == old(vm.sh.roots) && vm.held == old(vm.held)
        invariant Shared(f0, vm.flat, pr, cov) && Elsewhere(old(vm.tables), old(vm.sh), vm.tables, vm.sh, cr)
        invariant SharedSoFar(f0, list, i, child, pr, cr, cov, r, w)
        decreases |list| - i, r == Done
      {
        ghost var tables1, sh1 := vm.tables, vm.sh;
        r, cov, w := ShareNext(child, pr, list, i, f0, cov);
        ElsewhereThen(old(vm.tables), old(vm.sh), tables1, sh1, vm.tables, vm.sh, cr);
        if r == Done { i := i + 1; }
      }
      assert list[..|list|] == list;
    }

    method ShareNext(child: nat, pr: nat, list: seq<Area>, i: nat, ghost f0: map<Spot, Pte>, ghost cov: set<Spot>)
      returns (r: Outcome, ghost cov': set<Spot>, ghost w: nat)
      requires Valid() && child in spaces && pr in vm.sh.roots && pr != spaces[child].root && i < |list|
      requires (forall a <- list :: a in areas && a.p == child) && Shared(f0, vm.flat, pr, cov)
      requires SharedSoFar(f0, list, i, child, pr, spaces[child].root, cov, Done, 0)
      modifies vm`tables, vm`sh, vm`flat, vm`users, vm`held, vm.km
      ensures r != Stuck
      ensures Valid() && vm.sh.roots == old(vm.sh.roots) && vm.held == old(vm.held) && Shared(f0, vm.flat, pr, cov')
      ensures Elsewhere(old(vm.tables), old(vm.sh), vm.tables, vm.sh, spaces[child].root)
      ensures SharedSoFar(f0, list, if r == Done then i + 1 else i, child, pr, spaces[child].root, cov', r, w)
    {
      ghost var k, cr := 0, spaces[child].root;
      r, k := ShareArea(list[i], pr, f0, cov);
      cov', w := cov + Range(cr, list[i].addr, k), list[i].addr + k;
      SharedNext(f0, vm.flat, list, i, child, pr, cr, cov, r, k);
    }

    /** The page loop of mmap_fork for one area of the child. It stops at page k. */
    method ShareArea(a: Area, pr: nat, ghost f0: map<Spot, Pte>, ghost cov: set<Spot>)
      returns (r: Outcome, ghost k: nat)
      requires Valid() && a in areas && a.p in spaces && pr in vm.sh.roots && pr != spaces[a.p].root
      requires Shared(f0, vm.flat, pr, cov)
      modifies vm`tables, vm`sh, vm`flat, vm`users, vm`held, vm.km
      ensures r != Stuck
      ensures Valid() && vm.sh.roots == old(vm.sh.roots) && vm.held == old(vm.held)
      ensures Elsewhere(old(vm.tables), old(vm.sh), vm.tables, vm.sh, spaces[a.p].root)
      ensures if r == Done then k == a.length else k < a.length
      ensures Shared(f0, vm.flat, pr, cov + Range(spaces[a.p].root, a.addr, k))
      ensures NewIn(f0, cov, pr, spaces[a.p].root, a.addr, k)
      ensures r == Remap ==> (pr, a.addr + k) in f0 && (spaces[a.p].root, a.addr + k) in vm.flat
    {
      k, r := 0, Done;
      RangeGrows(spaces[a.p].root, a.addr, 0, cov);
      var i := 0;
      while r == Done && i < a.length
        invariant r != Stuck && i <= a.length && k == i && Valid() && (r != Done ==> i < a.length)
        invariant vm.sh.roots == old(vm.sh.roots) && vm.held == old(vm.held)
        invariant Elsewhere(old(vm.tables), old(vm.sh), vm.tables, vm.sh, spaces[a.p].root)
        invariant Shared(f0, vm.flat, pr, cov + Range(spaces[a.p].root, a.addr, k))
        invariant NewIn(f0, cov, pr, spaces[a.p].root, a.addr, k)
        invariant r == Remap ==> (pr, a.addr + k) in f0 && (spaces[a.p].root, a.addr + k) in vm.flat
        decreases a.length - i, r == Done
      {
        ghost var tables1, sh1 := vm.tables, vm.sh;
        r := SharePage(a, i, pr, f0, cov);
        ElsewhereThen(old(vm.tables), old(vm.sh), tables1, sh1, vm.tables, vm.sh, spaces[a.p].root);
        if r == Done { i, k := i + 1, k + 1; }
      }
    }

    method SharePage(a: Area, i: nat, pr: nat, ghost f0: map<Spot, Pte>, ghost cov: set<Spot>) returns (r: Outcome)
      requires Valid() && a in areas && a.p in spaces && pr in vm.sh.roots && pr != spaces[a.p].root && i < a.length
      requires Shared(f0, vm.flat, pr, cov + Range(spaces[a.p].root, a.addr, i))
      requires NewIn(f0, cov, pr, spaces[a.p].root, a.addr, i)
      modifies vm`tables, vm`sh, vm`flat, vm`users, vm`held, vm.km
      ensures r != Stuck
      ensures Valid() && vm.sh.roots == old(vm.sh.roots) && vm.held == old(vm.held)
      ensures Elsewhere(old(vm.tables), old(vm.sh), vm.tables, vm.sh, spaces[a.p].root)
      ensures Shared(f0, vm.flat, pr, cov + Range(spaces[a.p].root, a.addr, if r == Done then i + 1 else i))
      ensures NewIn(f0, cov, pr, spaces[a.p].root, a.addr, if r == Done then i + 1 else i)
      ensures r == Remap ==> (pr, a.addr + i) in f0 && (spaces[a.p].root, a.addr + i) in vm.flat
    {
      ghost var f1, u := vm.flat, (spaces[a.p].root, a.addr + i);
      InAreaIsCovered(areas, spaces, a, a.addr + i);
      var t, theirs := vm.Lookup(pr, a.addr + i);
      var t', mine := vm.Lookup(spaces[a.p].root, a.addr + i);
      SameParent(f0, f1, pr, cov + Range(u.0, a.addr, i), a.addr + i);
      if theirs == NULL_PTE {
        SharedSkip(f0, f1, pr, cov, u.0, a.addr, i);
        return Done;
      }
      if mine != NULL_PTE { return Remap; }
      SharedStep(f0, f1, areas, spaces, pr, cov, a, i);
      var ok := vm.ShareInto(pr, spaces[a.p].root, a.addr + i);
      r := if ok then Done else Failed;
    }
  }

  /** The first area of pid that starts at addr. */
  ghost predicate FirstAt(areas: seq<Area>, pid: nat, addr: nat, j: nat) {
    && j < |areas| && areas[j].p == pid && areas[j].addr == addr
    && forall i | 0 <= i < j :: !(areas[i].p == pid && areas[i].addr == addr)
  }

  /** Every entry is as it was, unused, or one of the owners'. */
  ghost predicate NoNewOwners(a0: seq<Area>, a1: seq<Area>, owners: set<nat>) {
    |a1| == |a0| && forall i {:trigger a1[i]} | 0 <= i < |a1| :: a1[i] == a0[i] || a1[i] == NO_AREA || a1[i].p in owners
  }

  ghost predicate HasUnused(areas: seq<Area>) { exists k | 0 <= k < |areas| :: areas[k].p == 0 }

  lemma CopiedZero(a0: seq<Area>, a1: seq<Area>, parent: nat, child: nat)
    requires Extended(a0, a1, parent, child) && (forall i | 0 <= i < |a0| :: a0[i].p != child) && HasZero(a1, child)
    ensures HasZero(a0, parent)
  {
    var i :| 0 <= i < |a1| && a1[i].p == child && a1[i].addr == 0;
    assert a1[i] != a0[i];
    var j :| 0 <= j < |a0| && a0[j] == a1[i].(p := parent);
  }

  /** What kmmap makes of the table, the file counts and the mapped pages for the new area a in entry i. */
  ghost predicate MapResult(a0: seq<Area>, r0: map<nat, nat>, f0: map<Spot, Pte>, d0: map<nat, Bytes>,
                            a1: seq<Area>, r1: map<nat, nat>, f1: map<Spot, Pte>, d1: map<nat, Bytes>,
                            files: map<nat, Bytes>, root: nat, a: Area, populate: bool, ok: bool, i: nat, j: nat)
  {
    && i < |a0| && a0[i].p == 0
    && (!populate ==> ok && f1 == f0)
    && (ok ==> a1 == a0[i := a])
    && (populate && ok ==> Populated(f0, d0, f1, d1, files, a, root, a.length))
    && (!ok ==> FirstAt(a0[i := a], a.p, a.addr, j) && a1 == a0[i := a][j := NO_AREA])
    && (!ok && j == i ==> a1 == a0 && r1 == r0 && f1 == f0 - Range(root, a.addr, a.length))
  }

  lemma NewAreaInBounds(pid: nat, addr: nat, length: int, prot: int, flags: int, fd: int, offset: int,
                        ofile: map<int, nat>)
    requires addr % 4096 == 0 && length > 0 && length % 4096 == 0 && Fits(addr, length)
    requires !IsAnon(flags) ==> fd in ofile && ofile[fd] != 0
    ensures InBounds(NewArea(pid, addr, length, prot, flags, fd, offset, ofile))
  {
  }

  // ---------- mmap_fork ----------

  /** Page v is populated in the parent, lies in one of the areas, and mappages meets it a second time. */
  ghost predicate Twice(f0: map<Spot, Pte>, areas: seq<Area>, pid: nat, pr: nat, cr: nat, v: nat) {
    (pr, v) in f0 && Hits(areas, pid, v) >= 1 && Hits(areas, pid, v) + (if (cr, v) in f0 then 1 else 0) >= 2
  }

  ghost predicate Once(f0: map<Spot, Pte>, areas: seq<Area>, pid: nat, pr: nat, cr: nat) {
    forall v: nat {:trigger Hits(areas, pid, v)} :: !Twice(f0, areas, pid, pr, cr, v)
  }

  /** f is f0 without some of the spots cov. */
  ghost predicate Trimmed(f0: map<Spot, Pte>, f: map<Spot, Pte>, cov: set<Spot>) {
    (forall u <- f :: u in f0 && f[u] == f0[u]) && forall u <- f0 :: u in f || u in cov
  }

  lemma TrimmedNone(f0: map<Spot, Pte>, f: map<Spot, Pte>, cov: set<Spot>)
    requires Trimmed(f0, f, cov) && f0.Keys !! cov
    ensures f == f0
  {
    forall u <- f0 ensures u in f { assert u in f0.Keys; }
  }

  /** The parent's areas, for the child. */
  function Copies(areas: seq<Area>, parent: nat, child: nat): seq<Area> {
    if areas == [] then [] else
    var a := areas[|areas|-1];
    Copies(areas[..|areas|-1], parent, child) + if a.p == parent then [a.(p := child)] else []
  }

  lemma {:induction false} CopiesIn(areas: seq<Area>, parent: nat, child: nat, x: Area)
    ensures x in Copies(areas, parent, child) <==> x.p == child && x.(p := parent) in areas
    decreases |areas|
  {
    if areas == [] {
    } else {
      var n := |areas| - 1;
      CopiesIn(areas[..n], parent, child, x);
      assert x.(p := parent) in areas <==> x.(p := parent) in areas[..n] || x.(p := parent) == areas[n];
    }
  }

  lemma {:induction false} CopiesHits(areas: seq<Area>, parent: nat, child: nat, v: nat)
    ensures Hits(Copies(areas, parent, child), child, v) == Hits(areas, parent, v)
    decreases |areas|
  {
    if areas == [] {
    } else {
      var n := |areas| - 1;
      var less, all := Copies(areas[..n], parent, child), Copies(areas, parent, child);
      CopiesHits(areas[..n], parent, child, v);
      if areas[n].p == parent { assert all[..|all|-1] == less; } else { assert all == less; }
    }
  }

  /** The list stands for the parent's areas. */
  lemma TwiceIn(f0: map<Spot, Pte>, a0: seq<Area>, list: seq<Area>, parent: nat, child: nat, pr: nat, cr: nat,
                once: bool, w: nat)
    requires list == Copies(a0, parent, child)
    requires if once then Once(f0, list, child, pr, cr) else Twice(f0, list, child, pr, cr, w)
    ensures once ==> forall v: nat :: !Twice(f0, a0, parent, pr, cr, v)
    ensures !once ==> Twice(f0, a0, parent, pr, cr, w)
  {
    forall v: nat ensures Twice(f0, a0, parent, pr, cr, v) <==> Twice(f0, list, child, pr, cr, v) {
      CopiesHits(a0, parent, child, v);
    }
    if once { forall v: nat ensures !Twice(f0, a0, parent, pr, cr, v) { assert Hits(list, child, v) >= 0; } }
  }

  lemma CopyCover(a0: seq<Area>, a1: seq<Area>, parent: nat, child: nat, cr: nat)
    requires Extended(a0, a1, parent, child) && forall i | 0 <= i < |a0| :: a0[i].p != child
    ensures Cover(a1, child, cr) <= Cover(a0, parent, cr)
  {
    forall u <- Cover(a1, child, cr) ensures u in Cover(a0, parent, cr) {
      CoverIs(a1, child, cr, u);
      CoverIs(a0, parent, cr, u);
      var i :| 0 <= i < |a1| && a1[i].p == child && Inside(a1[i], u.1);
      var j :| 0 <= j < |a0| && a0[j] == a1[i].(p := parent);
      assert Inside(a0[j], u.1);
    }
  }

  lemma CopiesCover(a0: seq<Area>, a1: seq<Area>, list: seq<Area>, parent: nat, child: nat, cr: nat)
    requires Extended(a0, a1, parent, child) && (forall i | 0 <= i < |a0| :: a0[i].p != child) && parent != child
    requires list == Copies(a0, parent, child) && forall a <- list :: a in a1
    ensures Cover(list, child, cr) == Cover(a1, child, cr) && (forall a <- list :: a.p == child)
    ensures forall a <- a0 | a.p == parent :: a.(p := child) in a1
  {
    forall a <- list ensures a.p == child { CopiesIn(a0, parent, child, a); }
    forall a <- a0 | a.p == parent ensures a.(p := child) in a1 {
      assert a.(p := child).(p := parent) == a;
      CopiesIn(a0, parent, child, a.(p := child));
    }
    forall u: Spot ensures u in Cover(list, child, cr) <==> u in Cover(a1, child, cr) {
      CoverIs(list, child, cr, u);
      CoverIs(a1, child, cr, u);
      if j :| 0 <= j < |list| && list[j].p == child && Inside(list[j], u.1) { assert list[j] in a1; }
      if j :| 0 <= j < |a1| && a1[j].p == child && Inside(a1[j], u.1) {
        CopiesIn(a0, parent, child, a1[j]);
        assert a1[j] in list;
      }
    }
  }

  lemma SharedTrimmed(f0: map<Spot, Pte>, f: map<Spot, Pte>, pr: nat, cov: set<Spot>, gone: set<Spot>, all: set<Spot>)
    requires Shared(f0, f, pr, cov) && cov <= gone <= all
    ensures Trimmed(f0, f - gone, all)
  {
    forall u: Spot ensures (u in f - gone ==> u in f0 && f[u] == f0[u]) && (u in f0 ==> u in f - gone || u in all) {
      assert SharedAt(f0, f, pr, cov, u);
    }
  }

  /** The parent's pages among the k from addr on were not mapped in the child before. */
  ghost predicate NewIn(f0: map<Spot, Pte>, cov: set<Spot>, pr: nat, cr: nat, addr: nat, k: nat) {
    forall v: nat {:trigger NewAt(f0, cov, pr, cr, v)} | addr <= v < addr + k :: NewAt(f0, cov, pr, cr, v)
  }

  ghost predicate NewAt(f0: map<Spot, Pte>, cov: set<Spot>, pr: nat, cr: nat, v: nat) {
    (pr, v) in f0 ==> (cr, v) !in f0 && (cr, v) !in cov
  }

  lemma OnceGrows(f0: map<Spot, Pte>, list: seq<Area>, i: nat, child: nat, pr: nat, cr: nat)
    requires i < |list| && list[i].p == child && Once(f0, list[..i], child, pr, cr)
    requires NewIn(f0, Cover(list[..i], child, cr), pr, cr, list[i].addr, list[i].length)
    ensures Once(f0, list[..i + 1], child, pr, cr)
  {
    var more := list[..i + 1];
    assert more[..i] == list[..i];
    forall v: nat ensures !Twice(f0, more, child, pr, cr, v) {
      assert !Twice(f0, list[..i], child, pr, cr, v);
      HitsCover(list[..i], child, cr, v);
      if Inside(list[i], v) { assert NewAt(f0, Cover(list[..i], child, cr), pr, cr, v); }
    }
  }

  /** The first i areas of the list are shared, or sharing them met w twice, or failed. */
  ghost predicate SharedSoFar(f0: map<Spot, Pte>, list: seq<Area>, i: nat, child: nat, pr: nat, cr: nat, cov: set<Spot>,
                              r: Outcome, w: nat) {
    && i <= |list| && cov <= Cover(list, child, cr)
    && (r == Done ==> cov == Cover(list[..i], child, cr) && Once(f0, list[..i], child, pr, cr))
    && (r == Remap ==> Twice(f0, list, child, pr, cr, w))
  }

  lemma SharedNone(f0: map<Spot, Pte>, list: seq<Area>, child: nat, pr: nat, cr: nat, w: nat)
    ensures SharedSoFar(f0, list, 0, child, pr, cr, {}, Done, w)
  {
    var none := list[..0];
    assert none == [];
    forall v: nat ensures !Twice(f0, none, child, pr, cr, v) {}
  }

  lemma SharedNext(f0: map<Spot, Pte>, f: map<Spot, Pte>, list: seq<Area>, i: nat, child: nat, pr: nat, cr: nat,
                   cov: set<Spot>, r: Outcome, k: nat)
    requires i < |list| && list[i].p == child && SharedSoFar(f0, list, i, child, pr, cr, cov, Done, 0)
    requires if r == Done then k == list[i].length else k < list[i].length
    requires Shared(f0, f, pr, cov + Range(cr, list[i].addr, k)) && NewIn(f0, cov, pr, cr, list[i].addr, k)
    requires r == Remap ==> (pr, list[i].addr + k) in f0 && (cr, list[i].addr + k) in f
    ensures SharedSoFar(f0, list, if r == Done then i + 1 else i, child, pr, cr, cov + Range(cr, list[i].addr, k), r,
                        list[i].addr + k)
  {
    CoverPart(list, i, child, cr, k);
    if r == Done {
      assert list[..i + 1][..i] == list[..i];
      OnceGrows(f0, list, i, child, pr, cr);
    } else if r == Remap {
      RemapIsTwice(f0, f, list, i, child, pr, cr, cov, k);
    }
  }

  lemma CoverPart(list: seq<Area>, i: nat, pid: nat, root: nat, k: nat)
    requires i < |list| && list[i].p == pid && k <= list[i].length
    ensures Cover(list[..i], pid, root) + Range(root, list[i].addr, k) <= Cover(list, pid, root)
  {
    forall u <- Cover(list[..i], pid, root) + Range(root, list[i].addr, k) ensures u in Cover(list, pid, root) {
      CoverIs(list[..i], pid, root, u);
      CoverIs(list, pid, root, u);
      if u in Range(root, list[i].addr, k) {
        assert Inside(list[i], u.1);
      } else {
        var j :| 0 <= j < i && list[..i][j].p == pid && Inside(list[..i][j], u.1);
        assert Inside(list[j], u.1);
      }
    }
  }

  lemma {:induction false} HitsPrefix(list: seq<Area>, n: nat, pid: nat, v: nat)
    requires n <= |list|
    ensures Hits(list[..n], pid, v) <= Hits(list, pid, v)
    decreases |list|
  {
    if n == |list| {
      assert list[..n] == list;
    } else {
      var m := |list| - 1;
      HitsPrefix(list[..m], n, pid, v);
      assert list[..m][..n] == list[..n];
    }
  }

  lemma RemapIsTwice(f0: map<Spot, Pte>, f: map<Spot, Pte>, list: seq<Area>, i: nat, child: nat, pr: nat, cr: nat,
                     cov: set<Spot>, k: nat)
    requires i < |list| && list[i].p == child && k < list[i].length && cov == Cover(list[..i], child, cr)
    requires Shared(f0, f, pr, cov + Range(cr, list[i].addr, k))
    requires (pr, list[i].addr + k) in f0 && (cr, list[i].addr + k) in f
    ensures Twice(f0, list, child, pr, cr, list[i].addr + k)
  {
    var v := list[i].addr + k;
    assert list[..i + 1][..i] == list[..i];
    HitsPrefix(list, i + 1, child, v);
    HitsCover(list[..i], child, cr, v);
    assert SharedAt(f0, f, pr, cov + Range(cr, list[i].addr, k), (cr, v));
  }

  lemma SameParent(f0: map<Spot, Pte>, f: map<Spot, Pte>, pr: nat, cov: set<Spot>, v: nat)
    requires Shared(f0, f, pr, cov)
    ensures (pr, v) in f <==> (pr, v) in f0
  {
    assert SharedAt(f0, f, pr, cov, (pr, v));
  }

  lemma SharedSkip(f0: map<Spot, Pte>, f: map<Spot, Pte>, pr: nat, cov: set<Spot>, cr: nat, addr: nat, i: nat)
    requires Shared(f0, f, pr, cov + Range(cr, addr, i)) && NewIn(f0, cov, pr, cr, addr, i) && (pr, addr + i) !in f0
    ensures Shared(f0, f, pr, cov + Range(cr, addr, i + 1)) && NewIn(f0, cov, pr, cr, addr, i + 1)
  {
    RangeGrows(cr, addr, i, cov);
    var some, more := cov + Range(cr, addr, i), cov + Range(cr, addr, i + 1);
    forall w: Spot ensures SharedAt(f0, f, pr, more, w) { assert SharedAt(f0, f, pr, some, w); }
    forall v: nat | addr <= v < addr + i + 1 ensures NewAt(f0, cov, pr, cr, v) {
      if v < addr + i { assert NewAt(f0, cov, pr, cr, v); }
    }
  }

  /** The areas and the other holders determine every file's reference count. */
  lemma FilesDetermined(areas: seq<Area>, refs: map<nat, nat>, refs': map<nat, nat>, others: map<nat, nat>)
    requires FilesOk(areas, refs, others) && FilesOk(areas, refs', others)
    ensures refs == refs'
  {
    assert refs.Keys == refs'.Keys;
  }

  /** Page v of the area is new since f0 and sits on a frame of its own that holds what the mapping prescribes. */
  ghost predicate OwnFrame(f0: map<Spot, Pte>, f: map<Spot, Pte>, d: map<nat, Bytes>, files: map<nat, Bytes>, a: Area,
                           root: nat, v: nat) {
    && (root, v) in f && (root, v) !in f0 && v < TRAPFRAME
    && f[(root, v)].perm == AreaPerm(a) && PageData(d, f[(root, v)].ppn) == AreaPage(files, a, v)
    && forall u <- f | u.1 < TRAPFRAME && u != (root, v) :: f[u].ppn != f[(root, v)].ppn
  }

  /** f is f0 plus those of the area's first n pages that were not mapped. */
  ghost predicate Populated(f0: map<Spot, Pte>, d0: map<nat, Bytes>, f: map<Spot, Pte>, d: map<nat, Bytes>,
                            files: map<nat, Bytes>, a: Area, root: nat, n: nat)
  {
    && (forall u <- f0 :: u in f && f[u] == f0[u]) && (forall u <- f :: u in f0 || u in Range(root, a.addr, n))
    && (forall v: nat {:trigger PopulatedAt(f0, f, d, files, a, root, v)} | a.addr <= v < a.addr + n ::
          PopulatedAt(f0, f, d, files, a, root, v))
    && SameData(f0, d0, d)
  }

  ghost predicate PopulatedAt(f0: map<Spot, Pte>, f: map<Spot, Pte>, d: map<nat, Bytes>, files: map<nat, Bytes>,
                              a: Area, root: nat, v: nat) {
    (root, v) in f0 || OwnFrame(f0, f, d, files, a, root, v)
  }

  lemma PopulateMore(f0: map<Spot, Pte>, d0: map<nat, Bytes>, f: map<Spot, Pte>, d: map<nat, Bytes>,
                     d': map<nat, Bytes>, files: map<nat, Bytes>, a: Area, root: nat, n: nat)
    requires Populated(f0, d0, f, d, files, a, root, n) && SameData(f, d, d')
    ensures Populated(f0, d0, f, d', files, a, root, n)
  {
    forall u <- f0 | u.1 < TRAPFRAME ensures PageData(d', f0[u].ppn) == PageData(d0, f0[u].ppn) {
      assert u in f && f[u] == f0[u];
    }
    forall v: nat | a.addr <= v < a.addr + n ensures PopulatedAt(f0, f, d', files, a, root, v) {
      assert PopulatedAt(f0, f, d, files, a, root, v);
    }
  }

  lemma PopulateStep(f0: map<Spot, Pte>, d0: map<nat, Bytes>, f: map<Spot, Pte>, d: map<nat, Bytes>,
                     files: map<nat, Bytes>, a: Area, root: nat, n: nat, p: nat)
    requires Populated(f0, d0, f, d, files, a, root, n) && a.addr + n < TRAPFRAME && (root, a.addr + n) !in f
    requires PageData(d, p) == AreaPage(files, a, a.addr + n) && Unused(f, p)
    ensures Populated(f0, d0, f[(root, a.addr + n) := Pte(p, true, AreaPerm(a))], d, files, a, root, n + 1)
  {
    var f' := f[(root, a.addr + n) := Pte(p, true, AreaPerm(a))];
    RangeNext(root, a.addr, n);
    forall v: nat | a.addr <= v < a.addr + n + 1 ensures PopulatedAt(f0, f', d, files, a, root, v) {
      if v < a.addr + n { assert PopulatedAt(f0, f, d, files, a, root, v); }
    }
  }

  lemma RangeNext(root: nat, vpn: nat, k: nat)
    ensures Range(root, vpn, k + 1) == Range(root, vpn, k) + {(root, vpn + k)}
    ensures (root, vpn + k) !in Range(root, vpn, k)
  {
  }

  /** The page was mapped before the call. */
  lemma PopulateSkip(f0: map<Spot, Pte>, d0: map<nat, Bytes>, f: map<Spot, Pte>, d: map<nat, Bytes>,
                     files: map<nat, Bytes>, a: Area, root: nat, n: nat)
    requires Populated(f0, d0, f, d, files, a, root, n) && (root, a.addr + n) in f
    ensures Populated(f0, d0, f, d, files, a, root, n + 1)
  {
    RangeNext(root, a.addr, n);
    forall v: nat | a.addr <= v < a.addr + n + 1 ensures PopulatedAt(f0, f, d, files, a, root, v) {
      if v < a.addr + n { assert PopulatedAt(f0, f, d, files, a, root, v); }
    }
  }

  lemma PopulateOne(f0: map<Spot, Pte>, d0: map<nat, Bytes>, f: map<Spot, Pte>, d: map<nat, Bytes>,
                    f': map<Spot, Pte>, d': map<nat, Bytes>, files: map<nat, Bytes>, a: Area, root: nat, n: nat, p: nat,
                    ok: bool)
    requires Populated(f0, d0, f, d, files, a, root, n) && SameData(f, d, d') && a.addr + n < TRAPFRAME
    requires if ok && (root, a.addr + n) !in f
             then && f' == f[(root, a.addr + n) := Pte(p, true, AreaPerm(a))]
                  && PageData(d', p) == AreaPage(files, a, a.addr + n) && Unused(f, p)
             else f' == f
    ensures Populated(f0, d0, f', d', files, a, root, if ok then n + 1 else n)
  {
    PopulateMore(f0, d0, f, d, d', files, a, root, n);
    if ok {
      if (root, a.addr + n) in f {
        PopulateSkip(f0, d0, f, d', files, a, root, n);
      } else {
        PopulateStep(f0, d0, f, d', files, a, root, n, p);
      }
    }
  }

  /** Unmapping a partly populated area leaves what lay outside its range. */
  lemma Unpopulated(f0: map<Spot, Pte>, d0: map<nat, Bytes>, f: map<Spot, Pte>, d: map<nat, Bytes>,
                    files: map<nat, Bytes>, a: Area, root: nat, n: nat)
    requires Populated(f0, d0, f, d, files, a, root, n) && n <= a.length
    ensures f - Range(root, a.addr, a.length) == f0 - Range(root, a.addr, a.length)
  {
    assert Range(root, a.addr, n) <= Range(root, a.addr, a.length);
  }

  /** The pages of an area in its process's address space. */
  ghost function AreaSpots(a: Area, spaces: map<nat, Space>): set<Spot>
    requires a.p in spaces
  {
    Range(spaces[a.p].root, a.addr, a.length)
  }

  /** Nothing of the area is mapped in the address space yet. */
  ghost predicate Fresh(f: map<Spot, Pte>, a: Area, root: nat) { forall v: nat | Inside(a, v) :: (root, v) !in f }

  /** f is f0 plus, at the spots cov, the very PTEs that pr has at those pages. */
  ghost predicate Shared(f0: map<Spot, Pte>, f: map<Spot, Pte>, pr: nat, cov: set<Spot>) {
    forall u: Spot {:trigger SharedAt(f0, f, pr, cov, u)} :: SharedAt(f0, f, pr, cov, u)
  }

  ghost predicate SharedAt(f0: map<Spot, Pte>, f: map<Spot, Pte>, pr: nat, cov: set<Spot>, u: Spot) {
    && (u in f0 ==> u in f && f[u] == f0[u])
    && (u in f && u !in f0 ==> u in cov && (pr, u.1) in f0 && f[u] == f0[(pr, u.1)])
    && (u in cov && (pr, u.1) in f0 ==> u in f)
  }

  lemma SharedStep(f0: map<Spot, Pte>, f: map<Spot, Pte>, areas: seq<Area>, spaces: map<nat, Space>, pr: nat,
                   cov: set<Spot>, a: Area, i: nat)
    requires AreasOk(areas, spaces) && MappedOk(f, areas, spaces) && a in areas && a.p in spaces && i < a.length
    requires RootsDiffer(spaces) && pr != spaces[a.p].root
    requires Shared(f0, f, pr, cov + Range(spaces[a.p].root, a.addr, i))
    requires NewIn(f0, cov, pr, spaces[a.p].root, a.addr, i)
    requires (pr, a.addr + i) in f && (spaces[a.p].root, a.addr + i) !in f
    ensures var after := f[(spaces[a.p].root, a.addr + i) := f[(pr, a.addr + i)]];
            && MappedOk(after, areas, spaces) && Shared(f0, after, pr, cov + Range(spaces[a.p].root, a.addr, i + 1))
    ensures NewIn(f0, cov, pr, spaces[a.p].root, a.addr, i + 1)
  {
    var u, v := (spaces[a.p].root, a.addr + i), a.addr + i;
    InAreaIsCovered(areas, spaces, a, v);
    MappedAt(f, areas, spaces, a.p, v, f[(pr, v)]);
    RangeGrows(spaces[a.p].root, a.addr, i, cov);
    var some, more := cov + Range(spaces[a.p].root, a.addr, i), cov + Range(spaces[a.p].root, a.addr, i + 1);
    var after := f[u := f[(pr, v)]];
    assert SharedAt(f0, f, pr, some, u) && SharedAt(f0, f, pr, some, (pr, v));
    forall w: Spot ensures SharedAt(f0, after, pr, more, w) { assert SharedAt(f0, f, pr, some, w); }
    forall w: nat | a.addr <= w < a.addr + i + 1 ensures NewAt(f0, cov, pr, u.0, w) {
      if w < v { assert NewAt(f0, cov, pr, u.0, w); }
    }
  }

  lemma RangeGrows(root: nat, vpn: nat, k: nat, cov: set<Spot>)
    ensures cov + Range(root, vpn, k) + {(root, vpn + k)} == cov + Range(root, vpn, k + 1)
    ensures cov + Range(root, vpn, 0) == cov && (root, vpn + k) !in Range(root, vpn, k)
    ensures (root, vpn + k) in Range(root, vpn, k + 1)
  {
  }

  /** A page inside an area may be mapped. */
  lemma MappedAt(flat: map<Spot, Pte>, areas: seq<Area>, spaces: map<nat, Space>, pid: nat, v: nat, pte: Pte)
    requires MappedOk(flat, areas, spaces) && pid in spaces
    requires (spaces[pid].root, v) in Cover(areas, pid, spaces[pid].root)
    requires RootsDiffer(spaces)
    ensures MappedOk(flat[(spaces[pid].root, v) := pte], areas, spaces)
  {
    var flat' := flat[(spaces[pid].root, v) := pte];
    forall u: Spot, p ensures Home(flat', areas, spaces, u, p) {
      assert Home(flat, areas, spaces, u, p) && OwnRoots(spaces, pid, p);
    }
  }

  ghost predicate Copying(a0: seq<Area>, areas: seq<Area>, list: seq<Area>, parent: nat, child: nat, i: nat) {
    i <= |a0| && Extended(a0, areas, parent, child) && list == Copies(a0[..i], parent, child)
      && forall a <- list :: a in areas
  }

  lemma CopySkip(a0: seq<Area>, areas: seq<Area>, list: seq<Area>, parent: nat, child: nat, i: nat)
    requires Copying(a0, areas, list, parent, child, i) && i < |a0| && areas[i].p != parent && parent != child
    requires parent != 0
    ensures Copying(a0, areas, list, parent, child, i + 1)
  {
    assert a0[..i + 1][..i] == a0[..i];
  }

  lemma CopyStep(a0: seq<Area>, areas: seq<Area>, spaces: map<nat, Space>, list: seq<Area>, parent: nat, child: nat,
                 i: nat, dst: nat)
    requires AreasOk(a0, spaces) && AreasOk(areas, spaces) && Copying(a0, areas, list, parent, child, i)
    requires parent in spaces && child in spaces && parent != child
    requires i < NMMAP && dst < NMMAP && areas[i].p == parent && areas[dst].p == 0
    ensures var a := areas[i].(p := child);
              InBounds(a) && Copying(a0, areas[dst := a], list + [a], parent, child, i + 1)
  {
    var a := areas[i].(p := child);
    var after := areas[dst := a];
    assert a0[..i + 1][..i] == a0[..i];
    assert a.(p := parent) == a0[i];
    forall x <- list + [a] ensures x in after {
      if x in list {
        CopiesIn(a0[..i], parent, child, x);
        var j :| 0 <= j < |areas| && areas[j] == x;
        assert after[j] == x;
      } else {
        assert after[dst] == x;
      }
    }
  }

  /** areas is a0 with copies of parent's areas for child in entries that were unused. */
  ghost predicate Extended(a0: seq<Area>, areas: seq<Area>, parent: nat, child: nat) {
    |areas| == |a0| && forall j | 0 <= j < |a0| ::
      areas[j] == a0[j] || (a0[j] == NO_AREA && areas[j].p == child && areas[j].(p := parent) in a0)
  }

  lemma MappedMore(flat: map<Spot, Pte>, areas: seq<Area>, spaces: map<nat, Space>, dst: nat, a: Area)
    requires MappedOk(flat, areas, spaces) && dst < |areas| && areas[dst].p == 0 && 0 !in spaces
    ensures MappedOk(flat, areas[dst := a], spaces)
  {
    var after := areas[dst := a];
    forall u: Spot, p ensures Home(flat, after, spaces, u, p) {
      assert Home(flat, areas, spaces, u, p);
      if u in flat && p in spaces && u.1 < TRAPFRAME && u.0 == spaces[p].root && u.1 >= spaces[p].sz {
        CoverIs(areas, p, spaces[p].root, u);
        CoverIs(after, p, spaces[p].root, u);
        var i :| 0 <= i < |areas| && areas[i].p == p && Inside(areas[i], u.1);
        assert after[i].p == p && Inside(after[i], u.1);
      }
    }
  }

  /** The index of pid's first area that starts at address 0, or the end of the table. */
  ghost function AtZero(areas: seq<Area>, pid: nat): (n: nat)
    ensures n <= |areas| && (n < |areas| ==> areas[n].p == pid && areas[n].addr == 0)
    ensures forall i | 0 <= i < n :: !(areas[i].p == pid && areas[i].addr == 0)
  {
    if areas == [] then 0 else
    var n := AtZero(areas[..|areas|-1], pid);
    assert forall i | 0 <= i < |areas| - 1 :: areas[..|areas|-1][i] == areas[i];
    if n < |areas| - 1 || (areas[|areas|-1].p == pid && areas[|areas|-1].addr == 0) then n else n + 1
  }

  ghost predicate HasZero(areas: seq<Area>, pid: nat) {
    exists i | 0 <= i < |areas| :: areas[i].p == pid && areas[i].addr == 0
  }

  /** pid's areas below entry n have been erased from a0. */
  ghost predicate Swept(a0: seq<Area>, a: seq<Area>, pid: nat, n: nat) {
    |a| == |a0| && forall i | 0 <= i < |a| :: a[i] == if i < n && a0[i].p == pid then NO_AREA else a0[i]
  }

  lemma {:induction false} CoverSkip(a0: seq<Area>, pid: nat, n: nat, k: nat, root: nat)
    requires n <= k <= |a0| && forall i | n <= i < k :: a0[i].p != pid
    ensures Cover(a0[..k], pid, root) == Cover(a0[..n], pid, root)
    decreases k
  {
    if k == n {
    } else {
      CoverSkip(a0, pid, n, k - 1, root);
      assert a0[..k][..k - 1] == a0[..k - 1];
    }
  }

  /** The next area of pid is at k: the entries up to it are as good as swept. */
  lemma SweptTo(a0: seq<Area>, a: seq<Area>, pid: nat, n: nat, k: nat, root: nat) returns (n': nat)
    requires pid != 0 && Swept(a0, a, pid, n) && n <= AtZero(a0, pid) && k <= |a|
    requires (forall i | 0 <= i < k :: a[i].p != pid) && (k < |a| ==> a[k].p == pid)
    ensures n <= n' == k <= AtZero(a0, pid) && Swept(a0, a, pid, k)
    ensures Cover(a0[..k], pid, root) == Cover(a0[..n], pid, root)
    ensures k == |a| || a[k].addr == 0 ==> k == AtZero(a0, pid)
  {
    n' := k;
    forall i | n <= i < k ensures a0[i].p != pid { assert a[i] == a0[i]; }
    CoverSkip(a0, pid, n, k, root);
    if k < |a| { assert a[k] == a0[k]; }
  }

  lemma SweptNext(a0: seq<Area>, a: seq<Area>, pid: nat, k: nat, root: nat, f0: map<Spot, Pte>)
    requires pid != 0 && Swept(a0, a, pid, k) && k < |a| && a[k].p == pid && a[k].addr != 0 && k <= AtZero(a0, pid)
    ensures Swept(a0, a[k := NO_AREA], pid, k + 1) && k < AtZero(a0, pid)
    ensures f0 - Cover(a0[..k], pid, root) - Range(root, a[k].addr, a[k].length) == f0 - Cover(a0[..k + 1], pid, root)
  {
    assert a[k] == a0[k];
    assert a0[..k + 1][..k] == a0[..k];
  }

  lemma SweptAll(a0: seq<Area>, a: seq<Area>, pid: nat, n: nat)
    requires pid != 0 && Swept(a0, a, pid, n) && n == AtZero(a0, pid)
    ensures n == |a0| <==> !HasZero(a0, pid)
    ensures n == |a0| <==> forall i | 0 <= i < |a| :: a[i].p != pid
  {
    if n < |a0| { assert a[n] == a0[n]; }
  }

  lemma CoverNone(areas: seq<Area>, pid: nat, root: nat)
    requires forall i | 0 <= i < |areas| :: areas[i].p != pid
    ensures Cover(areas, pid, root) == {}
  {
    forall u: Spot ensures u !in Cover(areas, pid, root) { CoverIs(areas, pid, root, u); }
  }

  lemma MappedAfterMunmap(flat: map<Spot, Pte>, areas: seq<Area>, spaces: map<nat, Space>, k: nat)
    requires AreasOk(areas, spaces) && MappedOk(flat, areas, spaces) && k < NMMAP && areas[k].p in spaces
    requires RootsDiffer(spaces)
    ensures MappedOk(flat - Range(spaces[areas[k].p].root, areas[k].addr, areas[k].length), areas[k := NO_AREA], spaces)
    ensures AreasOk(areas[k := NO_AREA], spaces) && areas[k].addr + areas[k].length <= TRAPFRAME
  {
    var pid := areas[k].p;
    var gone, after := Range(spaces[pid].root, areas[k].addr, areas[k].length), areas[k := NO_AREA];
    var less := flat - gone;
    forall u: Spot, p ensures Home(less, after, spaces, u, p) {
      assert Home(flat, areas, spaces, u, p);
      if u in less && p in spaces && u.1 < TRAPFRAME && u.0 == spaces[p].root && u.1 >= spaces[p].sz {
        CoverIs(areas, p, spaces[p].root, u);
        CoverIs(after, p, spaces[p].root, u);
        var i :| 0 <= i < NMMAP && areas[i].p == p && Inside(areas[i], u.1);
        assert (spaces[pid].root, u.1) in gone <==> Inside(areas[k], u.1);
        assert after[i].p == p && Inside(after[i], u.1);
      }
    }
  }

  lemma {:induction false} NoHolders(areas: seq<Area>, f: nat)
    requires f != 0 && forall i | 0 <= i < |areas| :: areas[i] == NO_AREA
    ensures Holders(areas, f) == 0
    decreases |areas|
  {
    if areas == [] {
    } else {
      NoHolders(areas[..|areas|-1], f);
    }
  }

  lemma InAreaIsCovered(areas: seq<Area>, spaces: map<nat, Space>, a: Area, v: nat)
    requires AreasOk(areas, spaces) && a in areas && a.p in spaces && Inside(a, v)
    ensures v < TRAPFRAME && (spaces[a.p].root, v) in Cover(areas, a.p, spaces[a.p].root)
  {
    var i :| 0 <= i < |areas| && areas[i] == a;
    CoverIs(areas, a.p, spaces[a.p].root, (spaces[a.p].root, v));
  }
}
