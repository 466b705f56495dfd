/** Address spaces over their life: allocproc and proc_pagetable, growproc and lazy sbrk,
    vmfault, kfork, and freeproc after mmap_cleanup. Each keeps the ownership of every page
    balanced. */
module Spaces {
  import opened Kalloc
  import opened PageTable
  import opened Ownership
  import opened Vm
  import opened Mmap
  import opened Sbrk

  function Kept(kept: map<nat, nat>, p: nat): nat { if p in kept then kept[p] else 0 }

  /** The kernel's direct references are one per trapframe, and those it keeps for itself. */
  ghost predicate Traps(held: map<nat, nat>, spaces: map<nat, Space>, kept: map<nat, nat>) {
    && (forall p, q {:trigger OwnFrames(held, spaces, p, q)} :: OwnFrames(held, spaces, p, q))
    && forall x: nat {:trigger HolderAt(held, spaces, kept, x)} :: HolderAt(held, spaces, kept, x)
  }

  ghost predicate OwnFrames(held: map<nat, nat>, spaces: map<nat, Space>, p: nat, q: nat) {
    p in spaces ==> spaces[p].tf in held && (q in spaces && q != p ==> spaces[q].tf != spaces[p].tf)
  }

  ghost predicate HolderAt(held: map<nat, nat>, spaces: map<nat, Space>, kept: map<nat, nat>, x: nat) {
    && (x in kept ==> x in held)
    && (x in held ==> held[x] == (if IsTrapframe(spaces, x) then 1 else 0) + Kept(kept, x))
  }

  ghost predicate IsTrapframe(spaces: map<nat, Space>, x: nat) { exists p :: p in spaces && spaces[p].tf == x }

  /** The roots are those of the processes. */
  ghost predicate RootsAre(roots: set<nat>, spaces: map<nat, Space>) {
    forall x: nat {:trigger RootAt(roots, spaces, x)} :: RootAt(roots, spaces, x)
  }

  ghost predicate RootAt(roots: set<nat>, spaces: map<nat, Space>, x: nat) {
    x in roots <==> exists p :: p in spaces && spaces[p].root == x
  }

  ghost predicate Ready(t: MmapTable)
    reads t, t.vm, t.vm.km
  {
    t.Valid() && Traps(t.vm.held, t.spaces, t.kept) && RootsAre(t.vm.sh.roots, t.spaces)
  }

  /** Everything that owns pages, and the reference counts. */
  datatype Snapshot = Snapshot(refcnt: map<nat, nat>, free: seq<nat>, flat: map<Spot, Pte>, tables: set<nat>,
                               areas: seq<Area>, spaces: map<nat, Space>, kept: map<nat, nat>)

  ghost function Snap(t: MmapTable): Snapshot
    reads t, t.vm, t.vm.km
  {
    Snapshot(t.vm.km.refcnt, t.vm.km.free, t.vm.flat, t.vm.tables.Keys, t.areas, t.spaces, t.kept)
  }

  /** The reference count of a page is the number of user PTEs that map it in all address spaces, plus one for a
      trapframe or a page-table page, plus what the kernel keeps; it is zero exactly on the freelist. */
  ghost predicate BalancedAt(s: Snapshot, p: nat) {
    p in s.refcnt ==>
      && s.refcnt[p] == |Mappers(s.flat, p)| + (if IsTrapframe(s.spaces, p) then 1 else 0)
                        + (if p in s.tables then 1 else 0) + Kept(s.kept, p)
      && (s.refcnt[p] == 0 <==> p in s.free)
  }

  ghost predicate Balanced(s: Snapshot) { forall p: nat {:trigger BalancedAt(s, p)} :: BalancedAt(s, p) }

  ghost function Mappers(flat: map<Spot, Pte>, p: nat): set<Spot> {
    set u <- flat | u.1 < TRAPFRAME && flat[u].ppn == p
  }

  lemma EveryCount(t: MmapTable)
    requires Ready(t)
    ensures Balanced(Snap(t))
  {
    var s := Snap(t);
    forall p: nat ensures BalancedAt(s, p) { CountOf(t, p); }
  }

  lemma CountOf(t: MmapTable, p: nat)
    requires Ready(t)
    ensures BalancedAt(Snap(t), p)
  {
    assert CountAt(t.vm.tables.Keys, t.vm.km.refcnt, t.vm.users, t.vm.held, p);
    assert HolderAt(t.vm.held, t.spaces, t.kept, p);
    if p in t.vm.km.refcnt {
      forall u: Spot ensures u in Mappers(t.vm.flat, p) <==> u in t.vm.users[p] {
        assert UserAt(t.vm.flat, t.vm.users, u);
      }
      assert Mappers(t.vm.flat, p) == t.vm.users[p];
    }
  }

  /** kalloc by the kernel for itself: a kernel stack, a pipe, a page of its own tables. */
  method Keep(t: MmapTable) returns (p: nat)
    requires Ready(t)
    modifies t`kept, t.vm`held, t.vm.km
    ensures Ready(t) && (p == 0 ==> t.kept == old(t.kept))
    ensures p != 0 ==> Kept(old(t.kept), p) == 0 && t.kept == old(t.kept)[p := 1]
  {
    ghost var h0 := t.vm.held;
    p := t.vm.Grab();
    if p != 0 {
      t.kept := t.kept[p := 1];
      KeepTraps(h0, t.spaces, old(t.kept), p);
    }
  }

  lemma KeepTraps(held: map<nat, nat>, spaces: map<nat, Space>, kept: map<nat, nat>, p: nat)
    requires Traps(held, spaces, kept) && p in held && held[p] == 0
    ensures Kept(kept, p) == 0 && Traps(Up(held, p), spaces, kept[p := 1])
  {
    var h, k := Up(held, p), kept[p := 1];
    assert HolderAt(held, spaces, kept, p);
    forall x: nat ensures HolderAt(h, spaces, k, x) { assert HolderAt(held, spaces, kept, x); }
    forall x, y ensures OwnFrames(h, spaces, x, y) { assert OwnFrames(held, spaces, x, y); }
  }

  lemma ReturnTraps(held: map<nat, nat>, spaces: map<nat, Space>, kept: map<nat, nat>, p: nat)
    requires Traps(held, spaces, kept) && Kept(kept, p) > 0
    ensures p in held && held[p] >= 1 && Traps(Down(held, p), spaces, Down(kept, p))
  {
    var h, k := Down(held, p), Down(kept, p);
    assert HolderAt(held, spaces, kept, p);
    forall x: nat ensures HolderAt(h, spaces, k, x) { assert HolderAt(held, spaces, kept, x); }
    forall x, y ensures OwnFrames(h, spaces, x, y) { assert OwnFrames(held, spaces, x, y); }
  }

  /** kfree of a page the kernel has kept for itself. */
  method Return(t: MmapTable, p: nat)
    requires Ready(t) && Kept(t.kept, p) > 0
    modifies t`kept, t.vm`held, t.vm.km
    ensures Ready(t) && t.kept == Down(old(t.kept), p)
  {
    ReturnTraps(t.vm.held, t.spaces, t.kept, p);
    t.vm.Drop(p);
    t.kept := Down(t.kept, p);
  }

  const RX := Perm(true, false, true, false)
  const RW := Perm(true, true, false, false)
  const URW := Perm(true, true, false, true)

  /** proc_pagetable: a root whose only PTEs are the trampoline and the trapframe, or 0 and no change. */
  method NewPagetable(vm: Memory, trampoline: nat, tf: nat) returns (root: nat)
    requires vm.Valid()
    modifies vm`tables, vm`sh, vm`flat, vm`users, vm`held, vm.km
    ensures vm.Valid() && vm.held == old(vm.held)
    ensures root == 0 ==> vm.flat == old(vm.flat) && vm.sh.roots == old(vm.sh.roots) && vm.tables == old(vm.tables)
    ensures root != 0 ==> && root !in old(vm.sh).roots && vm.sh.roots == old(vm.sh).roots + {root}
                          && Without(vm.tables, vm.sh, root, old(vm.tables))
                          && (forall u <- old(vm.flat) :: u.0 != root)
                          && vm.flat == old(vm.flat)[(root, TRAMPOLINE) := Pte(trampoline, true, RX)]
                                                    [(root, TRAPFRAME) := Pte(tf, true, RW)]
  {
    ghost var f0, roots := vm.flat, vm.sh.roots;
    root := vm.NewSpace();
    if root == 0 { return; }
    forall u <- f0 ensures u.0 != root { assert u == (u.0, u.1); }
    assert roots + {root} - {root} == roots;
    ghost var tables1, sh1 := vm.tables, vm.sh;
    var ok := vm.MapPage(root, TRAMPOLINE, trampoline, RX);
    WithoutThen(tables1, sh1, vm.tables, vm.sh, root, old(vm.tables));
    if !ok {
      FreeNew(vm, root, old(vm.tables));
      return 0;
    }
    ok := MapTrapframe(vm, root, tf, f0, old(vm.tables));
    if !ok { return 0; }
  }

  /** The second half of proc_pagetable, for a new root that maps only the trampoline. */
  method MapTrapframe(vm: Memory, root: nat, tf: nat, ghost f0: map<Spot, Pte>, ghost t0: Tables) returns (ok: bool)
    requires vm.Valid() && root in vm.sh.roots && (forall u <- f0 :: u.0 != root) && Without(vm.tables, vm.sh, root, t0)
    requires (root, TRAMPOLINE) in vm.flat && vm.flat == f0[(root, TRAMPOLINE) := vm.flat[(root, TRAMPOLINE)]]
    modifies vm`tables, vm`sh, vm`flat, vm`users, vm`held, vm.km
    ensures vm.Valid() && vm.held == old(vm.held)
    ensures !ok ==> vm.flat == f0 && vm.tables == t0 && vm.sh.roots == old(vm.sh).roots - {root}
    ensures ok ==> vm.flat == old(vm.flat)[(root, TRAPFRAME) := Pte(tf, true, RW)] && vm.sh.roots == old(vm.sh).roots
                   && Without(vm.tables, vm.sh, root, t0)
  {
    ghost var tables1, sh1 := vm.tables, vm.sh;
    ok := vm.MapPage(root, TRAPFRAME, tf, RW);
    WithoutThen(tables1, sh1, vm.tables, vm.sh, root, t0);
    if !ok {
      ghost var tables2, sh2 := vm.tables, vm.sh;
      vm.UnmapTrap(root, TRAMPOLINE);
      assert vm.flat == f0;
      WithoutThen(tables2, sh2, vm.tables, vm.sh, root, t0);
      FreeNew(vm, root, t0);
    }
  }

  /** uvmfree of an address space that is new since the tables were t0. */
  method FreeNew(vm: Memory, root: nat, ghost t0: Tables)
    requires vm.Valid() && root in vm.sh.roots && (forall u <- vm.flat :: u.0 != root)
    requires Without(vm.tables, vm.sh, root, t0)
    modifies vm`tables, vm`sh, vm.km
    ensures vm.Valid() && vm.sh.roots == old(vm.sh.roots) - {root} && vm.tables == t0
  {
    vm.FreeSpace(root);
    WithoutUnique(old(vm.tables), old(vm.sh), root, t0, vm.tables);
  }

  /** The memory side of allocproc: a trapframe and a page table, or no change. */
  method NewMemory(vm: Memory, trampoline: nat) returns (root: nat, tf: nat)
    requires vm.Valid()
    modifies vm`tables, vm`sh, vm`flat, vm`users, vm`held, vm.km
    ensures vm.Valid()
    ensures root == 0 ==> vm.flat == old(vm.flat) && vm.sh.roots == old(vm.sh.roots) && vm.held == old(vm.held)
                          && vm.tables == old(vm.tables)
    ensures root != 0 ==> && tf in old(vm.held) && old(vm.held)[tf] == 0 && vm.held == Up(old(vm.held), tf)
                          && root !in old(vm.sh).roots && vm.sh.roots == old(vm.sh).roots + {root}
                          && Without(vm.tables, vm.sh, root, old(vm.tables)) && NewSpots(old(vm.flat), vm.flat, root)
  {
    tf := vm.Grab();
    if tf == 0 { return 0, 0; }
    UpThenDown(old(vm.held), tf);
    root := NewPagetable(vm, trampoline, tf);
    if root == 0 { vm.Drop(tf); }
  }

  /** f is f0 plus PTEs of root at or above the trapframe. */
  ghost predicate NewSpots(f0: map<Spot, Pte>, f: map<Spot, Pte>, root: nat) {
    && (forall u <- f0 :: u in f && f[u] == f0[u]) && forall u <- f :: u in f0 || (u.0 == root && u.1 >= TRAPFRAME)
  }

  /** allocproc for process pid. */
  method Create(t: MmapTable, pid: nat, trampoline: nat) returns (ok: bool, ghost s: Space)
    requires Ready(t) && pid !in t.spaces && pid != 0
    modifies t`spaces, t.vm`tables, t.vm`sh, t.vm`flat, t.vm`users, t.vm`held, t.vm.km
    ensures Ready(t)
    ensures !ok ==> t.spaces == old(t.spaces) && t.vm.flat == old(t.vm.flat) && t.vm.tables == old(t.vm.tables)
    ensures ok ==> && t.spaces == old(t.spaces)[pid := s] && s.sz == 0 && s.root !in old(t.vm.sh).roots
                   && Without(t.vm.tables, t.vm.sh, s.root, old(t.vm.tables))
                   && NewSpots(old(t.vm.flat), t.vm.flat, s.root) && NotOf(t.vm.flat, s.root) == old(t.vm.flat)
                   && forall i | 0 <= i < NMMAP :: t.areas[i].p != pid
  {
    ghost var f0, h0, s0, roots, tables := t.vm.flat, t.vm.held, t.spaces, t.vm.sh.roots, t.vm.tables;
    var root, tf := NewMemory(t.vm, trampoline);
    s := Space(root, 0, tf);
    if root == 0 { return false, s; }
    SpacesGrow(h0, s0, t.kept, roots, pid, root, tf);
    NewRoot(f0, t.vm.flat, tables, roots, root);
    MappedGrow(f0, t.vm.flat, tables, t.areas, s0, roots, pid, root, tf);
    t.spaces := t.spaces[pid := Space(root, 0, tf)];
    return true, s;
  }

  lemma SpacesGrow(h0: map<nat, nat>, s0: map<nat, Space>, kept: map<nat, nat>, roots: set<nat>, pid: nat, root: nat,
                   tf: nat)
    requires SpacesOk(s0, roots) && Traps(h0, s0, kept) && RootsAre(roots, s0)
    requires pid !in s0 && root !in roots && tf in h0 && h0[tf] == 0
    ensures var s := s0[pid := Space(root, 0, tf)];
              SpacesOk(s, roots + {root}) && Traps(Up(h0, tf), s, kept) && RootsAre(roots + {root}, s)
  {
    RootsGrow(s0, roots, pid, Space(root, 0, tf));
    TrapsGrow(h0, s0, kept, pid, Space(root, 0, tf));
  }

  lemma RootsGrow(s0: map<nat, Space>, roots: set<nat>, pid: nat, made: Space)
    requires SpacesOk(s0, roots) && RootsAre(roots, s0) && pid !in s0 && made.root !in roots && made.sz <= TRAPFRAME
    ensures SpacesOk(s0[pid := made], roots + {made.root}) && RootsAre(roots + {made.root}, s0[pid := made])
  {
    var s, all := s0[pid := made], roots + {made.root};
    forall p, q ensures OwnRoots(s, p, q) { assert OwnRoots(s0, p, q); }
    forall x: nat ensures RootAt(all, s, x) {
      assert RootAt(roots, s0, x);
      if p :| p in s0 && s0[p].root == x { assert s[p].root == x; }
      if x == made.root { assert s[pid].root == x; }
    }
  }

  lemma TrapsGrow(h0: map<nat, nat>, s0: map<nat, Space>, kept: map<nat, nat>, pid: nat, made: Space)
    requires Traps(h0, s0, kept) && pid !in s0 && made.tf in h0 && h0[made.tf] == 0
    ensures Traps(Up(h0, made.tf), s0[pid := made], kept)
  {
    var s, h := s0[pid := made], Up(h0, made.tf);
    assert HolderAt(h0, s0, kept, made.tf);
    forall x: nat ensures HolderAt(h, s, kept, x) {
      assert HolderAt(h0, s0, kept, x);
      assert IsTrapframe(s, x) <==> IsTrapframe(s0, x) || x == made.tf by {
        if p :| p in s0 && s0[p].tf == x { assert s[p].tf == x; }
        assert s[pid] == made;
      }
    }
    forall p, q ensures OwnFrames(h, s, p, q) {
      assert OwnFrames(h0, s0, p, q);
      assert forall r | r in s0 :: s0[r].tf != made.tf;
    }
  }

  lemma MappedGrow(f0: map<Spot, Pte>, f: map<Spot, Pte>, tables: Tables, areas: seq<Area>, s0: map<nat, Space>,
                   roots: set<nat>, pid: nat, root: nat, tf: nat)
    requires AreasOk(areas, s0) && MappedOk(f0, areas, s0) && SpacesOk(s0, roots) && FlatIs(tables, roots, f0)
    requires pid !in s0 && pid != 0 && root !in roots && NewSpots(f0, f, root)
    ensures var s := s0[pid := Space(root, 0, tf)]; AreasOk(areas, s) && MappedOk(f, areas, s)
  {
    var s := s0[pid := Space(root, 0, tf)];
    forall u: Spot, p ensures Home(f, areas, s, u, p) {
      assert Home(f0, areas, s0, u, p) && FlatEntry(f0, roots, u);
    }
  }

  /** proc_freepagetable: every PTE of root and every table page of its tree go. That freewalk
      meets no leaf follows from all user PTEs lying below sz. */
  method FreePagetable(vm: Memory, root: nat, sz: nat)
    requires vm.Valid() && root in vm.sh.roots && sz <= TRAPFRAME
    requires forall u <- vm.flat | u.0 == root && u.1 < TRAPFRAME :: u.1 < sz
    modifies vm`tables, vm`sh, vm`flat, vm`users, vm.km
    ensures vm.Valid() && vm.sh.roots == old(vm.sh.roots) - {root}
    ensures vm.flat == NotOf(old(vm.flat), root) && Without(old(vm.tables), old(vm.sh), root, vm.tables)
  {
    ghost var t0, sh0 := vm.tables, vm.sh;
    UnmapAll(vm, root, sz);
    ghost var t1, sh1 := vm.tables, vm.sh;
    vm.FreeSpace(root);
    WithoutThen(t0, sh0, t1, sh1, root, vm.tables);
  }

  /** The unmapping half of proc_freepagetable. */
  method UnmapAll(vm: Memory, root: nat, sz: nat)
    requires vm.Valid() && root in vm.sh.roots && sz <= TRAPFRAME
    requires forall u <- vm.flat | u.0 == root && u.1 < TRAPFRAME :: u.1 < sz
    modifies vm`tables, vm`flat, vm`users, vm.km
    ensures vm.Valid() && vm.flat == NotOf(old(vm.flat), root)
    ensures Elsewhere(old(vm.tables), vm.sh, vm.tables, vm.sh, root)
  {
    ghost var f0, roots, sh, t0 := vm.flat, vm.sh.roots, vm.sh, vm.tables;
    vm.UnmapTrap(root, TRAMPOLINE);
    ghost var t1 := vm.tables;
    vm.UnmapTrap(root, TRAPFRAME);
    ElsewhereThen(t0, sh, t1, sh, vm.tables, sh, root);
    ghost var t2 := vm.tables;
    if sz > 0 {
      vm.UnmapRange(root, 0, sz);
      ElsewhereThen(t0, sh, t2, sh, vm.tables, sh, root);
    }
    AllGoneFrom(f0, t0, roots, vm.flat, root, sz);
  }

  lemma AllGoneFrom(f0: map<Spot, Pte>, tables: Tables, roots: set<nat>, f: map<Spot, Pte>, root: nat, sz: nat)
    requires FlatIs(tables, roots, f0) && sz <= TRAPFRAME && forall u <- f0 | u.0 == root && u.1 < TRAPFRAME :: u.1 < sz
    requires var g := f0 - {(root, TRAMPOLINE)} - {(root, TRAPFRAME)}; f == if sz > 0 then g - Range(root, 0, sz) else g
    ensures f == NotOf(f0, root)
  {
    forall u <- f0 ensures u in f <==> u.0 != root {
      assert FlatEntry(f0, roots, u) && u == (u.0, u.1);
      assert u in Range(root, 0, sz) <==> u.0 == root && u.1 < sz by {
        if u.0 == root && u.1 < sz { assert (root, u.1) == u; }
      }
    }
  }

  /** freeproc of a process whose areas are gone (kexit has run mmap_cleanup). */
  method FreeProc(t: MmapTable, pid: nat)
    requires Ready(t) && pid in t.spaces && forall i | 0 <= i < NMMAP :: t.areas[i].p != pid
    modifies t`spaces, t.vm`tables, t.vm`sh, t.vm`flat, t.vm`users, t.vm`held, t.vm.km
    ensures Ready(t) && t.spaces == old(t.spaces) - {pid}
    ensures t.vm.flat == NotOf(old(t.vm.flat), old(t.spaces)[pid].root)
    ensures Without(old(t.vm.tables), old(t.vm.sh), old(t.spaces)[pid].root, t.vm.tables)
  {
    var s := t.spaces[pid];
    ghost var f0, h0, roots := t.vm.flat, t.vm.held, t.vm.sh.roots;
    BelowSize(f0, t.areas, t.spaces, pid);
    SpacesShrink(h0, t.spaces, t.kept, roots, pid);
    MappedShrink(f0, t.areas, t.spaces, pid);
    t.vm.Drop(s.tf);
    FreePagetable(t.vm, s.root, s.sz);
    t.spaces := t.spaces - {pid};
  }

  lemma BelowSize(f: map<Spot, Pte>, areas: seq<Area>, spaces: map<nat, Space>, pid: nat)
    requires MappedOk(f, areas, spaces) && pid in spaces && forall i | 0 <= i < |areas| :: areas[i].p != pid
    ensures forall u <- f | u.0 == spaces[pid].root && u.1 < TRAPFRAME :: u.1 < spaces[pid].sz
  {
    CoverNone(areas, pid, spaces[pid].root);
    forall u <- f | u.0 == spaces[pid].root && u.1 < TRAPFRAME ensures u.1 < spaces[pid].sz {
      assert Home(f, areas, spaces, u, pid);
    }
  }

  lemma SpacesShrink(h0: map<nat, nat>, s0: map<nat, Space>, kept: map<nat, nat>, roots: set<nat>, pid: nat)
    requires SpacesOk(s0, roots) && Traps(h0, s0, kept) && RootsAre(roots, s0) && pid in s0
    ensures var s := s0 - {pid};
            SpacesOk(s, roots - {s0[pid].root}) && Traps(Down(h0, s0[pid].tf), s, kept)
              && RootsAre(roots - {s0[pid].root}, s)
            && s0[pid].tf in h0 && h0[s0[pid].tf] >= 1
  {
    RootsShrink(s0, roots, pid);
    TrapsShrink(h0, s0, kept, pid);
  }

  lemma RootsShrink(s0: map<nat, Space>, roots: set<nat>, pid: nat)
    requires SpacesOk(s0, roots) && RootsAre(roots, s0) && pid in s0
    ensures SpacesOk(s0 - {pid}, roots - {s0[pid].root}) && RootsAre(roots - {s0[pid].root}, s0 - {pid})
  {
    var s, less := s0 - {pid}, roots - {s0[pid].root};
    forall p <- s ensures s[p].root != s0[pid].root { assert OwnRoots(s0, p, pid); }
    forall p, q ensures OwnRoots(s, p, q) { assert OwnRoots(s0, p, q); }
    forall x: nat ensures RootAt(less, s, x) {
      assert RootAt(roots, s0, x);
      if x in less { var p :| p in s0 && s0[p].root == x; assert s[p].root == x; }
    }
  }

  lemma TrapsShrink(h0: map<nat, nat>, s0: map<nat, Space>, kept: map<nat, nat>, pid: nat)
    requires Traps(h0, s0, kept) && pid in s0
    ensures s0[pid].tf in h0 && h0[s0[pid].tf] >= 1 && Traps(Down(h0, s0[pid].tf), s0 - {pid}, kept)
  {
    var s, tf := s0 - {pid}, s0[pid].tf;
    var h := Down(h0, tf);
    assert OwnFrames(h0, s0, pid, pid) && HolderAt(h0, s0, kept, tf) && IsTrapframe(s0, tf);
    forall x: nat ensures HolderAt(h, s, kept, x) {
      assert HolderAt(h0, s0, kept, x);
      assert IsTrapframe(s, x) <==> IsTrapframe(s0, x) && x != tf by {
        if p :| p in s0 && s0[p].tf == x && x != tf { assert s[p].tf == x; }
        if p :| p in s && s[p].tf == x { assert OwnFrames(h0, s0, p, pid); }
      }
    }
    forall p, q ensures OwnFrames(h, s, p, q) { assert OwnFrames(h0, s0, p, q); }
  }

  lemma MappedShrink(f0: map<Spot, Pte>, areas: seq<Area>, s0: map<nat, Space>, pid: nat)
    requires AreasOk(areas, s0) && MappedOk(f0, areas, s0) && pid in s0
    requires forall i | 0 <= i < NMMAP :: areas[i].p != pid
    ensures var s, root := s0 - {pid}, s0[pid].root;
            AreasOk(areas, s) && MappedOk(NotOf(f0, root), areas, s)
  {
    var s, root := s0 - {pid}, s0[pid].root;
    var f := NotOf(f0, root);
    forall u: Spot, p ensures Home(f, areas, s, u, p) { assert Home(f0, areas, s0, u, p); }
  }

  // ---------- sbrk and vmfault ----------

  /** Zeroed read-write memory from page `from` on, seen as an anonymous area. */
  function Heap(from: nat, n: nat): Area { Area(0, 0, from, n, 0, true, true) }

  /** f is f0 plus zeroed read-write pages from page `from` up to page `to`, none of which was mapped, each on a
      frame of its own. */
  ghost predicate HeapGrown(f0: map<Spot, Pte>, d0: map<nat, Bytes>, f: map<Spot, Pte>, d: map<nat, Bytes>, root: nat,
                            from: nat, to: nat) {
    from <= to && Fresh(f0, Heap(from, to - from), root)
    && Populated(f0, d0, f, d, map[], Heap(from, to - from), root, to - from)
  }

  /** uvmalloc: fresh zeroed pages, or no change, or the panic "remap" at a page that is mapped already. */
  method AllocPages(vm: Memory, root: nat, from: nat, to: nat) returns (r: Outcome)
    requires vm.Valid() && root in vm.sh.roots && from <= to <= TRAPFRAME
    modifies vm, vm.km
    ensures r != Stuck
    ensures vm.Valid() && vm.sh.roots == old(vm.sh.roots) && vm.held == old(vm.held)
    ensures SameData(old(vm.flat), old(vm.data), vm.data)
    ensures r == Done ==> HeapGrown(old(vm.flat), old(vm.data), vm.flat, vm.data, root, from, to)
    ensures r == Failed ==> vm.flat == old(vm.flat)
    ensures r == Remap ==> exists v: nat :: from <= v < to && (root, v) in old(vm.flat)
  {
    ghost var f0, d0 := vm.flat, vm.data;
    var i;
    r, i := AllocLoop(vm, root, from, to - from);
    if r == Failed {
      Undone(f0, d0, vm.flat, vm.data, Heap(from, to - from), root, i);
      vm.UnmapRange(root, from, i);
    }
  }

  /** uvmalloc's loop, up to page i. */
  method AllocLoop(vm: Memory, root: nat, from: nat, n: nat) returns (r: Outcome, i: nat)
    requires vm.Valid() && root in vm.sh.roots && from + n <= TRAPFRAME
    modifies vm, vm.km
    ensures vm.Valid() && vm.sh.roots == old(vm.sh.roots) && vm.held == old(vm.held)
    ensures r != Stuck && (if r == Done then i == n else i < n)
    ensures Populated(old(vm.flat), old(vm.data), vm.flat, vm.data, map[], Heap(from, n), root, i)
    ensures forall v: nat | from <= v < from + i :: (root, v) !in old(vm.flat)
    ensures r == Remap ==> (root, from + i) in old(vm.flat)
  {
    ghost var f0, d0, a := vm.flat, vm.data, Heap(from, n);
    i, r := 0, Done;
    while r == Done && i < n
      invariant r != Stuck && i <= n && vm.Valid() && vm.sh.roots == old(vm.sh.roots) && vm.held == old(vm.held)
      invariant Populated(f0, d0, vm.flat, vm.data, map[], a, root, i) && (r == Done || i < n)
      invariant forall v: nat | from <= v < from + i :: (root, v) !in f0
      invariant r == Remap ==> (root, from + i) in f0
      decreases n - i, r == Done
    {
      r := AllocOne(vm, root, from, n, i, f0, d0);
      if r == Done { i := i + 1; }
    }
  }

  method AllocOne(vm: Memory, root: nat, from: nat, n: nat, i: nat, ghost f0: map<Spot, Pte>, ghost d0: map<nat, Bytes>)
    returns (r: Outcome)
    requires vm.Valid() && root in vm.sh.roots && i < n && from + n <= TRAPFRAME
    requires Populated(f0, d0, vm.flat, vm.data, map[], Heap(from, n), root, i)
    modifies vm, vm.km
    ensures r != Stuck
    ensures vm.Valid() && vm.sh.roots == old(vm.sh.roots) && vm.held == old(vm.held)
    ensures Populated(f0, d0, vm.flat, vm.data, map[], Heap(from, n), root, if r == Done then i + 1 else i)
    ensures if r == Remap then (root, from + i) in f0 else r == Done ==> (root, from + i) !in f0
  {
    ghost var f1, d1, p := vm.flat, vm.data, 0;
    assert (root, from + i) in f1 ==> (root, from + i) in f0 by { RangeNext(root, from, i); }
    var t, pte := vm.Lookup(root, from + i);
    if pte != NULL_PTE { return Remap; }
    var ok;
    ok, p := vm.MapFresh(root, from + i, FilePage([], 0), URW);
    PopulateOne(f0, d0, f1, d1, vm.flat, vm.data, map[], Heap(from, n), root, i, p, ok);
    r := if ok then Done else Failed;
  }

  lemma Undone(f0: map<Spot, Pte>, d0: map<nat, Bytes>, f: map<Spot, Pte>, d: map<nat, Bytes>, a: Area, root: nat,
               n: nat)
    requires Populated(f0, d0, f, d, map[], a, root, n) && n <= a.length
    requires forall v: nat | a.addr <= v < a.addr + n :: (root, v) !in f0
    ensures f - Range(root, a.addr, n) == f0
  {
    forall u <- f0 ensures u !in Range(root, a.addr, n) {}
  }

  /** An eager sbrk that grows the process to newsz pages. It panics exactly when it comes to a page that is mapped
      already, which only an area below the new size can have brought about. */
  method Grow(t: MmapTable, pid: nat, newsz: nat) returns (r: Outcome)
    requires Ready(t) && pid in t.spaces && t.spaces[pid].sz <= newsz
    modifies t`spaces, t.vm, t.vm.km
    ensures r != Stuck && (newsz > TRAPFRAME ==> r == Failed)
    ensures r == Done || r == Failed ==> Ready(t)
    ensures r == Failed ==> t.spaces == old(t.spaces) && t.vm.flat == old(t.vm.flat)
    ensures r == Done ==> t.spaces == old(t.spaces)[pid := old(t.spaces)[pid].(sz := newsz)]
    ensures r == Done ==>
              HeapGrown(old(t.vm.flat), old(t.vm.data), t.vm.flat, t.vm.data, old(t.spaces)[pid].root,
                        old(t.spaces)[pid].sz, newsz)
    ensures r == Remap ==> newsz <= TRAPFRAME
    ensures r == Remap ==> exists v: nat ::
              old(t.spaces)[pid].sz <= v < newsz && (old(t.spaces)[pid].root, v) in old(t.vm.flat)
                                            && Hits(old(t.areas), pid, v) > 0
  {
    var s := t.spaces[pid];
    if newsz > TRAPFRAME { return Failed; }
    ghost var f0, d0 := t.vm.flat, t.vm.data;
    r := AllocPages(t.vm, s.root, s.sz, newsz);
    if r == Remap {
      ghost var v: nat :| s.sz <= v < newsz && (s.root, v) in f0;
      AboveIsArea(f0, t.areas, t.spaces, pid, v);
    } else if r == Done {
      GrownOk(f0, d0, t.vm.flat, t.vm.data, t.areas, t.spaces, pid, newsz);
      SetSize(t, pid, newsz);
    }
  }

  /** What a process has mapped above its size lies in its areas. */
  lemma AboveIsArea(f: map<Spot, Pte>, areas: seq<Area>, spaces: map<nat, Space>, pid: nat, v: nat)
    requires MappedOk(f, areas, spaces) && pid in spaces && (spaces[pid].root, v) in f
    requires spaces[pid].sz <= v < TRAPFRAME
    ensures Hits(areas, pid, v) > 0
  {
    assert Home(f, areas, spaces, (spaces[pid].root, v), pid);
    HitsCover(areas, pid, spaces[pid].root, v);
  }

  method SetSize(t: MmapTable, pid: nat, newsz: nat)
    requires t.vm.Valid() && FilesOk(t.areas, t.refs, t.others) && SpacesOk(t.spaces, t.vm.sh.roots)
    requires Traps(t.vm.held, t.spaces, t.kept)
    requires RootsAre(t.vm.sh.roots, t.spaces) && pid in t.spaces && newsz <= TRAPFRAME && AreasOk(t.areas, t.spaces)
    requires MappedOk(t.vm.flat, t.areas, t.spaces[pid := t.spaces[pid].(sz := newsz)])
    modifies t`spaces
    ensures Ready(t) && t.spaces == old(t.spaces)[pid := old(t.spaces)[pid].(sz := newsz)]
  {
    SizeOnly(t.vm.held, t.spaces, t.kept, t.vm.sh.roots, pid, newsz);
    t.spaces := t.spaces[pid := t.spaces[pid].(sz := newsz)];
  }

  /** A process's size may change as long as its pages outside the areas stay below the new size. */
  lemma Resized(f0: map<Spot, Pte>, f: map<Spot, Pte>, areas: seq<Area>, spaces: map<nat, Space>, pid: nat, newsz: nat)
    requires MappedOk(f0, areas, spaces) && RootsDiffer(spaces) && pid in spaces
    requires forall u <- f | u.1 < TRAPFRAME :: u in f0 || u.0 == spaces[pid].root
    requires forall u <- f | u.1 < TRAPFRAME && u.0 == spaces[pid].root ::
               u.1 < newsz || (u in f0 && u.1 >= spaces[pid].sz)
    ensures MappedOk(f, areas, spaces[pid := spaces[pid].(sz := newsz)])
  {
    var s := spaces[pid := spaces[pid].(sz := newsz)];
    forall u: Spot, p ensures Home(f, areas, s, u, p) {
      assert Home(f0, areas, spaces, u, p) && OwnRoots(spaces, p, pid);
    }
  }

  lemma GrownOk(f0: map<Spot, Pte>, d0: map<nat, Bytes>, f: map<Spot, Pte>, d: map<nat, Bytes>,
                areas: seq<Area>, spaces: map<nat, Space>, pid: nat, newsz: nat)
    requires MappedOk(f0, areas, spaces) && RootsDiffer(spaces) && pid in spaces && spaces[pid].sz <= newsz
    requires HeapGrown(f0, d0, f, d, spaces[pid].root, spaces[pid].sz, newsz)
    ensures MappedOk(f, areas, spaces[pid := spaces[pid].(sz := newsz)])
  {
    var root, sz := spaces[pid].root, spaces[pid].sz;
    forall u <- f ensures u in f0 || (u.0 == root && u.1 < newsz) {
      assert u in f0 || u in Range(root, sz, newsz - sz);
    }
    Resized(f0, f, areas, spaces, pid, newsz);
  }

  lemma SizeOnly(held: map<nat, nat>, spaces: map<nat, Space>, kept: map<nat, nat>, roots: set<nat>, pid: nat,
                 newsz: nat)
    requires SpacesOk(spaces, roots) && Traps(held, spaces, kept) && RootsAre(roots, spaces) && pid in spaces
    requires newsz <= TRAPFRAME
    ensures var s := spaces[pid := spaces[pid].(sz := newsz)];
              SpacesOk(s, roots) && Traps(held, s, kept) && RootsAre(roots, s)
  {
    var s := spaces[pid := spaces[pid].(sz := newsz)];
    forall p, q ensures OwnRoots(s, p, q) { assert OwnRoots(spaces, p, q); }
    forall p, q ensures OwnFrames(held, s, p, q) { assert OwnFrames(held, spaces, p, q); }
    forall x: nat ensures HolderAt(held, s, kept, x) && RootAt(roots, s, x) {
      assert HolderAt(held, spaces, kept, x) && RootAt(roots, spaces, x);
      if p :| p in spaces && spaces[p].tf == x { assert s[p].tf == x; }
      if p :| p in spaces && spaces[p].root == x { assert s[p].root == x; }
    }
  }

  /** A lazy sbrk: the size moves and no memory is allocated. */
  method GrowLazily(t: MmapTable, pid: nat, newsz: nat) returns (ok: bool)
    requires Ready(t) && pid in t.spaces && t.spaces[pid].sz <= newsz
    modifies t`spaces
    ensures Ready(t) && ok == (newsz <= TRAPFRAME)
    ensures t.spaces == if ok then old(t.spaces)[pid := old(t.spaces)[pid].(sz := newsz)] else old(t.spaces)
  {
    if newsz > TRAPFRAME { return false; }
    assert RootsDiffer(t.spaces);
    Resized(t.vm.flat, t.vm.flat, t.areas, t.spaces, pid, newsz);
    SetSize(t, pid, newsz);
    return true;
  }

  /** A negative sbrk (uvmdealloc): the pages from newsz on go. */
  method Shrink(t: MmapTable, pid: nat, newsz: nat)
    requires Ready(t) && pid in t.spaces && newsz <= t.spaces[pid].sz
    modifies t`spaces, t.vm`tables, t.vm`flat, t.vm`users, t.vm.km
    ensures Ready(t) && t.spaces == old(t.spaces)[pid := old(t.spaces)[pid].(sz := newsz)]
    ensures var s := old(t.spaces)[pid]; t.vm.flat == old(t.vm.flat) - Range(s.root, newsz, s.sz - newsz)
  {
    var s := t.spaces[pid];
    ghost var f0 := t.vm.flat;
    var n := s.sz - newsz;
    assert newsz + n <= TRAPFRAME;
    t.vm.UnmapRange(s.root, newsz, n);
    ShrunkOk(f0, t.areas, t.spaces, pid, newsz);
    SetSize(t, pid, newsz);
  }

  lemma ShrunkOk(f0: map<Spot, Pte>, areas: seq<Area>, spaces: map<nat, Space>, pid: nat, newsz: nat)
    requires MappedOk(f0, areas, spaces) && RootsDiffer(spaces) && pid in spaces && newsz <= spaces[pid].sz
    ensures MappedOk(f0 - Range(spaces[pid].root, newsz, spaces[pid].sz - newsz), areas,
                     spaces[pid := spaces[pid].(sz := newsz)])
  {
    var f := f0 - Range(spaces[pid].root, newsz, spaces[pid].sz - newsz);
    forall u <- f | u.0 == spaces[pid].root ensures u.1 < newsz || u.1 >= spaces[pid].sz { assert u == (u.0, u.1); }
    Resized(f0, f, areas, spaces, pid, newsz);
  }

  /** sys_sbrk and growproc, in bytes: the break moves by n, or by nothing when n would take it below zero. An eager
      growth maps fresh zeroed pages, a lazy one none, and a negative n unmaps exactly the pages given up. */
  method MoveBreak(t: MmapTable, pid: nat, size: nat, n: int, eager: bool) returns (r: Outcome, size': nat)
    requires Ready(t) && pid in t.spaces && t.spaces[pid].sz == Pages(size)
    modifies t`spaces, t.vm, t.vm.km
    ensures r != Stuck && (r != Remap ==> Ready(t))
    ensures n > 0 && size + n > TRAPFRAME * PGSIZE ==> r == Failed
    ensures r == Failed ==> n > 0 && size' == size && t.spaces == old(t.spaces) && t.vm.flat == old(t.vm.flat)
    ensures r == Done ==> && size' == size + Moved(size, n)
                          && t.spaces == old(t.spaces)[pid := old(t.spaces)[pid].(sz := Pages(size'))]
    ensures r == Done && n > 0 ==>
              if eager then HeapGrown(old(t.vm.flat), old(t.vm.data), t.vm.flat, t.vm.data, old(t.spaces)[pid].root,
                                      Pages(size), Pages(size'))
              else t.vm.flat == old(t.vm.flat)
    ensures r == Done && n <= 0 ==>
              Pages(size') <= Pages(size)
              && t.vm.flat == old(t.vm.flat) - Range(old(t.spaces)[pid].root, Pages(size'), Pages(size) - Pages(size'))
    ensures r == Remap ==> n > 0 && eager && exists v: nat ::
              Pages(size) <= v < Pages(size + n) && (old(t.spaces)[pid].root, v) in old(t.vm.flat)
                                                 && Hits(old(t.areas), pid, v) > 0
  {
    size' := size;
    if n > 0 {
      PagesMonotone(size, size + n);
      PagesAtMost(size + n, TRAPFRAME);
      if eager {
        r := Grow(t, pid, Pages(size + n));
      } else {
        var ok := GrowLazily(t, pid, Pages(size + n));
        r := if ok then Done else Failed;
      }
      if r == Done { size' := size + n; }
    } else {
      r, size' := Done, size + Moved(size, n);
      PagesMonotone(size', size);
      Shrink(t, pid, Pages(size'));
    }
  }

  /** vmfault: a missing page below the size is filled with zeros; no page above it ever is. */
  method VmFault(t: MmapTable, pid: nat, v: nat) returns (ok: bool, ghost p: nat)
    requires Ready(t) && pid in t.spaces
    modifies t.vm, t.vm.km
    ensures Ready(t) && SameData(old(t.vm.flat), old(t.vm.data), t.vm.data)
    ensures ok ==> && v < t.spaces[pid].sz && (t.spaces[pid].root, v) !in old(t.vm.flat) && Unused(old(t.vm.flat), p)
                   && t.vm.flat == old(t.vm.flat)[(t.spaces[pid].root, v) := Pte(p, true, URW)]
                   && PageData(t.vm.data, p) == FilePage([], 0)
    ensures !ok ==> t.vm.flat == old(t.vm.flat)
  {
    p := 0;
    var s := t.spaces[pid];
    if v >= s.sz { return false, p; }
    var table, pte := t.vm.Lookup(s.root, v);
    if pte != NULL_PTE { return false, p; }
    ghost var f0 := t.vm.flat;
    ok, p := t.vm.MapFresh(s.root, v, FilePage([], 0), URW);
    if ok { MappedBelow(f0, t.areas, t.spaces, pid, v, Pte(p, true, URW)); }
  }

  lemma MappedBelow(f: map<Spot, Pte>, areas: seq<Area>, spaces: map<nat, Space>, pid: nat, v: nat, pte: Pte)
    requires MappedOk(f, areas, spaces) && RootsDiffer(spaces) && pid in spaces && v < spaces[pid].sz
    ensures MappedOk(f[(spaces[pid].root, v) := pte], areas, spaces)
  {
    var f' := f[(spaces[pid].root, v) := pte];
    forall u: Spot, p ensures Home(f', areas, spaces, u, p) {
      assert Home(f, areas, spaces, u, p) && OwnRoots(spaces, p, pid);
    }
  }

  // ---------- kfork ----------

  /** What fork makes of the flat map: private copies of the parent's pages below its size, the
      parent's own PTEs in the shared areas, and nothing changed elsewhere. */
  ghost predicate Forked(f0: map<Spot, Pte>, d0: map<nat, Bytes>, f: map<Spot, Pte>, d: map<nat, Bytes>, pr: nat,
                         cr: nat, sz: nat, cov: set<Spot>) {
    && (forall u <- f0 :: u in f && f[u] == f0[u] && u.0 != cr)
    && (forall u <- f ::
        u in f0 || (u.0 == cr && (u.1 >= TRAPFRAME || (u.1 < sz && (pr, u.1) in f0) || (u in cov && (pr, u.1) in f0))))
    && (forall v: nat {:trigger CopyAt(f0, d0, f, d, pr, cr, v)} | v < sz :: CopyAt(f0, d0, f, d, pr, cr, v))
    && (forall u <- cov | (pr, u.1) in f0 :: u in f && f[u] == f0[(pr, u.1)])
    && SameData(f0, d0, d)
  }

  /** A populated page of the parent that fork maps twice: it lies in two areas, or in one below the size. */
  ghost predicate Doubled(f0: map<Spot, Pte>, areas: seq<Area>, pid: nat, pr: nat, sz: nat, v: nat) {
    (pr, v) in f0 && Hits(areas, pid, v) >= 1 && (v < sz || Hits(areas, pid, v) >= 2)
  }

  /** The memory side of kfork. It panics in mappages only if, and with enough memory exactly if, some page of
      the parent is doubled. On failure page tables and every reference count are as before. A parent with an area at
      address 0 is the exception: mmap_fork can then leave areas of the child behind, for the freeproc that follows. */
  method ForkProc(t: MmapTable, parent: nat, child: nat, trampoline: nat) returns (r: Outcome, ghost c: Space)
    requires Ready(t) && parent in t.spaces && child !in t.spaces && child != 0
    modifies t`spaces, t`areas, t`refs, t.vm, t.vm.km
    ensures r != Remap ==> Ready(t)
    ensures r == Failed ==> && t.spaces == old(t.spaces) && t.areas == old(t.areas) && t.refs == old(t.refs)
                            && t.vm.flat == old(t.vm.flat)
                            && t.vm.tables == old(t.vm.tables) && t.vm.km.refcnt == old(t.vm.km.refcnt)
    ensures r == Done ==> && t.spaces == old(t.spaces)[child := c] && c.sz == old(t.spaces)[parent].sz
                          && Extended(old(t.areas), t.areas, parent, child)
                          && (forall a <- old(t.areas) | a.p == parent :: a.(p := child) in t.areas)
                          && Forked(old(t.vm.flat), old(t.vm.data), t.vm.flat, t.vm.data, old(t.spaces)[parent].root,
                                    c.root, c.sz,
                                    Cover(t.areas, child, c.root))
    ensures r == Done ==> forall v: nat ::
              !Doubled(old(t.vm.flat), old(t.areas), parent, old(t.spaces)[parent].root, old(t.spaces)[parent].sz, v)
    ensures r == Remap ==> exists v: nat ::
              Doubled(old(t.vm.flat), old(t.areas), parent, old(t.spaces)[parent].root, old(t.spaces)[parent].sz, v)
    ensures r == Stuck ==> HasZero(old(t.areas), parent)
  {
    ghost var f0, s0, n := t.vm.flat, t.spaces, t.spaces[parent].sz;
    var ok;
    ok, c := Create(t, child, trampoline);
    r := Failed;
    if ok {
      assert t.vm.data == old(t.vm.data) && t.areas == old(t.areas) && t.refs == old(t.refs) && t.kept == old(t.kept);
      ghost var tables1, sh1 := t.vm.tables, t.vm.sh;
      r := ForkChild(t, parent, child, f0);
      PutThenDrop(s0, child, c, c.(sz := n));
      if r == Failed { WithoutUnique(tables1, sh1, c.root, old(t.vm.tables), t.vm.tables); }
      c := c.(sz := n);
    }
    if r == Failed {
      SameHeld(old(t.vm.held), t.vm.held, s0, t.kept, old(t.vm.tables).Keys, old(t.vm.km.refcnt), old(t.vm.users),
               t.vm.km.refcnt, t.vm.users);
      AllCounts(f0, t.vm.held, old(t.vm.tables), old(t.vm.km.refcnt), old(t.vm.users), t.vm.tables, t.vm.km.refcnt,
                t.vm.users);
    }
  }

  lemma SameHeld(h0: map<nat, nat>, h1: map<nat, nat>, spaces: map<nat, Space>, kept: map<nat, nat>, pages: set<nat>,
                 refcnt0: map<nat, nat>, users0: map<nat, set<Spot>>, refcnt1: map<nat, nat>,
                 users1: map<nat, set<Spot>>)
    requires Traps(h0, spaces, kept) && Traps(h1, spaces, kept) && (forall p: nat :: p in refcnt0 <==> p in refcnt1)
    requires CountOk(pages, refcnt0, users0, h0) && CountOk(pages, refcnt1, users1, h1)
    ensures h0 == h1
  {
    forall p: nat ensures (p in h0 <==> p in h1) && (p in h0 ==> h0[p] == h1[p]) {
      assert CountAt(pages, refcnt0, users0, h0, p) && CountAt(pages, refcnt1, users1, h1, p);
      assert HolderAt(h0, spaces, kept, p) && HolderAt(h1, spaces, kept, p);
    }
  }

  /** kfork once the child has its own empty address space. */
  method ForkChild(t: MmapTable, parent: nat, child: nat, ghost f0: map<Spot, Pte>) returns (r: Outcome)
    requires Ready(t) && parent in t.spaces && child in t.spaces && parent != child && t.spaces[child].sz == 0
    requires forall i | 0 <= i < NMMAP :: t.areas[i].p != child
    requires NewSpots(f0, t.vm.flat, t.spaces[child].root) && NotOf(t.vm.flat, t.spaces[child].root) == f0
    modifies t`spaces, t`areas, t`refs, t.vm, t.vm.km
    ensures r != Remap ==> Ready(t)
    ensures r == Failed ==> && t.spaces == old(t.spaces) - {child} && t.areas == old(t.areas) && t.refs == old(t.refs)
                            && t.vm.flat == f0
                            && Without(old(t.vm.tables), old(t.vm.sh), old(t.spaces)[child].root, t.vm.tables)
    ensures r == Done ==> && t.spaces == old(t.spaces)[child := old(t.spaces)[child].(sz := old(t.spaces)[parent].sz)]
                          && Extended(old(t.areas), t.areas, parent, child)
                          && (forall a <- old(t.areas) | a.p == parent :: a.(p := child) in t.areas)
                          && Forked(f0, old(t.vm.data), t.vm.flat, t.vm.data, old(t.spaces)[parent].root,
                                    old(t.spaces)[child].root,
                                    old(t.spaces)[parent].sz, Cover(t.areas, child, old(t.spaces)[child].root))
    ensures r == Done ==> forall v: nat ::
              !Doubled(f0, old(t.areas), parent, old(t.spaces)[parent].root, old(t.spaces)[parent].sz, v)
    ensures r == Remap ==> exists v: nat ::
              Doubled(f0, old(t.areas), parent, old(t.spaces)[parent].root, old(t.spaces)[parent].sz, v)
    ensures r == Stuck ==> HasZero(old(t.areas), parent)
  {
    ghost var d0, f1, f2, pr, cr, n :=
      t.vm.data, t.vm.flat, map[], t.spaces[parent].root, t.spaces[child].root, t.spaces[parent].sz;
    ghost var a0 := t.areas;
    assert pr != cr by { assert OwnRoots(t.spaces, parent, child); }
    forall v: nat ensures Doubled(f1, a0, parent, pr, n, v) <==> Doubled(f0, a0, parent, pr, n, v) {
      assert (pr, v) in f0 <==> (pr, v) in f1;
    }
    r, f2 := ForkInto(t, parent, child);
    if r == Done {
      CoverIsOf(f0, a0, t.areas, t.spaces, parent, child, pr, n);
      ForkedIs(f0, d0, f1, f2, t.vm.flat, t.vm.data, pr, cr, n, Cover(t.areas, child, cr));
    }
  }

  /** kfork from uvmcopy to mmap_fork, with the child's address space freed again on failure. */
  method ForkInto(t: MmapTable, parent: nat, child: nat) returns (r: Outcome, ghost f2: map<Spot, Pte>)
    requires Ready(t) && parent in t.spaces && child in t.spaces && parent != child && t.spaces[child].sz == 0
    requires forall i | 0 <= i < NMMAP :: t.areas[i].p != child
    modifies t`spaces, t`areas, t`refs, t.vm, t.vm.km
    ensures r != Remap ==> Ready(t)
    ensures r == Failed ==> && t.spaces == old(t.spaces) - {child} && t.areas == old(t.areas) && t.refs == old(t.refs)
                            && t.vm.flat == NotOf(old(t.vm.flat), old(t.spaces)[child].root)
                            && Without(old(t.vm.tables), old(t.vm.sh), old(t.spaces)[child].root, t.vm.tables)
    ensures r == Done ==> && t.spaces == old(t.spaces)[child := old(t.spaces)[child].(sz := old(t.spaces)[parent].sz)]
                          && Extended(old(t.areas), t.areas, parent, child)
                          && (forall a <- old(t.areas) | a.p == parent :: a.(p := child) in t.areas)
    ensures r == Done ==> && SameData(old(t.vm.flat), old(t.vm.data), t.vm.data)
                          && Copied(old(t.vm.flat), old(t.vm.data), f2, t.vm.data, old(t.spaces)[parent].root,
                                    old(t.spaces)[child].root, old(t.spaces)[parent].sz)
                          && Shared(f2, t.vm.flat, old(t.spaces)[parent].root,
                                    Cover(t.areas, child, old(t.spaces)[child].root))
    ensures r == Done ==> forall v: nat ::
              !Doubled(old(t.vm.flat), old(t.areas), parent, old(t.spaces)[parent].root, old(t.spaces)[parent].sz, v)
    ensures r == Remap ==> exists v: nat ::
              Doubled(old(t.vm.flat), old(t.areas), parent, old(t.spaces)[parent].root, old(t.spaces)[parent].sz, v)
    ensures r == Stuck ==> HasZero(old(t.areas), parent)
  {
    ghost var f0, d0, s0, pr, cr, n :=
      t.vm.flat, t.vm.data, t.spaces, t.spaces[parent].root, t.spaces[child].root, t.spaces[parent].sz;
    var ok := CopyProc(t, parent, child);
    f2, r := t.vm.flat, Failed;
    if ok {
      ghost var tables1, sh1 := t.vm.tables, t.vm.sh;
      r := ShareAfterCopy(t, parent, child, f0, d0);
      ElsewhereThen(old(t.vm.tables), old(t.vm.sh), tables1, sh1, t.vm.tables, t.vm.sh, cr);
    }
    if r == Failed {
      PutThenDrop(s0, child, s0[child], t.spaces[child]);
      ghost var tables1, sh1 := t.vm.tables, t.vm.sh;
      FreeProc(t, child);
      WithoutThen(old(t.vm.tables), old(t.vm.sh), tables1, sh1, cr, t.vm.tables);
    }
  }

  lemma PutThenDrop(s: map<nat, Space>, pid: nat, x: Space, y: Space)
    ensures s[pid := x] - {pid} == s - {pid} && s[pid := y] - {pid} == s - {pid} && s[pid := x][pid := y] == s[pid := y]
    ensures if pid in s then s[pid := s[pid]] == s else s - {pid} == s
  {
  }

  /** The PTEs of all other address spaces. */
  ghost function NotOf(f: map<Spot, Pte>, root: nat): map<Spot, Pte> { map u <- f | u.0 != root :: f[u] }

  /** mmap_fork after uvmcopy has turned f0 into the present flat map. */
  method ShareAfterCopy(t: MmapTable, parent: nat, child: nat, ghost f0: map<Spot, Pte>, ghost d0: map<nat, Bytes>)
    returns (r: Outcome)
    requires Ready(t) && parent in t.spaces && child in t.spaces && parent != child
    requires forall i | 0 <= i < NMMAP :: t.areas[i].p != child
    requires Copied(f0, d0, t.vm.flat, t.vm.data, t.spaces[parent].root, t.spaces[child].root, t.spaces[parent].sz)
    requires forall u <- f0 | u.0 == t.spaces[child].root :: u.1 >= TRAPFRAME
    modifies t`areas, t`refs, t.vm, t.vm.km
    ensures Ready(t) && Elsewhere(old(t.vm.tables), old(t.vm.sh), t.vm.tables, t.vm.sh, t.spaces[child].root)
    ensures t.vm.data == old(t.vm.data)
    ensures r == Failed ==> t.areas == old(t.areas) && t.refs == old(t.refs)
                            && NotOf(t.vm.flat, t.spaces[child].root) == NotOf(f0, t.spaces[child].root)
    ensures r == Done ==> && Extended(old(t.areas), t.areas, parent, child)
                          && (forall a <- old(t.areas) | a.p == parent :: a.(p := child) in t.areas)
                          && Shared(old(t.vm.flat), t.vm.flat, t.spaces[parent].root,
                                    Cover(t.areas, child, t.spaces[child].root))
    ensures r == Done ==> forall v: nat ::
              !Doubled(f0, old(t.areas), parent, t.spaces[parent].root, t.spaces[parent].sz, v)
    ensures r == Remap ==> exists v: nat ::
              Doubled(f0, old(t.areas), parent, t.spaces[parent].root, t.spaces[parent].sz, v)
    ensures r == Stuck ==> HasZero(old(t.areas), parent)
  {
    ghost var f2, a0, s0, pr, cr, n :=
      t.vm.flat, t.areas, t.spaces, t.spaces[parent].root, t.spaces[child].root, t.spaces[parent].sz;
    assert pr != cr by { assert OwnRoots(t.spaces, parent, child); }
    forall v: nat ensures Twice(f2, a0, parent, pr, cr, v) <==> Doubled(f0, a0, parent, pr, n, v) {
      TwiceIsDoubled(f0, d0, f2, t.vm.data, a0, s0, parent, pr, cr, n, v);
    }
    r := t.Fork(parent, child);
    if r == Failed {
      forall u <- Cover(a0, parent, cr) ensures u.0 == cr { CoverIs(a0, parent, cr, u); }
      CopyDropped(f0, d0, f2, t.vm.flat, t.vm.data, pr, cr, n, Cover(a0, parent, cr));
    } else if r == Remap {
      ghost var v: nat :| Twice(f2, a0, parent, pr, cr, v);
      assert Doubled(f0, a0, parent, pr, n, v);
    }
  }

  lemma TwiceIsDoubled(f0: map<Spot, Pte>, d0: map<nat, Bytes>, f2: map<Spot, Pte>, d: map<nat, Bytes>,
                       areas: seq<Area>, spaces: map<nat, Space>, parent: nat, pr: nat, cr: nat, sz: nat, v: nat)
    requires AreasOk(areas, spaces) && parent in spaces && pr != cr && Copied(f0, d0, f2, d, pr, cr, sz)
    requires forall u <- f0 | u.0 == cr :: u.1 >= TRAPFRAME
    ensures Twice(f2, areas, parent, pr, cr, v) <==> Doubled(f0, areas, parent, pr, sz, v)
  {
    if Hits(areas, parent, v) > 0 {
      HitsCover(areas, parent, pr, v);
      CoverIs(areas, parent, pr, (pr, v));
      assert v < TRAPFRAME;
      if v < sz { assert CopyAt(f0, d0, f2, d, pr, cr, v); }
    }
  }

  lemma CopyDropped(f0: map<Spot, Pte>, d0: map<nat, Bytes>, f2: map<Spot, Pte>, f: map<Spot, Pte>, d: map<nat, Bytes>,
                    pr: nat, cr: nat, n: nat, cov: set<Spot>)
    requires Copied(f0, d0, f2, d, pr, cr, n) && Trimmed(f2, f, cov) && forall u <- cov :: u.0 == cr
    ensures NotOf(f, cr) == NotOf(f0, cr)
  {
  }

  lemma NewRoot(f0: map<Spot, Pte>, f: map<Spot, Pte>, tables: Tables, roots: set<nat>, root: nat)
    requires FlatIs(tables, roots, f0) && root !in roots && NewSpots(f0, f, root)
    ensures NotOf(f, root) == f0
  {
    forall u <- f0 ensures u.0 != root { assert FlatEntry(f0, roots, u); }
  }

  /** Where the shared pages lie: in the child, and above its size unless a page is doubled. */
  lemma CoverIsOf(f0: map<Spot, Pte>, a0: seq<Area>, areas: seq<Area>, spaces: map<nat, Space>, parent: nat, child: nat,
                  pr: nat, sz: nat)
    requires AreasOk(areas, spaces) && child in spaces && Extended(a0, areas, parent, child)
    requires (forall i | 0 <= i < |a0| :: a0[i].p != child) && forall v: nat :: !Doubled(f0, a0, parent, pr, sz, v)
    ensures forall u <- Cover(areas, child, spaces[child].root) ::
              u.0 == spaces[child].root && u.1 < TRAPFRAME && ((pr, u.1) in f0 ==> sz <= u.1)
  {
    var cr := spaces[child].root;
    CopyCover(a0, areas, parent, child, cr);
    forall u <- Cover(areas, child, cr) ensures u.0 == cr && u.1 < TRAPFRAME && ((pr, u.1) in f0 ==> sz <= u.1) {
      CoverIs(areas, child, cr, u);
      HitsCover(a0, parent, cr, u.1);
      assert u == (cr, u.1) && !Doubled(f0, a0, parent, pr, sz, u.1);
    }
  }

  lemma ForkedIs(f0: map<Spot, Pte>, d0: map<nat, Bytes>, f1: map<Spot, Pte>, f2: map<Spot, Pte>, f: map<Spot, Pte>,
                 d: map<nat, Bytes>, pr: nat, cr: nat, sz: nat, cov: set<Spot>)
    requires pr != cr && NewSpots(f0, f1, cr) && NotOf(f1, cr) == f0 && sz <= TRAPFRAME
    requires Copied(f1, d0, f2, d, pr, cr, sz) && SameData(f1, d0, d) && Shared(f2, f, pr, cov)
    requires forall u <- cov :: u.0 == cr && u.1 < TRAPFRAME && ((pr, u.1) in f0 ==> sz <= u.1)
    ensures Forked(f0, d0, f, d, pr, cr, sz, cov)
  {
    assert forall v: nat :: ((pr, v) in f0 <==> (pr, v) in f1) && ((pr, v) in f1 <==> (pr, v) in f2);
    forall u: Spot
      ensures u in f0 ==> u in f && f[u] == f0[u]
      ensures u in f ==> u in f2 || (u in cov && (pr, u.1) in f0)
      ensures u in f2 ==> u in f && f[u] == f2[u]
      ensures u in cov && (pr, u.1) in f0 ==> u in f && f[u] == f0[(pr, u.1)]
    {
      assert SharedAt(f2, f, pr, cov, u);
    }
    forall v: nat | v < sz ensures CopyAt(f0, d0, f, d, pr, cr, v) {
      assert CopyAt(f1, d0, f2, d, pr, cr, v);
      if (pr, v) in f0 { StillAlone(f2, f, pr, cr, cov, v); }
    }
  }

  /** Sharing the parent's frames leaves the child's private ones private. */
  lemma StillAlone(f2: map<Spot, Pte>, f: map<Spot, Pte>, pr: nat, cr: nat, cov: set<Spot>, v: nat)
    requires Shared(f2, f, pr, cov) && pr != cr && Alone(f2, (cr, v))
    ensures Alone(f, (cr, v))
  {
    assert SharedAt(f2, f, pr, cov, (cr, v));
    forall w <- f | w.1 < TRAPFRAME && w != (cr, v) ensures f[w].ppn != f[(cr, v)].ppn {
      assert SharedAt(f2, f, pr, cov, w);
    }
  }

  method CopyProc(t: MmapTable, parent: nat, child: nat) returns (ok: bool)
    requires Ready(t) && parent in t.spaces && child in t.spaces && parent != child && t.spaces[child].sz == 0
    requires forall i | 0 <= i < NMMAP :: t.areas[i].p != child
    modifies t`spaces, t.vm, t.vm.km
    ensures Ready(t) && SameData(old(t.vm.flat), old(t.vm.data), t.vm.data)
    ensures Elsewhere(old(t.vm.tables), old(t.vm.sh), t.vm.tables, t.vm.sh, old(t.spaces)[child].root)
    ensures forall u <- old(t.vm.flat) | u.0 == old(t.spaces)[child].root :: u.1 >= TRAPFRAME
    ensures !ok ==> t.spaces == old(t.spaces) && t.vm.flat == old(t.vm.flat)
    ensures ok ==> && t.spaces == old(t.spaces)[child := old(t.spaces)[child].(sz := old(t.spaces)[parent].sz)]
                   && Copied(old(t.vm.flat), old(t.vm.data), t.vm.flat, t.vm.data, old(t.spaces)[parent].root,
                             old(t.spaces)[child].root,
                             old(t.spaces)[parent].sz)
  {
    var p, c := t.spaces[parent], t.spaces[child];
    ghost var f0, d0 := t.vm.flat, t.vm.data;
    BelowSize(f0, t.areas, t.spaces, child);
    assert OwnRoots(t.spaces, parent, child);
    ok := t.vm.CopySpace(p.root, c.root, p.sz);
    if !ok { return; }
    CopiedOk(f0, d0, t.vm.flat, t.vm.data, t.areas, t.spaces, parent, child);
    SetSize(t, child, p.sz);
  }

  lemma CopiedOk(f0: map<Spot, Pte>, d0: map<nat, Bytes>, f: map<Spot, Pte>, d: map<nat, Bytes>, areas: seq<Area>,
                 spaces: map<nat, Space>, parent: nat, child: nat)
    requires MappedOk(f0, areas, spaces) && RootsDiffer(spaces) && parent in spaces && child in spaces
    requires spaces[child].sz == 0 && forall i | 0 <= i < |areas| :: areas[i].p != child
    requires Copied(f0, d0, f, d, spaces[parent].root, spaces[child].root, spaces[parent].sz)
    ensures MappedOk(f, areas, spaces[child := spaces[child].(sz := spaces[parent].sz)])
  {
    BelowSize(f0, areas, spaces, child);
    Resized(f0, f, areas, spaces, child, spaces[parent].sz);
  }
}
