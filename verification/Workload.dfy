/** Any sequence of memory operations by any processes, from boot: page ownership is balanced after each. */
module Workload {
  import opened Kalloc
  import opened PageTable
  import opened Ownership
  import opened Vm
  import opened Mmap
  import opened Sbrk
  import opened Spaces

  datatype Op =
    | Create(pid: nat)                                   // userinit
    | Fork(parent: nat, child: nat)
    | Exit(pid: nat)                                     // kexit's mmap_cleanup; the process is a zombie
    | Reap(pid: nat)                                     // the freeproc of the wait that finds it
    | MmapCall(pid: nat, addr: nat, length: int, prot: int, flags: int, fd: int, offset: int,
               ofile: map<int, nat>, kinds: map<nat, FileKind>)
    | MunmapCall(pid: nat, addr: nat)
    | PageFault(pid: nat, va: nat, write: bool)          // mmap_handle_pagefault, then vmfault
    | SbrkCall(pid: nat, n: int, eager: bool)
    | KernelAlloc                                        // kalloc for the kernel's own use
    | KernelFree(p: nat)

  /** The operation does not come to its end. A fork of a doubled page or an sbrk over a populated page of an area
      panics in mappages. Of a process with an area at address 0, not all areas are cleaned up, at its exit or for the
      child of a failed fork. */
  ghost predicate Clash(s: Snapshot, sizes: map<nat, nat>, op: Op) {
    match op
    case Fork(parent, _) => parent in s.spaces && ForkClash(s, parent)
    case Exit(pid) => HasZero(s.areas, pid)
    case SbrkCall(pid, n, _) =>
      pid in s.spaces && pid in sizes && sizes[pid] + n >= 0
        && exists v: nat ::
             Pages(sizes[pid]) <= v < Pages(sizes[pid] + n) && (s.spaces[pid].root, v) in s.flat
               && Hits(s.areas, pid, v) > 0
    case _ => false
  }

  ghost predicate ForkClash(s: Snapshot, parent: nat)
    requires parent in s.spaces
  {
    || HasZero(s.areas, parent)
    || exists v: nat :: Doubled(s.flat, s.areas, parent, s.spaces[parent].root, s.spaces[parent].sz, v)
  }

  /** Process sizes in bytes agree with those in pages. */
  ghost predicate Sized(spaces: map<nat, Space>, sizes: map<nat, nat>) {
    sizes.Keys == spaces.Keys && forall p <- sizes :: spaces[p].sz == Pages(sizes[p])
  }

  ghost predicate Bare(areas: seq<Area>, pid: nat) { forall i | 0 <= i < |areas| :: areas[i].p != pid }

  /** A zombie has no areas left. */
  ghost predicate ZombiesOk(areas: seq<Area>, spaces: map<nat, Space>, zombies: set<nat>) {
    forall z <- zombies :: z in spaces && Bare(areas, z)
  }

  lemma ZombiesKept(a0: seq<Area>, a1: seq<Area>, spaces: map<nat, Space>, spaces': map<nat, Space>, zombies: set<nat>,
                    owners: set<nat>)
    requires ZombiesOk(a0, spaces, zombies) && NoNewOwners(a0, a1, owners) && owners !! zombies && 0 !in spaces
    requires spaces.Keys <= spaces'.Keys
    ensures ZombiesOk(a1, spaces', zombies)
  {
    forall z <- zombies ensures z in spaces' && Bare(a1, z) { assert z in spaces.Keys; }
  }

  method MapCall(t: MmapTable, pid: nat, addr: nat, length: int, prot: int, flags: int, fd: int, offset: int,
                 ofile: map<int, nat>, kinds: map<nat, FileKind>)
    requires Ready(t) && pid in t.spaces && Fits(addr, length) && Opened(t.refs, ofile)
    modifies t`areas, t`refs, t.vm, t.vm.km
    ensures Ready(t) && NoNewOwners(old(t.areas), t.areas, {pid})
  {
    var r := t.MapOnly(pid, addr, length, prot, flags, fd, offset, ofile, kinds);
  }

  method ForkCall(t: MmapTable, parent: nat, child: nat, trampoline: nat) returns (ok: bool, made: bool)
    requires Ready(t) && parent in t.spaces && child !in t.spaces && child != 0
    modifies t`spaces, t`areas, t`refs, t.vm, t.vm.km
    ensures ok ==> Ready(t) && NoNewOwners(old(t.areas), t.areas, {child})
    ensures ok && !made ==> t.spaces == old(t.spaces)
    ensures ok && made ==> child in t.spaces && t.spaces == old(t.spaces)[child := t.spaces[child]]
                           && t.spaces[child].sz == old(t.spaces)[parent].sz
    ensures !ok ==> ForkClash(old(Snap(t)), parent)
  {
    var r; ghost var c;
    r, c := ForkProc(t, parent, child, trampoline);
    ok, made := r == Done || r == Failed, r == Done;
  }

  class World {
    const t: MmapTable
    const trampoline: nat
    var sizes: map<nat, nat>              // p->sz
    var zombies: set<nat>

    ghost predicate Good()
      reads this, t, t.vm, t.vm.km
    {
      Ready(t) && Sized(t.spaces, sizes) && ZombiesOk(t.areas, t.spaces, zombies)
    }

    /** The kernel once kinit has run: no process, no area, every page free. The pages kvminit takes come next, as
        KernelAlloc. */
    constructor (firstPage: nat, files: map<nat, Bytes>, refs: map<nat, nat>, trampoline: nat)
      requires 0 < firstPage <= NPAGES && 0 !in refs
      ensures Good() && fresh(t) && fresh(t.vm) && fresh(t.vm.km)
      ensures t.spaces == map[] && t.kept == map[] && t.vm.flat == map[] && |t.vm.km.free| == NPAGES - firstPage
    {
      var km := new Kmem(firstPage);
      var vm := new Memory(km);
      var table := new MmapTable(vm, files, refs);
      t, this.trampoline, sizes, zombies := table, trampoline, map[], {};
      new;
      forall x: nat ensures HolderAt(t.vm.held, t.spaces, t.kept, x) {
        assert CountAt(t.vm.tables.Keys, t.vm.km.refcnt, t.vm.users, t.vm.held, x);
      }
      forall p, q ensures OwnFrames(t.vm.held, t.spaces, p, q) {}
      forall x: nat ensures RootAt(t.vm.sh.roots, t.spaces, x) {}
    }

    predicate Alive(pid: nat)
      reads this, t
    {
      pid in t.spaces && pid !in zombies
    }

    /** The operation can be called: its process exists and has not exited, its files are open, its area ends below the
        trapframe. */
    predicate Callable(op: Op)
      reads this, t
    {
      match op
      case Create(pid) => pid !in t.spaces && pid != 0
      case Fork(parent, child) => Alive(parent) && child !in t.spaces && child != 0
      case Reap(pid) => pid in zombies
      case MmapCall(pid, addr, length, _, _, _, _, ofile, _) =>
        Alive(pid) && Fits(addr, length) && Opened(t.refs, ofile)
      case KernelAlloc => true
      case KernelFree(p) => p in t.kept && t.kept[p] > 0
      case _ => Alive(op.pid)
    }

    /** One operation; false when it clashes. */
    method Apply(op: Op) returns (ok: bool)
      requires Good() && Callable(op)
      modifies this, t, t.vm, t.vm.km
      ensures ok ==> Good()
      ensures !ok ==> Clash(old(Snap(t)), old(sizes), op) && sizes == old(sizes)
    {
      ok := true;
      match op
      case Create(pid) => DoCreate(pid);
      case Fork(parent, child) => ok := DoFork(parent, child);
      case Exit(pid) => ok := DoExit(pid);
      case Reap(pid) => DoReap(pid);
      case MmapCall(pid, addr, length, prot, flags, fd, offset, ofile, kinds) =>
        DoMap(pid, addr, length, prot, flags, fd, offset, ofile, kinds);
      case MunmapCall(pid, addr) => DoUnmap(pid, addr);
      case PageFault(pid, va, write) => DoFault(pid, va, write);
      case SbrkCall(pid, n, eager) => ok := DoSbrk(pid, n, eager);
      case KernelAlloc => var p := Keep(t);
      case KernelFree(p) => Return(t, p);
    }

    method DoCreate(pid: nat)
      requires Good() && pid !in t.spaces && pid != 0
      modifies this, t, t.vm, t.vm.km
      ensures Good()
    {
      ghost var spaces0 := t.spaces;
      var made; ghost var s;
      made, s := Spaces.Create(t, pid, trampoline);
      if made { sizes := sizes[pid := 0]; }
      assert NoNewOwners(t.areas, t.areas, {});
      ZombiesKept(t.areas, t.areas, spaces0, t.spaces, zombies, {});
    }

    method DoFork(parent: nat, child: nat) returns (ok: bool)
      requires Good() && parent in t.spaces && child !in t.spaces && child != 0
      modifies this, t, t.vm, t.vm.km
      ensures ok ==> Good()
      ensures !ok ==> Clash(old(Snap(t)), old(sizes), Fork(parent, child)) && sizes == old(sizes)
    {
      ghost var a0, spaces0 := t.areas, t.spaces;
      var made;
      ok, made := ForkCall(t, parent, child, trampoline);
      if ok {
        if made { sizes := sizes[child := sizes[parent]]; }
        ZombiesKept(a0, t.areas, spaces0, t.spaces, zombies, {child});
      }
    }

    method DoExit(pid: nat) returns (ok: bool)
      requires Good() && pid in t.spaces
      modifies this, t, t.vm, t.vm.km
      ensures ok ==> Good() && zombies == old(zombies) + {pid}
      ensures sizes == old(sizes) && (ok <==> !HasZero(old(t.areas), pid))
    {
      ghost var a0 := t.areas;
      ghost var done := t.Cleanup(pid);
      var k := t.FindOwned(pid);
      ok := k < 0;
      if ok {
        assert NoNewOwners(a0, t.areas, {});
        ZombiesKept(a0, t.areas, t.spaces, t.spaces, zombies, {});
        zombies := zombies + {pid};
      }
    }

    method DoReap(pid: nat)
      requires Good() && pid in zombies
      modifies this, t, t.vm, t.vm.km
      ensures Good() && t.spaces == old(t.spaces) - {pid} && zombies == old(zombies) - {pid}
    {
      assert Bare(t.areas, pid);
      FreeProc(t, pid);
      sizes, zombies := sizes - {pid}, zombies - {pid};
    }

    method DoMap(pid: nat, addr: nat, length: int, prot: int, flags: int, fd: int, offset: int,
                 ofile: map<int, nat>, kinds: map<nat, FileKind>)
      requires Good() && Alive(pid) && Fits(addr, length) && Opened(t.refs, ofile)
      modifies this, t, t.vm, t.vm.km
      ensures Good()
    {
      ghost var a0 := t.areas;
      MapCall(t, pid, addr, length, prot, flags, fd, offset, ofile, kinds);
      ZombiesKept(a0, t.areas, t.spaces, t.spaces, zombies, {pid});
    }

    method DoUnmap(pid: nat, addr: nat)
      requires Good() && pid in t.spaces
      modifies this, t, t.vm, t.vm.km
      ensures Good()
    {
      ghost var a0 := t.areas;
      var r; ghost var i;
      r, i := t.Munmap(pid, addr);
      assert NoNewOwners(a0, t.areas, {});
      ZombiesKept(a0, t.areas, t.spaces, t.spaces, zombies, {});
    }

    /** The page fault branch of usertrap; a fault neither handler takes kills the process later. */
    method DoFault(pid: nat, va: nat, write: bool)
      requires Good() && pid in t.spaces
      modifies t.vm, t.vm.km
      ensures Good() && SameData(old(t.vm.flat), old(t.vm.data), t.vm.data)
      ensures forall u <- old(t.vm.flat) :: u in t.vm.flat && t.vm.flat[u] == old(t.vm.flat)[u]
      ensures forall u <- t.vm.flat :: u in old(t.vm.flat) || u == (t.spaces[pid].root, va / PGSIZE)
    {
      var ok := t.Fault(pid, va / PGSIZE, write);
      if !ok && va < sizes[pid] {
        var done; ghost var p;
        done, p := VmFault(t, pid, va / PGSIZE);
      }
    }

    method DoSbrk(pid: nat, n: int, eager: bool) returns (ok: bool)
      requires Good() && pid in t.spaces
      modifies this, t, t.vm, t.vm.km
      ensures ok ==> Good()
      ensures !ok ==> Clash(old(Snap(t)), old(sizes), SbrkCall(pid, n, eager)) && sizes == old(sizes)
    {
      ghost var spaces0 := t.spaces;
      var r, size' := MoveBreak(t, pid, sizes[pid], n, eager);
      ok := r != Remap;
      if ok {
        sizes := sizes[pid := size'];
        assert NoNewOwners(t.areas, t.areas, {});
        ZombiesKept(t.areas, t.areas, spaces0, t.spaces, zombies, {});
      }
    }

    /** Apply the operations in turn, leaving out those that cannot be called. The log has the state before the first
        and after each; every one is balanced. It ends early only at an operation that clashes. */
    method RunFrom(ops: seq<Op>) returns (n: nat, ghost log: seq<Snapshot>)
      requires Good()
      modifies this, t, t.vm, t.vm.km
      ensures n <= |ops| && |log| == n + 1 && log[0] == old(Snap(t))
      ensures forall k | 0 <= k <= n :: Balanced(log[k])
      ensures if n == |ops| then Good() && log[n] == Snap(t) else Clash(log[n], sizes, ops[n])
    {
      n := 0;
      log := [Snap(t)];
      EveryCount(t);
      while n < |ops|
        invariant n <= |ops| && |log| == n + 1 && log[0] == old(Snap(t)) && log[n] == Snap(t)
        invariant Good() && forall k | 0 <= k <= n :: Balanced(log[k])
      {
        if Callable(ops[n]) {
          var ok := Apply(ops[n]);
          if !ok { return; }
        }
        EveryCount(t);
        log := log + [Snap(t)];
        n := n + 1;
      }
    }
  }

  /** Every run of the kernel from boot. */
  method Run(firstPage: nat, files: map<nat, Bytes>, refs: map<nat, nat>, trampoline: nat, ops: seq<Op>)
    returns (w: World, n: nat, ghost log: seq<Snapshot>)
    requires 0 < firstPage <= NPAGES && 0 !in refs
    ensures n <= |ops| && |log| == n + 1
    ensures log[0].spaces == map[] && log[0].flat == map[] && |log[0].free| == NPAGES - firstPage
    ensures forall k | 0 <= k <= n :: Balanced(log[k])
    ensures if n == |ops| then w.Good() && log[n] == Snap(w.t) else Clash(log[n], w.sizes, ops[n])
  {
    w := new World(firstPage, files, refs, trampoline);
    n, log := w.RunFrom(ops);
  }
}
