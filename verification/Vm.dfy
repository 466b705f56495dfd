/** kernel/vm.c over the page allocator: walk, mappages, uvmunmap, uvmcopy, uvmfree and
    freewalk, with page ownership kept balanced by every call. */
module Vm {
  import opened Kalloc
  import opened PageTable
  import opened Ownership

  type Bytes = seq<nat>

  function PageData(data: map<nat, Bytes>, p: nat): Bytes { if p in data then data[p] else [] }

  /** The contents behind every user PTE of f0 are the same under both memories. */
  ghost predicate SameData(f0: map<Spot, Pte>, d0: map<nat, Bytes>, d: map<nat, Bytes>) {
    forall u <- f0 | u.1 < TRAPFRAME :: PageData(d, f0[u].ppn) == PageData(d0, f0[u].ppn)
  }

  /** No user PTE maps frame p. */
  ghost predicate Unused(f: map<Spot, Pte>, p: nat) { forall u <- f | u.1 < TRAPFRAME :: f[u].ppn != p }

  /** No other user PTE maps the frame of u. */
  ghost predicate Alone(f: map<Spot, Pte>, u: Spot) {
    u in f && forall w <- f | w.1 < TRAPFRAME && w != u :: f[w].ppn != f[u].ppn
  }

  /** Page v of child is a private copy of parent's: same permissions and contents, on a frame of its own. */
  ghost predicate CopyAt(f0: map<Spot, Pte>, d0: map<nat, Bytes>, f: map<Spot, Pte>, d: map<nat, Bytes>,
                         parent: nat, child: nat, v: nat)
  {
    (parent, v) in f0 ==>
      && (child, v) in f && f[(child, v)].perm == f0[(parent, v)].perm
      && PageData(d, f[(child, v)].ppn) == PageData(d0, f0[(parent, v)].ppn) && Alone(f, (child, v))
  }

  /** f is f0 plus a private copy, in child, of each page of parent below i. */
  ghost predicate Copied(f0: map<Spot, Pte>, d0: map<nat, Bytes>, f: map<Spot, Pte>, d: map<nat, Bytes>,
                         parent: nat, child: nat, i: nat)
  {
    && (forall u <- f0 :: u in f && f[u] == f0[u])
    && (forall u <- f :: u in f0 || (u.0 == child && u.1 < i && (parent, u.1) in f0))
    && forall v: nat {:trigger CopyAt(f0, d0, f, d, parent, child, v)} | v < i :: CopyAt(f0, d0, f, d, parent, child, v)
  }

  class Memory {
    const km: Kmem
    var tables: Tables
    var data: map<nat, Bytes>                     // contents of data pages
    ghost var sh: Shape
    ghost var flat: map<Spot, Pte>                // what the trees stand for
    ghost var users: map<nat, set<Spot>>          // the user PTEs mapping each page
    ghost var held: map<nat, nat>                 // references held directly by kernel code

    constructor (km: Kmem)
      requires km.Valid() && forall p <- km.refcnt :: km.refcnt[p] == 0
      ensures this.km == km && Valid() && sh.roots == {} && flat == map[]
    {
      this.km := km;
      tables, data, sh, flat := map[], map[], Shape(map[], map[], {}), map[];
      users, held := map p <- km.refcnt :: {}, map p <- km.refcnt :: 0;
    }

    ghost predicate Valid()
      reads this, km
    {
      && km.Valid() && TreeOk(tables, sh) && FlatIs(tables, sh.roots, flat)
      && UsersOk(flat, users) && CountOk(tables.Keys, km.refcnt, users, held)
    }

    /** The allocating branch of walk: a zeroed page below the invalid entry i of t. */
    method InstallTable(t: nat, i: nat) returns (c: nat)
      requires Valid() && t in tables && i < ENTRIES && 0 < Level(sh, t) && (Level(sh, t) == 2 ==> i < 256)
      requires !tables[t][i].v
      modifies this`tables, this`sh, km
      ensures Valid()
      ensures c == 0 <==> old(km.free) == []
      ensures c == 0 ==> tables == old(tables) && sh == old(sh) && km.free == []
      ensures c != 0 ==> c !in old(tables) && tables == WithChild(old(tables), t, i, c)
                         && sh == ChildShape(old(sh), t, i, c)
    {
      c := km.Alloc();
      if c == 0 { return; }
      TableCount(tables.Keys, old(km.refcnt), users, held, c);
      AddTableOk(tables, sh, t, i, c);
      AddTableFlatIs(tables, sh, t, i, c, flat);
      ghost var after := WithChild(tables, t, i, c);
      assert after.Keys == tables.Keys + {c};
      tables := tables[c := ZeroPage()][t := tables[t][i := Pte(c, true, NO_PERM)]];
      sh := ChildShape(sh, t, i, c);
    }

    /** One level of walk with alloc: follow entry i of t, adding a table page if it is invalid. */
    method Descend(t: nat, i: nat, ghost root: nat) returns (c: nat)
      requires Valid() && t in tables && InTree(tables, sh, root, t) && i < ENTRIES && 0 < Level(sh, t) <= 2
      requires Level(sh, t) == 2 ==> i < 256
      modifies this`tables, this`sh, km
      ensures Valid() && Grown(old(tables), old(sh), tables, sh, t) && Elsewhere(old(tables), old(sh), tables, sh, root)
      ensures c != 0 ==> InTree(tables, sh, root, c)
      ensures c != 0 ==> t in tables && Child(tables, t, i) == Some(c) && c in tables
                         && Level(sh, c) == Level(sh, t) - 1
      ensures c == 0 ==> km.free == []
    {
      var pte := tables[t][i];
      if pte.v {
        c := pte.ppn;
        assert PageOk(tables, sh, t) && EntryOk(tables, sh, t, i, pte);
        assert CountAt(tables.Keys, km.refcnt, users, held, c);
        ChildInTree(tables, sh, t, i);
        InSubtree(tables, sh, root, t, i);
      } else {
        c := InstallTable(t, i);
        if c != 0 {
          ChildGrows(old(tables), old(sh), t, i, c);
          ChildElsewhere(old(tables), old(sh), t, i, c, root);
        }
      }
    }

    /** walk(.., 1): the level-0 table holding vpn's PTE, or 0 when memory runs out. Whatever it
        allocates, the flat map stays the same. */
    method WalkAlloc(root: nat, vpn: nat) returns (t: nat)
      requires Valid() && root in sh.roots && vpn < MAXVPN
      modifies this`tables, this`sh, km
      ensures Valid() && sh.roots == old(sh.roots) && Elsewhere(old(tables), old(sh), tables, sh, root)
      ensures t != 0 ==> LeafTable(tables, root, vpn) == Some(t)
      ensures t == 0 ==> km.free == []
    {
      assert PageOk(tables, sh, root);
      var t1 := Descend(root, Px(2, vpn), root);
      if t1 == 0 { return 0; }
      assert root != t1 && Child(tables, root, Px(2, vpn)) == Some(t1);
      ghost var tables1, sh1 := tables, sh;
      t := Descend(t1, Px(1, vpn), root);
      ElsewhereThen(old(tables), old(sh), tables1, sh1, tables, sh, root);
      assert Child(tables, root, Px(2, vpn)) == Some(t1);
      LeafVia(tables, root, vpn, t1);
    }

    /** walk(.., 0) */
    method Walk(root: nat, vpn: nat) returns (t: nat)
      requires Valid() && root in sh.roots && vpn < MAXVPN
      ensures t != 0 ==> LeafTable(tables, root, vpn) == Some(t) && t in tables
      ensures t == 0 ==> Flat(tables, root, vpn) == NULL_PTE
    {
      assert PageOk(tables, sh, root);
      var pte := tables[root][Px(2, vpn)];
      assert EntryOk(tables, sh, root, Px(2, vpn), pte);
      if !pte.v { return 0; }
      var t1 := pte.ppn;
      assert PageOk(tables, sh, t1);
      pte := tables[t1][Px(1, vpn)];
      assert EntryOk(tables, sh, t1, Px(1, vpn), pte);
      if !pte.v { return 0; }
      t := pte.ppn;
      assert CountAt(tables.Keys, km.refcnt, users, held, t);
    }

    /** The PTE of vpn as the flat map has it, NULL_PTE when there is none. */
    method Lookup(root: nat, vpn: nat) returns (t: nat, pte: Pte)
      requires Valid() && root in sh.roots && vpn < MAXVPN
      ensures (root, vpn) in flat ==> pte == flat[(root, vpn)] && LeafTable(tables, root, vpn) == Some(t) && t in tables
      ensures (root, vpn) in flat ==> pte.v && pte.Leaf()
      ensures (root, vpn) !in flat ==> pte == NULL_PTE
    {
      t := Walk(root, vpn);
      assert FlatEntry(flat, sh.roots, (root, vpn));
      assert Flat(tables, root, vpn) == if (root, vpn) in flat then flat[(root, vpn)] else NULL_PTE;
      if t == 0 { return t, NULL_PTE; }
      pte := tables[t][Px(0, vpn)];
      if !pte.v { return t, NULL_PTE; }
    }

    /** Store the PTE of vpn. */
    method WriteLeaf(root: nat, vpn: nat, t: nat, pte: Pte)
      requires TreeOk(tables, sh) && root in sh.roots && LeafTable(tables, root, vpn) == Some(t) && t in tables
      modifies this`tables
      ensures tables == old(tables)[t := old(tables)[t][Px(0, vpn) := pte]]
      ensures forall t0, sh0 | Elsewhere(t0, sh0, old(tables), sh, root) :: Elsewhere(t0, sh0, tables, sh, root)
      ensures Elsewhere(old(tables), sh, tables, sh, root)
    {
      LeafInTree(tables, sh, root, vpn);
      LeafElsewhere(tables, sh, t, tables[t][Px(0, vpn) := pte], root);
      tables := tables[t := tables[t][Px(0, vpn) := pte]];
      forall t0, sh0 | Elsewhere(t0, sh0, old(tables), sh, root) ensures Elsewhere(t0, sh0, tables, sh, root) {
        ElsewhereThen(t0, sh0, old(tables), sh, tables, sh, root);
      }
    }

    /** mappages for one page. A user mapping takes over one of the kernel's references to the
        page; the panic "remap" is the requirement that the slot is empty. */
    method MapPage(root: nat, vpn: nat, ppn: nat, perm: Perm) returns (ok: bool)
      requires Valid() && root in sh.roots && vpn < MAXVPN && (root, vpn) !in flat
      requires (perm.r || perm.w || perm.x) && (vpn < TRAPFRAME ==> ppn in held && held[ppn] >= 1)
      modifies this`tables, this`sh, this`flat, this`users, this`held, km
      ensures Valid() && sh.roots == old(sh.roots) && Elsewhere(old(tables), old(sh), tables, sh, root)
      ensures !ok ==> flat == old(flat) && km.free == []
      ensures ok ==> flat == old(flat)[(root, vpn) := Pte(ppn, true, perm)]
      ensures if ok && vpn < TRAPFRAME
              then users == AddUser(old(users), ppn, (root, vpn)) && held == Down(old(held), ppn)
              else users == old(users) && held == old(held)
    {
      var t := WalkAlloc(root, vpn);
      if t == 0 { return false; }
      ghost var pte := Pte(ppn, true, perm);
      SetLeafFlatIs(tables, sh, root, vpn, pte, flat);
      WriteLeaf(root, vpn, t, Pte(ppn, true, perm));
      if vpn < TRAPFRAME {
        assert CountAt(tables.Keys, km.refcnt, users, held, ppn);
        MapUsers(flat, users, (root, vpn), pte);
        MapCount(tables.Keys, km.refcnt, users, held, ppn, (root, vpn));
        users, held := AddUser(users, ppn, (root, vpn)), Down(held, ppn);
      } else {
        KernelPteUsers(flat, users, (root, vpn), pte);
      }
      flat := flat[(root, vpn) := pte];
      return true;
    }

    /** The loop body of uvmunmap(.., 1) and of do_munmap: skip an absent page, else drop its
        reference and clear the PTE. */
    method UnmapPage(root: nat, vpn: nat)
      requires Valid() && root in sh.roots && vpn < TRAPFRAME
      modifies this`tables, this`flat, this`users, km
      ensures Valid() && flat == old(flat) - {(root, vpn)} && Elsewhere(old(tables), old(sh), tables, sh, root)
      ensures if (root, vpn) in old(flat)
              then var p := old(flat)[(root, vpn)].ppn;
                   users == DropUser(old(users), p, (root, vpn)) && km.refcnt == Down(old(km.refcnt), p)
              else users == old(users) && km.refcnt == old(km.refcnt)
    {
      var t, pte := Lookup(root, vpn);
      if pte == NULL_PTE {
        assert flat - {(root, vpn)} == flat;
        return;
      }
      SetLeafFlatIs(tables, sh, root, vpn, NULL_PTE, flat);
      UnmapUsers(flat, users, (root, vpn));
      UnmapCount(tables.Keys, km.refcnt, users, held, pte.ppn, (root, vpn));
      km.Free(pte.ppn);
      users := DropUser(users, pte.ppn, (root, vpn));
      WriteLeaf(root, vpn, t, NULL_PTE);
      flat := flat - {(root, vpn)};
    }

    /** uvmunmap(.., 1, 0) of the trampoline or the trapframe: the page is not freed. */
    method UnmapTrap(root: nat, vpn: nat)
      requires Valid() && root in sh.roots && TRAPFRAME <= vpn < MAXVPN
      modifies this`tables, this`flat
      ensures Valid() && flat == old(flat) - {(root, vpn)} && Elsewhere(old(tables), old(sh), tables, sh, root)
    {
      var t, pte := Lookup(root, vpn);
      if pte == NULL_PTE {
        assert flat - {(root, vpn)} == flat;
        return;
      }
      SetLeafFlatIs(tables, sh, root, vpn, NULL_PTE, flat);
      KernelPteUsers(flat, users, (root, vpn), NULL_PTE);
      WriteLeaf(root, vpn, t, NULL_PTE);
      flat := flat - {(root, vpn)};
    }
  
    /** uvmunmap(root, vpn, n, 1) */
    method UnmapRange(root: nat, vpn: nat, n: nat)
      requires Valid() && root in sh.roots && vpn + n <= TRAPFRAME
      modifies this`tables, this`flat, this`users, km
      ensures Valid() && flat == old(flat) - Range(root, vpn, n)
      ensures sh == old(sh) && held == old(held) && data == old(data)
      ensures Elsewhere(old(tables), old(sh), tables, sh, root)
    {
      ghost var before := flat;
      RangeStep(before, root, vpn, 0);
      for k := 0 to n
        invariant Valid() && flat == before - Range(root, vpn, k) && Elsewhere(old(tables), old(sh), tables, sh, root)
      {
        ghost var tables1 := tables;
        RangeStep(before, root, vpn, k);
        UnmapPage(root, vpn + k);
        ElsewhereThen(old(tables), old(sh), tables1, sh, tables, sh, root);
      }
    }

    /** kalloc for direct use by the kernel (or for a page about to be mapped). 0 is null. */
    method Grab() returns (p: nat)
      requires Valid()
      modifies this`held, km
      ensures Valid()
      ensures p == 0 <==> old(km.free) == []
      ensures p == 0 ==> held == old(held) && km.free == []
      ensures p != 0 ==> p in old(km.refcnt) && old(km.refcnt)[p] == 0 && held == Up(old(held), p) && p in held
                         && held[p] == 1
    {
      p := km.Alloc();
      if p == 0 { return; }
      FreeIsUnowned(tables.Keys, old(km.refcnt), users, held, p);
      HoldCount(tables.Keys, old(km.refcnt), users, held, p);
      held := Up(held, p);
    }

    /** kfree of a page the kernel holds directly. */
    method Drop(p: nat)
      requires Valid() && p in held && held[p] >= 1
      modifies this`held, km
      ensures Valid() && held == Down(old(held), p)
    {
      DropCount(tables.Keys, km.refcnt, users, held, p);
      km.Free(p);
      held := Down(held, p);
    }

    /** kaddref of a page some user PTE maps. */
    method Share(p: nat, ghost u: Spot)
      requires Valid() && u in flat && u.1 < TRAPFRAME && flat[u].ppn == p
      modifies this`held, km
      ensures Valid() && held == Up(old(held), p) && p in held && held[p] >= 1
    {
      assert UserAt(flat, users, u) && CountAt(tables.Keys, km.refcnt, users, held, p);
      HoldCount(tables.Keys, km.refcnt, users, held, p);
      km.AddRef(p);
      held := Up(held, p);
    }

    /** kalloc, fill, mappages; kfree again if mappages fails: the pattern of uvmalloc, uvmcopy,
        vmfault and mmap_alloc_page. */
    method MapFresh(root: nat, vpn: nat, bytes: Bytes, perm: Perm) returns (ok: bool, ghost p: nat)
      requires Valid() && root in sh.roots && vpn < TRAPFRAME && (root, vpn) !in flat && (perm.r || perm.w || perm.x)
      modifies this, km
      ensures Valid() && sh.roots == old(sh.roots) && held == old(held)
      ensures SameData(old(flat), old(data), data) && Elsewhere(old(tables), old(sh), tables, sh, root)
      ensures !ok ==> flat == old(flat)
      ensures ok ==> && p in old(km.refcnt) && old(km.refcnt)[p] == 0
                     && flat == old(flat)[(root, vpn) := Pte(p, true, perm)] && PageData(data, p) == bytes
                     && Unused(old(flat), p)
    {
      var mem := Grab();
      p := mem;
      if mem == 0 { return false, p; }
      UsersAreNotFree(flat, users, tables.Keys, old(km.refcnt), old(held), mem);
      UpThenDown(old(held), mem);
      data := data[mem := bytes];
      ok := MapPage(root, vpn, mem, perm);
      if !ok { Drop(mem); }
    }

    /** The page loop body of mmap_fork: the child's PTE shares the parent's frame, with one more
        reference; a failed mappages gives the reference back. */
    method ShareInto(parent: nat, child: nat, v: nat) returns (ok: bool)
      requires Valid() && parent in sh.roots && child in sh.roots && v < TRAPFRAME && (child, v) !in flat
      modifies this`tables, this`sh, this`flat, this`users, this`held, km
      ensures Valid() && sh.roots == old(sh.roots) && held == old(held)
      ensures Elsewhere(old(tables), old(sh), tables, sh, child)
      ensures flat == if ok && (parent, v) in old(flat) then old(flat)[(child, v) := old(flat)[(parent, v)]]
              else old(flat)
    {
      var t, pte := Lookup(parent, v);
      if pte == NULL_PTE { return true; }
      assert (parent, v) in flat;
      Share(pte.ppn, (parent, v));
      UpThenDown(old(held), pte.ppn);
      ok := MapPage(child, v, pte.ppn, pte.perm);
      if !ok { Drop(pte.ppn); }
    }

    /** uvmcreate: an empty address space, or 0. */
    method NewSpace() returns (root: nat)
      requires Valid()
      modifies this`tables, this`sh, km
      ensures Valid()
      ensures root == 0 ==> sh == old(sh) && tables == old(tables) && km.free == []
      ensures root != 0 ==> root !in old(sh).roots && sh.roots == old(sh).roots + {root}
                            && Without(tables, sh, root, old(tables))
                            && forall w: nat :: (root, w) !in flat
    {
      root := km.Alloc();
      if root == 0 { return; }
      TableCount(tables.Keys, old(km.refcnt), users, held, root);
      AddRootOk(tables, sh, root);
      AddRootFlatIs(tables, sh, root, flat);
      RootElsewhere(tables, sh, root);
      assert WithRoot(tables, root).Keys == tables.Keys + {root};
      tables := tables[root := ZeroPage()];
      sh := RootShape(sh, root);
    }

    /** uvmcopy of the first n pages: private copies with the parent's contents and
        permissions, or nothing at all. */
    method CopySpace(parent: nat, child: nat, n: nat) returns (ok: bool)
      requires Valid() && parent in sh.roots && child in sh.roots && parent != child && n <= TRAPFRAME
      requires forall v: nat | v < n :: (child, v) !in flat
      modifies this, km
      ensures Valid() && sh.roots == old(sh.roots) && held == old(held) && SameData(old(flat), old(data), data)
      ensures Elsewhere(old(tables), old(sh), tables, sh, child)
      ensures ok ==> Copied(old(flat), old(data), flat, data, parent, child, n)
      ensures !ok ==> flat == old(flat)
    {
      ghost var f0, d0 := flat, data;
      var i := 0;
      ok := true;
      while ok && i < n
        invariant i <= n && Valid() && sh.roots == old(sh.roots) && held == old(held) && SameData(f0, d0, data)
        invariant Copied(f0, d0, flat, data, parent, child, i) && (!ok ==> i < n)
        invariant Elsewhere(old(tables), old(sh), tables, sh, child)
        decreases n - i, ok
      {
        ghost var tables1, sh1 := tables, sh;
        ok := CopyPage(parent, child, i, f0, d0);
        ElsewhereThen(old(tables), old(sh), tables1, sh1, tables, sh, child);
        if ok { i := i + 1; }
      }
      if !ok {
        ghost var tables1, sh1 := tables, sh;
        CopyUndone(f0, d0, flat, data, parent, child, i);
        UnmapRange(child, 0, i);
        ElsewhereThen(old(tables), old(sh), tables1, sh1, tables, sh, child);
      }
    }

    /** The loop body of uvmcopy: nothing to do for an absent page, else a private copy. */
    method CopyPage(parent: nat, child: nat, i: nat, ghost f0: map<Spot, Pte>, ghost d0: map<nat, Bytes>)
      returns (ok: bool)
      requires Valid() && parent in sh.roots && child in sh.roots && parent != child && i < TRAPFRAME
      requires (forall v: nat | v <= i :: (child, v) !in f0) && SameData(f0, d0, data)
      requires Copied(f0, d0, flat, data, parent, child, i)
      modifies this, km
      ensures Valid() && sh.roots == old(sh.roots) && held == old(held) && SameData(f0, d0, data)
      ensures Copied(f0, d0, flat, data, parent, child, if ok then i + 1 else i)
      ensures Elsewhere(old(tables), old(sh), tables, sh, child)
    {
      var t, pte := Lookup(parent, i);
      if pte == NULL_PTE {
        assert CopyAt(f0, d0, flat, data, parent, child, i);
        return true;
      }
      ghost var f1, d1, p := flat, data, 0;
      assert (parent, i) in f0 && f0[(parent, i)] == pte && (child, i) !in flat;
      ok, p := MapFresh(child, i, PageData(data, pte.ppn), pte.perm);
      DataStays(f0, d0, f1, d1, data, parent, child, i);
      if ok {
        CopyOne(f0, d0, f1, d1, data, parent, child, i, p);
      } else {
        CopyDataStays(f0, d0, f1, d1, data, parent, child, i);
      }
    }

    /** freewalk: free the table page t and, through its entries, every table page below it.
        `t0` is the page-table memory before the first call. The panic "freewalk: leaf" is out
        of reach when no level-0 entry is valid; each page of the tree is freed exactly once. */
    method Freewalk(t: nat, ghost t0: Tables)
      requires TreeOk(t0, sh) && t in t0 && km.Valid() && TreeReady(t0, sh, t, tables, km.refcnt)
      modifies this`tables, km
      ensures km.Valid()
      ensures TreeFreed(t0, sh, t, old(tables), tables, old(km.refcnt), km.refcnt)
      decreases Level(sh, t), 1
    {
      ghost var before, counts := tables, km.refcnt;
      StartPruning(t0, sh, t, before, counts);
      for i := 0 to ENTRIES
        invariant km.Valid() && Pruning(t0, sh, t, i, before, tables, counts, km.refcnt)
      {
        FreeEntry(t, i, t0, before, counts);
      }
      PruningEnds(t0, sh, t, before, tables, counts, km.refcnt);
      km.Free(t);
      tables := tables - {t};
    }

    /** The end of uvmfree for an address space in which nothing is mapped any more. */
    method FreeSpace(root: nat)
      requires Valid() && root in sh.roots && forall u <- flat :: u.0 != root
      modifies this`tables, this`sh, km
      ensures Valid() && sh == old(sh).(roots := old(sh).roots - {root})
      ensures Without(old(tables), old(sh), root, tables)
      ensures km.refcnt.Keys == old(km.refcnt).Keys
      ensures forall p <- km.refcnt :: km.refcnt[p] == if InTree(old(tables), old(sh), root, p) then 0
              else old(km.refcnt)[p]
    {
      ghost var t0, counts := tables, km.refcnt;
      forall p | InTree(t0, sh, root, p) ensures p in counts && counts[p] == 1 {
        TableCounts(t0.Keys, counts, users, held, p);
      }
      forall p, i | InTree(t0, sh, root, p) && Level(sh, p) == 0 && 0 <= i < ENTRIES ensures !t0[p][i].v {
        NoLeaves(t0, sh, root, flat, p, i);
      }
      Freewalk(root, t0);
      PruneOk(t0, sh, root, tables);
      PruneFlatIs(t0, sh, root, tables, flat);
      PruneCount(t0.Keys, tables.Keys, counts, km.refcnt, users, held);
      sh := sh.(roots := sh.roots - {root});
    }

    method FreeEntry(t: nat, i: nat, ghost t0: Tables, ghost before: Tables, ghost counts: map<nat, nat>)
      requires TreeOk(t0, sh) && t in t0 && i < ENTRIES && km.Valid()
      requires TreeReady(t0, sh, t, before, counts) && Pruning(t0, sh, t, i, before, tables, counts, km.refcnt)
      modifies this`tables, km
      ensures km.Valid() && Pruning(t0, sh, t, i + 1, before, tables, counts, km.refcnt)
      decreases Level(sh, t), 0
    {
      var pte := tables[t][i];
      assert PageOk(t0, sh, t) && EntryOk(t0, sh, t, i, pte);
      if pte.v && !pte.Leaf() {
        ghost var tables1, refcnt1 := tables, km.refcnt;
        ChildReady(t0, sh, t, i, before, tables, counts, km.refcnt);
        Freewalk(pte.ppn, t0);
        ChildFreed(t0, sh, t, i, before, tables1, tables, counts, refcnt1, km.refcnt);
        tables := tables[t := tables[t][i := NULL_PTE]];
      } else {
        if pte.v { assert false; }          // panic("freewalk: leaf")
        NextEntry(t0, sh, t, i);
      }
    }
  }

  lemma CopyOne(f0: map<Spot, Pte>, d0: map<nat, Bytes>, f: map<Spot, Pte>, d: map<nat, Bytes>, d': map<nat, Bytes>,
                parent: nat, child: nat, i: nat, p: nat)
    requires Copied(f0, d0, f, d, parent, child, i) && (parent, i) in f0 && parent != child && i < TRAPFRAME
    requires SameData(f0, d0, d) && SameData(f, d, d') && PageData(d', p) == PageData(d, f0[(parent, i)].ppn)
    requires Unused(f, p)
    requires forall v: nat | v <= i :: (child, v) !in f0
    ensures Copied(f0, d0, f[(child, i) := Pte(p, true, f0[(parent, i)].perm)], d', parent, child, i + 1)
  {
    var f' := f[(child, i) := Pte(p, true, f0[(parent, i)].perm)];
    forall v: nat | v < i + 1 ensures CopyAt(f0, d0, f', d', parent, child, v) {
      if v < i { assert CopyAt(f0, d0, f, d, parent, child, v); }
    }
  }

  lemma CopyDataStays(f0: map<Spot, Pte>, d0: map<nat, Bytes>, f: map<Spot, Pte>, d: map<nat, Bytes>,
                      d': map<nat, Bytes>, parent: nat, child: nat, i: nat)
    requires Copied(f0, d0, f, d, parent, child, i) && SameData(f, d, d') && i <= TRAPFRAME
    ensures Copied(f0, d0, f, d', parent, child, i)
  {
    forall v: nat | v < i ensures CopyAt(f0, d0, f, d', parent, child, v) {
      assert CopyAt(f0, d0, f, d, parent, child, v);
    }
  }

  lemma DataStays(f0: map<Spot, Pte>, d0: map<nat, Bytes>, f: map<Spot, Pte>, d: map<nat, Bytes>, d': map<nat, Bytes>,
                  parent: nat, child: nat, i: nat)
    requires Copied(f0, d0, f, d, parent, child, i) && SameData(f0, d0, d) && SameData(f, d, d')
    ensures SameData(f0, d0, d')
  {
    forall u <- f0 | u.1 < TRAPFRAME ensures PageData(d', f0[u].ppn) == PageData(d0, f0[u].ppn) {
      assert u in f && f[u] == f0[u];
    }
  }

  lemma CopyUndone(f0: map<Spot, Pte>, d0: map<nat, Bytes>, f: map<Spot, Pte>, d: map<nat, Bytes>, parent: nat,
                   child: nat, i: nat)
    requires Copied(f0, d0, f, d, parent, child, i) && forall v: nat | v < i :: (child, v) !in f0
    ensures f - Range(child, 0, i) == f0
  {
    var g := f - Range(child, 0, i);
    forall u: Spot ensures u in g <==> u in f0 {
      assert u in Range(child, 0, i) ==> u == (child, u.1);
      if u in f && u !in f0 { assert u == (child, u.1) && u in Range(child, 0, i); }
    }
  }

  lemma UsersAreNotFree(flat: map<Spot, Pte>, users: map<nat, set<Spot>>, pages: set<nat>, refcnt: map<nat, nat>,
                        held: map<nat, nat>, p: nat)
    requires UsersOk(flat, users) && CountOk(pages, refcnt, users, held) && p in refcnt && refcnt[p] == 0
    ensures Unused(flat, p)
  {
    FreeIsUnowned(pages, refcnt, users, held, p);
    forall u <- flat | u.1 < TRAPFRAME ensures flat[u].ppn != p { assert UserAt(flat, users, u); }
  }

  /** The tree of t is intact, holds no leaf entry, and each of its pages has one reference. */
  ghost predicate TreeReady(t0: Tables, sh: Shape, t: nat, tables: Tables, counts: map<nat, nat>) {
    && (forall p | InTree(t0, sh, t, p) :: p in tables && tables[p] == t0[p] && p in counts && counts[p] == 1)
    && forall p, i | InTree(t0, sh, t, p) && Level(sh, p) == 0 && 0 <= i < ENTRIES :: !t0[p][i].v
  }

  /** The first i entries of t have been freed and cleared. */
  ghost predicate Pruning(t0: Tables, sh: Shape, t: nat, i: nat, before: Tables, tables: Tables,
                          counts: map<nat, nat>, refcnt: map<nat, nat>)
    requires t in t0
  {
    && t in tables && (forall j | i <= j < ENTRIES :: tables[t][j] == t0[t][j])
    && (forall p :: p in tables <==> p in before && !Gone(t0, sh, t, i, p))
    && (forall p <- tables | p != t :: tables[p] == before[p])
    && (forall p :: p in refcnt <==> p in counts)
    && forall p <- refcnt :: refcnt[p] == if Gone(t0, sh, t, i, p) then 0 else counts[p]
  }

  lemma StartPruning(t0: Tables, sh: Shape, t: nat, tables: Tables, counts: map<nat, nat>)
    requires TreeOk(t0, sh) && t in t0 && TreeReady(t0, sh, t, tables, counts)
    ensures Pruning(t0, sh, t, 0, tables, tables, counts, counts) && !Gone(t0, sh, t, ENTRIES, t)
  {
    NotBelowItself(t0, sh, t);
    assert InTree(t0, sh, t, t);
  }

  /** The table pages of the tree below t are gone and their counts 0; the rest is as it was. */
  ghost predicate TreeFreed(t0: Tables, sh: Shape, t: nat, before: Tables, tables: Tables,
                            counts: map<nat, nat>, refcnt: map<nat, nat>) {
    && (forall p :: p in tables <==> p in before && !InTree(t0, sh, t, p))
    && (forall p <- tables :: tables[p] == before[p]) && refcnt.Keys == counts.Keys
    && forall p <- refcnt :: refcnt[p] == if InTree(t0, sh, t, p) then 0 else counts[p]
  }

  lemma PruningEnds(t0: Tables, sh: Shape, t: nat, before: Tables, tables: Tables,
                    counts: map<nat, nat>, refcnt: map<nat, nat>)
    requires TreeOk(t0, sh) && t in t0 && TreeReady(t0, sh, t, before, counts)
    requires Pruning(t0, sh, t, ENTRIES, before, tables, counts, refcnt)
    ensures t in refcnt && refcnt[t] == 1 && TreeFreed(t0, sh, t, before, tables - {t}, counts, Down(refcnt, t))
  {
    NotBelowItself(t0, sh, t);
    assert InTree(t0, sh, t, t);
    forall p ensures InTree(t0, sh, t, p) <==> p == t || Gone(t0, sh, t, ENTRIES, p) { AllGone(t0, sh, t, p); }
  }

  lemma ChildReady(t0: Tables, sh: Shape, t: nat, i: nat, before: Tables, tables: Tables,
                   counts: map<nat, nat>, refcnt: map<nat, nat>)
    requires TreeOk(t0, sh) && t in t0 && i < ENTRIES && TreeReady(t0, sh, t, before, counts)
    requires Pruning(t0, sh, t, i, before, tables, counts, refcnt) && t0[t][i].v && !t0[t][i].Leaf()
    ensures t0[t][i].ppn in t0 && Level(sh, t0[t][i].ppn) < Level(sh, t)
    ensures TreeReady(t0, sh, t0[t][i].ppn, tables, refcnt)
  {
    ChildInTree(t0, sh, t, i);
  }

  lemma ChildFreed(t0: Tables, sh: Shape, t: nat, i: nat, before: Tables, tables1: Tables, tables: Tables,
                   counts: map<nat, nat>, refcnt1: map<nat, nat>, refcnt: map<nat, nat>)
    requires TreeOk(t0, sh) && t in t0 && i < ENTRIES && TreeReady(t0, sh, t, before, counts)
    requires Pruning(t0, sh, t, i, before, tables1, counts, refcnt1) && t0[t][i].v && !t0[t][i].Leaf()
    requires TreeFreed(t0, sh, t0[t][i].ppn, tables1, tables, refcnt1, refcnt)
    ensures t in tables && Pruning(t0, sh, t, i + 1, before, tables[t := tables[t][i := NULL_PTE]], counts, refcnt)
  {
    ChildInTree(t0, sh, t, i);
    NextEntry(t0, sh, t, i);
  }

  lemma NextEntry(t0: Tables, sh: Shape, t: nat, i: nat)
    requires TreeOk(t0, sh) && t in t0 && i < ENTRIES
    ensures Level(sh, t) > 0 ==> forall p :: Gone(t0, sh, t, i + 1, p) <==>
              Gone(t0, sh, t, i, p) || (t0[t][i].v && InTree(t0, sh, t0[t][i].ppn, p))
    ensures Level(sh, t) == 0 ==> forall p, j: nat :: !Gone(t0, sh, t, j, p)
  {
    if Level(sh, t) > 0 {
      forall p ensures Gone(t0, sh, t, i + 1, p)
               <==> Gone(t0, sh, t, i, p) || (t0[t][i].v && InTree(t0, sh, t0[t][i].ppn, p)) {
        GoneNext(t0, sh, t, i, p);
      }
    } else {
      forall p, j: nat ensures !Gone(t0, sh, t, j, p) {
        LeafHasNone(t0, sh, t, p);
        NotBelowItself(t0, sh, t);
      }
    }
  }
}
