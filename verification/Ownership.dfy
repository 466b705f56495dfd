/** Who owns each physical page: the user PTEs that map it, the kernel's direct holders, or
    the page-table trees. The reference count is always their number. */
module Ownership {
  import opened Kalloc
  import opened PageTable

  /** An address space (its root table page) and a virtual page number. */
  type Spot = (nat, nat)

  /** `flat` is the map from virtual pages to PTEs that the trees stand for. */
  ghost predicate FlatIs(tables: Tables, roots: set<nat>, flat: map<Spot, Pte>) {
    && (forall s: nat, w: nat {:trigger Flat(tables, s, w)} | s in roots && w < MAXVPN ::
          Flat(tables, s, w) == if (s, w) in flat then flat[(s, w)] else NULL_PTE)
    && forall u: Spot {:trigger FlatEntry(flat, roots, u)} :: FlatEntry(flat, roots, u)
  }

  ghost predicate FlatEntry(flat: map<Spot, Pte>, roots: set<nat>, u: Spot) {
    u in flat ==> u.0 in roots && u.1 < MAXVPN && flat[u].v && flat[u].Leaf()
  }

  /** `users[p]` are exactly the user PTEs (those below the trapframe) that map p. */
  ghost predicate UsersOk(flat: map<Spot, Pte>, users: map<nat, set<Spot>>) {
    && (forall u: Spot {:trigger UserAt(flat, users, u)} :: UserAt(flat, users, u))
    && forall p <- users, u: Spot <- users[p] :: u in flat && u.1 < TRAPFRAME && flat[u].ppn == p
  }

  ghost predicate UserAt(flat: map<Spot, Pte>, users: map<nat, set<Spot>>, u: Spot) {
    u in flat && u.1 < TRAPFRAME ==> flat[u].ppn in users && u in users[flat[u].ppn]
  }

  /** For page p: refcnt = user PTEs + direct kernel holders + 1 for a page-table page. */
  ghost predicate CountAt(pages: set<nat>, refcnt: map<nat, nat>, users: map<nat, set<Spot>>, held: map<nat, nat>,
                          p: nat) {
    && (p in users <==> p in refcnt) && (p in held <==> p in refcnt)
    && (p in pages ==> p in refcnt && users[p] == {} && held[p] == 0)
    && (p in refcnt ==> refcnt[p] == |users[p]| + held[p] + if p in pages then 1 else 0)
  }

  ghost predicate CountOk(pages: set<nat>, refcnt: map<nat, nat>, users: map<nat, set<Spot>>, held: map<nat, nat>) {
    forall p: nat {:trigger CountAt(pages, refcnt, users, held, p)} :: CountAt(pages, refcnt, users, held, p)
  }

  lemma FreeIsUnowned(pages: set<nat>, refcnt: map<nat, nat>, users: map<nat, set<Spot>>, held: map<nat, nat>, p: nat)
    requires CountOk(pages, refcnt, users, held) && p in refcnt && refcnt[p] == 0
    ensures p !in pages && p in users && users[p] == {} && p in held && held[p] == 0
  {
    assert CountAt(pages, refcnt, users, held, p);
  }

  function AddUser(users: map<nat, set<Spot>>, p: nat, u: Spot): map<nat, set<Spot>> {
    if p in users then users[p := users[p] + {u}] else users
  }

  function DropUser(users: map<nat, set<Spot>>, p: nat, u: Spot): map<nat, set<Spot>> {
    if p in users then users[p := users[p] - {u}] else users
  }

  // ---------- Counting ----------

  /** A free page becomes a table page. */
  lemma TableCount(pages: set<nat>, refcnt: map<nat, nat>, users: map<nat, set<Spot>>, held: map<nat, nat>, c: nat)
    requires CountOk(pages, refcnt, users, held) && c in refcnt && refcnt[c] == 0
    ensures c !in pages && CountOk(pages + {c}, Up(refcnt, c), users, held)
  {
    var pages', refcnt' := pages + {c}, Up(refcnt, c);
    assert CountAt(pages, refcnt, users, held, c);
    forall p: nat ensures CountAt(pages', refcnt', users, held, p) { assert CountAt(pages, refcnt, users, held, p); }
  }

  /** The kernel's reference to p becomes the reference of a new user PTE. */
  lemma MapCount(pages: set<nat>, refcnt: map<nat, nat>, users: map<nat, set<Spot>>, held: map<nat, nat>, p: nat,
                 u: Spot)
    requires CountOk(pages, refcnt, users, held) && p in held && held[p] >= 1 && p in users && u !in users[p]
    ensures CountOk(pages, refcnt, AddUser(users, p, u), Down(held, p))
  {
    var users', held' := AddUser(users, p, u), Down(held, p);
    forall q: nat ensures CountAt(pages, refcnt, users', held', q) { assert CountAt(pages, refcnt, users, held, q); }
  }

  /** A removed user PTE takes its reference with it. */
  lemma UnmapCount(pages: set<nat>, refcnt: map<nat, nat>, users: map<nat, set<Spot>>, held: map<nat, nat>, p: nat,
                   u: Spot)
    requires CountOk(pages, refcnt, users, held) && p in users && u in users[p]
    ensures p in refcnt && refcnt[p] >= 1
    ensures CountOk(pages, Down(refcnt, p), DropUser(users, p, u), held)
  {
    var refcnt', users' := Down(refcnt, p), DropUser(users, p, u);
    assert CountAt(pages, refcnt, users, held, p);
    assert |users[p] - {u}| == |users[p]| - 1;
    forall q: nat ensures CountAt(pages, refcnt', users', held, q) { assert CountAt(pages, refcnt, users, held, q); }
  }

  /** kalloc for the kernel's own use, and kaddref. */
  lemma HoldCount(pages: set<nat>, refcnt: map<nat, nat>, users: map<nat, set<Spot>>, held: map<nat, nat>, p: nat)
    requires CountOk(pages, refcnt, users, held) && p in refcnt && p !in pages
    ensures p in users && p in held && CountOk(pages, Up(refcnt, p), users, Up(held, p))
  {
    var refcnt', held' := Up(refcnt, p), Up(held, p);
    forall q: nat ensures CountAt(pages, refcnt', users, held', q) { assert CountAt(pages, refcnt, users, held, q); }
    assert CountAt(pages, refcnt, users, held, p);
  }

  /** kfree of a page the kernel holds. */
  lemma DropCount(pages: set<nat>, refcnt: map<nat, nat>, users: map<nat, set<Spot>>, held: map<nat, nat>, p: nat)
    requires CountOk(pages, refcnt, users, held) && p in held && held[p] >= 1
    ensures p in refcnt && refcnt[p] >= 1 && CountOk(pages, Down(refcnt, p), users, Down(held, p))
  {
    var refcnt', held' := Down(refcnt, p), Down(held, p);
    forall q: nat ensures CountAt(pages, refcnt', users, held', q) { assert CountAt(pages, refcnt, users, held, q); }
    assert CountAt(pages, refcnt, users, held, p);
  }

  // ---------- Users ----------

  lemma MapUsers(flat: map<Spot, Pte>, users: map<nat, set<Spot>>, u: Spot, pte: Pte)
    requires UsersOk(flat, users) && u !in flat && u.1 < TRAPFRAME && pte.ppn in users
    ensures u !in users[pte.ppn] && UsersOk(flat[u := pte], AddUser(users, pte.ppn, u))
  {
    var flat', users' := flat[u := pte], AddUser(users, pte.ppn, u);
    forall w: Spot ensures UserAt(flat', users', w) { assert UserAt(flat, users, w); }
  }

  lemma UnmapUsers(flat: map<Spot, Pte>, users: map<nat, set<Spot>>, u: Spot)
    requires UsersOk(flat, users) && u in flat && u.1 < TRAPFRAME
    ensures var p := flat[u].ppn; p in users && u in users[p] && UsersOk(flat - {u}, DropUser(users, p, u))
  {
    assert UserAt(flat, users, u);
    var flat', users' := flat - {u}, DropUser(users, flat[u].ppn, u);
    forall w: Spot ensures UserAt(flat', users', w) { assert UserAt(flat, users, w); }
  }

  /** Clearing a PTE and freeing its page, as do_munmap does for every page of an area, keeps the counts right exactly
      when the PTE lies below the trapframe: above it the reference is the kernel's, which still holds the page. */
  lemma UnmapKeepsCounts(flat: map<Spot, Pte>, pages: set<nat>, refcnt: map<nat, nat>, users: map<nat, set<Spot>>,
                         held: map<nat, nat>, u: Spot)
    requires UsersOk(flat, users) && CountOk(pages, refcnt, users, held)
    requires u in flat && flat[u].ppn in refcnt && refcnt[flat[u].ppn] > 0
    ensures var p := flat[u].ppn; CountOk(pages, Down(refcnt, p), DropUser(users, p, u), held) <==> u.1 < TRAPFRAME
  {
    var p := flat[u].ppn;
    assert CountAt(pages, refcnt, users, held, p);
    if u.1 < TRAPFRAME {
      assert UserAt(flat, users, u);
      UnmapCount(pages, refcnt, users, held, p, u);
    } else {
      assert u !in users[p] && DropUser(users, p, u)[p] == users[p];
      assert !CountAt(pages, Down(refcnt, p), DropUser(users, p, u), held, p);
    }
  }

  /** A kernel-only PTE (trampoline or trapframe) has no user. */
  lemma KernelPteUsers(flat: map<Spot, Pte>, users: map<nat, set<Spot>>, u: Spot, pte: Pte)
    requires UsersOk(flat, users) && u.1 >= TRAPFRAME
    ensures UsersOk(flat[u := pte], users) && UsersOk(flat - {u}, users)
  {
    var more, less := flat[u := pte], flat - {u};
    forall w: Spot ensures UserAt(more, users, w) && UserAt(less, users, w) { assert UserAt(flat, users, w); }
  }

  // ---------- Trees and the flat map ----------

  /** A new empty table page changes nothing. */
  lemma AddTableFlatIs(tables: Tables, sh: Shape, t: nat, i: nat, c: nat, flat: map<Spot, Pte>)
    requires TreeOk(tables, sh) && t in tables && i < ENTRIES && Level(sh, t) > 0 && c !in tables
    requires !tables[t][i].v && FlatIs(tables, sh.roots, flat)
    ensures FlatIs(WithChild(tables, t, i, c), sh.roots, flat)
  {
    forall s: nat, w: nat | s in sh.roots && w < MAXVPN
      ensures Flat(WithChild(tables, t, i, c), s, w) == if (s, w) in flat then flat[(s, w)] else NULL_PTE
    {
      AddTableFlat(tables, sh, t, i, c, s, w);
    }
  }

  /** Writing the slot of (root, vpn) updates the flat map there, in every address space's view. */
  lemma SetLeafFlatIs(tables: Tables, sh: Shape, root: nat, vpn: nat, pte: Pte, flat: map<Spot, Pte>)
    requires TreeOk(tables, sh) && root in sh.roots && vpn < MAXVPN && LeafTable(tables, root, vpn).Some?
    requires pte == NULL_PTE || (pte.v && pte.Leaf())
    requires FlatIs(tables, sh.roots, flat)
    ensures var t := LeafTable(tables, root, vpn).value;
            && t in tables
            && var after := tables[t := tables[t][Px(0, vpn) := pte]];
            && TreeOk(after, sh) && after.Keys == tables.Keys
            && FlatIs(after, sh.roots, if pte == NULL_PTE then flat - {(root, vpn)} else flat[(root, vpn) := pte])
  {
    var t := LeafTable(tables, root, vpn).value;
    LeafOwners(tables, sh, root, vpn);
    SetLeafOk(tables, sh, t, Px(0, vpn), pte);
    var after := tables[t := tables[t][Px(0, vpn) := pte]];
    var flat' := if pte == NULL_PTE then flat - {(root, vpn)} else flat[(root, vpn) := pte];
    forall s: nat, w: nat | s in sh.roots && w < MAXVPN
      ensures Flat(after, s, w) == if (s, w) in flat' then flat'[(s, w)] else NULL_PTE
    {
      SetLeafFlat(tables, sh, root, vpn, pte, s, w);
    }
    forall u: Spot ensures FlatEntry(flat', sh.roots, u) { assert FlatEntry(flat, sh.roots, u); }
  }

  lemma AddRootFlatIs(tables: Tables, sh: Shape, c: nat, flat: map<Spot, Pte>)
    requires TreeOk(tables, sh) && c !in tables && FlatIs(tables, sh.roots, flat)
    ensures FlatIs(WithRoot(tables, c), RootShape(sh, c).roots, flat)
    ensures forall w: nat :: (c, w) !in flat
  {
    assert c !in sh.roots;
    forall u: Spot ensures FlatEntry(flat, RootShape(sh, c).roots, u) && (u in flat ==> u.0 != c) {
      assert FlatEntry(flat, sh.roots, u);
    }
    forall s: nat, w: nat | s in RootShape(sh, c).roots && w < MAXVPN
      ensures Flat(WithRoot(tables, c), s, w) == if (s, w) in flat then flat[(s, w)] else NULL_PTE
    {
      AddRootFlat(tables, sh, c, s, w);
    }
  }

  /** Tables were only added, below t, and nothing was renumbered. */
  ghost predicate Grown(a: Tables, sa: Shape, b: Tables, sb: Shape, t: nat) {
    sa.roots == sb.roots && forall p <- a :: p in b && Level(sb, p) == Level(sa, p) && (p == t || b[p] == a[p])
  }

  lemma ChildGrows(tables: Tables, sh: Shape, t: nat, i: nat, c: nat)
    requires t in tables && i < ENTRIES && Level(sh, t) > 0 && c !in tables
    ensures Grown(tables, sh, WithChild(tables, t, i, c), ChildShape(sh, t, i, c), t)
    ensures Child(WithChild(tables, t, i, c), t, i) == Some(c) && c in WithChild(tables, t, i, c)
    ensures Level(ChildShape(sh, t, i, c), c) == Level(sh, t) - 1
  {
  }

  /** A whole address space goes: the rest of the flat map stays. */
  lemma PruneFlatIs(tables: Tables, sh: Shape, root: nat, after: Tables, flat: map<Spot, Pte>)
    requires TreeOk(tables, sh) && root in sh.roots && Without(tables, sh, root, after)
    requires FlatIs(tables, sh.roots, flat) && forall u <- flat :: u.0 != root
    ensures FlatIs(after, sh.roots - {root}, flat)
  {
    forall u: Spot ensures FlatEntry(flat, sh.roots - {root}, u) { assert FlatEntry(flat, sh.roots, u); }
    forall s: nat, w: nat | s in sh.roots - {root} && w < MAXVPN
      ensures Flat(after, s, w) == if (s, w) in flat then flat[(s, w)] else NULL_PTE
    {
      PruneFlat(tables, sh, root, after, s, w);
    }
  }

  /** With nothing mapped in it, no level-0 entry of the tree is valid. */
  lemma NoLeaves(tables: Tables, sh: Shape, root: nat, flat: map<Spot, Pte>, p: nat, i: nat)
    requires TreeOk(tables, sh) && root in sh.roots && FlatIs(tables, sh.roots, flat)
    requires forall u <- flat :: u.0 != root
    requires InTree(tables, sh, root, p) && Level(sh, p) == 0 && i < ENTRIES
    ensures !tables[p][i].v
  {
    SlotHasPage(tables, sh, root, p, i);
    var w: nat :| w < MAXVPN && LeafTable(tables, root, w) == Some(p) && Px(0, w) == i;
    assert Flat(tables, root, w) == NULL_PTE;
  }

  ghost predicate LeafAt(tables: Tables, sh: Shape, root: nat, p: nat, i: nat) {
    InTree(tables, sh, root, p) && Level(sh, p) == 0 && i < ENTRIES && tables[p][i].v
  }

  /** freewalk meets a leaf, and panics, exactly when a page of the address space is still mapped. */
  lemma LeafExactly(tables: Tables, sh: Shape, root: nat, flat: map<Spot, Pte>)
    requires TreeOk(tables, sh) && root in sh.roots && FlatIs(tables, sh.roots, flat)
    ensures (exists p: nat, i: nat :: LeafAt(tables, sh, root, p, i)) <==> exists u: Spot :: u in flat && u.0 == root
  {
    if u: Spot :| u in flat && u.0 == root {
      assert FlatEntry(flat, sh.roots, u) && u == (root, u.1) && Flat(tables, root, u.1) == flat[u];
      LeafInTree(tables, sh, root, u.1);
      LeafOwners(tables, sh, root, u.1);
      assert LeafAt(tables, sh, root, LeafTable(tables, root, u.1).value, Px(0, u.1));
    } else {
      forall p: nat, i: nat ensures !LeafAt(tables, sh, root, p, i) {
        if InTree(tables, sh, root, p) && Level(sh, p) == 0 && i < ENTRIES { NoLeaves(tables, sh, root, flat, p, i); }
      }
    }
  }

  lemma PruneCount(pages: set<nat>, after: set<nat>, refcnt: map<nat, nat>, refcnt': map<nat, nat>,
                   users: map<nat, set<Spot>>, held: map<nat, nat>)
    requires CountOk(pages, refcnt, users, held) && after <= pages && refcnt'.Keys == refcnt.Keys
    requires forall p <- refcnt' :: refcnt'[p] == if p in pages && p !in after then 0 else refcnt[p]
    ensures CountOk(after, refcnt', users, held)
  {
    forall p: nat ensures CountAt(after, refcnt', users, held, p) { assert CountAt(pages, refcnt, users, held, p); }
  }

  lemma TableCounts(pages: set<nat>, refcnt: map<nat, nat>, users: map<nat, set<Spot>>, held: map<nat, nat>, p: nat)
    requires CountOk(pages, refcnt, users, held) && p in pages
    ensures p in refcnt && refcnt[p] == 1
  {
    assert CountAt(pages, refcnt, users, held, p);
  }

  /** The n pages from vpn on. */
  ghost function Range(root: nat, vpn: nat, n: nat): set<Spot> {
    set v: nat | vpn <= v < vpn + n :: (root, v)
  }

  lemma RangeStep(flat: map<Spot, Pte>, root: nat, vpn: nat, k: nat)
    ensures flat - Range(root, vpn, k) - {(root, vpn + k)} == flat - Range(root, vpn, k + 1)
    ensures flat - Range(root, vpn, 0) == flat
  {
    assert Range(root, vpn, k + 1) == Range(root, vpn, k) + {(root, vpn + k)};
    assert Range(root, vpn, 0) == {};
  }

  /** Pages that are table pages neither before nor after have the same count. */
  ghost predicate SameCounts(t0: Tables, refcnt0: map<nat, nat>, t1: Tables, refcnt1: map<nat, nat>) {
    refcnt0.Keys == refcnt1.Keys && forall p <- refcnt0 | p !in t0 && p !in t1 :: refcnt0[p] == refcnt1[p]
  }

  /** The flat map, the direct holders and the set of table pages determine every count. */
  lemma CountsDetermined(flat: map<Spot, Pte>, held: map<nat, nat>,
                         pages: set<nat>, refcnt: map<nat, nat>, users: map<nat, set<Spot>>,
                         pages': set<nat>, refcnt': map<nat, nat>, users': map<nat, set<Spot>>, p: nat)
    requires UsersOk(flat, users) && UsersOk(flat, users')
    requires CountOk(pages, refcnt, users, held) && CountOk(pages', refcnt', users', held)
    requires p in refcnt && (p in pages <==> p in pages')
    ensures p in refcnt' && refcnt[p] == refcnt'[p]
  {
    assert CountAt(pages, refcnt, users, held, p) && CountAt(pages', refcnt', users', held, p);
    forall u: Spot ensures u in users[p] <==> u in users'[p] {
      assert UserAt(flat, users, u) && UserAt(flat, users', u);
    }
    assert users[p] == users'[p];
  }

  lemma AllCounts(flat: map<Spot, Pte>, held: map<nat, nat>, t0: Tables, refcnt0: map<nat, nat>,
                  users0: map<nat, set<Spot>>, t1: Tables, refcnt1: map<nat, nat>, users1: map<nat, set<Spot>>)
    requires UsersOk(flat, users0) && UsersOk(flat, users1)
    requires CountOk(t0.Keys, refcnt0, users0, held) && CountOk(t1.Keys, refcnt1, users1, held)
    ensures SameCounts(t0, refcnt0, t1, refcnt1)
    ensures t0.Keys == t1.Keys ==> refcnt0 == refcnt1
  {
    forall p: nat ensures p in refcnt0 <==> p in refcnt1 {
      assert CountAt(t0.Keys, refcnt0, users0, held, p) && CountAt(t1.Keys, refcnt1, users1, held, p);
    }
    forall p <- refcnt0 | p in t0 <==> p in t1 ensures refcnt0[p] == refcnt1[p] {
      CountsDetermined(flat, held, t0.Keys, refcnt0, users0, t1.Keys, refcnt1, users1, p);
    }
  }
}
