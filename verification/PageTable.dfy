/** Sv39 page tables (section 4.4 of the RISC-V Privileged Architecture): 512-entry table
    pages in three levels, addressed by virtual page number. `Flat` is the map from virtual
    page numbers to PTEs that a tree stands for. */
module PageTable {

  const ENTRIES: nat := 512
  const MAXVPN: nat := 0x400_0000           // MAXVA / PGSIZE
  const TRAMPOLINE: nat := MAXVPN - 1
  const TRAPFRAME: nat := MAXVPN - 2

  /** The permission bits of a PTE. */
  datatype Perm = Perm(r: bool, w: bool, x: bool, u: bool)

  /** A page-table entry: physical page number, valid bit, permissions. */
  datatype Pte = Pte(ppn: nat, v: bool, perm: Perm) {
    /** Any of R, W, X: the entry maps a page rather than pointing to a table. */
    predicate Leaf() { perm.r || perm.w || perm.x }
  }

  const NO_PERM := Perm(false, false, false, false)
  const NULL_PTE := Pte(0, false, NO_PERM)

  function Bit(b: bool, value: nat): nat { if b then value else 0 }

  /** PA2PTE(pa) | flags as the 64-bit word of the hardware. */
  function Encode(p: Pte): nat {
    p.ppn * 1024 + FlagBits(p.v, p.perm)
  }

  /** PTE2PA and the flag tests of the code. */
  function Decode(w: nat): Pte {
    var f := w % 1024;
    Pte(w / 1024, f % 2 == 1, Perm(f / 2 % 2 == 1, f / 4 % 2 == 1, f / 8 % 2 == 1, f / 16 % 2 == 1))
  }

  function FlagBits(v: bool, p: Perm): nat { Bit(v, 1) + Bit(p.r, 2) + Bit(p.w, 4) + Bit(p.x, 8) + Bit(p.u, 16) }

  lemma FlagsApart(v: bool, p: Perm)
    ensures var f := FlagBits(v, p);
            f < 32 && (f % 2 == 1 <==> v) && (f / 2 % 2 == 1 <==> p.r) && (f / 4 % 2 == 1 <==> p.w)
            && (f / 8 % 2 == 1 <==> p.x) && (f / 16 % 2 == 1 <==> p.u)
  {
  }

  lemma PteRoundTrip(p: Pte)
    ensures Decode(Encode(p)) == p
  {
    FlagsApart(p.v, p.perm);
    var f := FlagBits(p.v, p.perm);
    assert (p.ppn * 1024 + f) / 1024 == p.ppn && (p.ppn * 1024 + f) % 1024 == f;
  }

  type Page = s: seq<Pte> | |s| == ENTRIES witness seq(ENTRIES, i => NULL_PTE)

  datatype Option<+T> = None | Some(value: T)

  /** PX(level, va) for va = vpn * PGSIZE. */
  function Px(level: nat, vpn: nat): (i: nat)
    requires level <= 2
    ensures i < ENTRIES
  {
    (if level == 0 then vpn else if level == 1 then vpn / 512 else vpn / 262144) % 512
  }

  /** The macro's shift by 12 + 9 * level bits is the page number's shift by 9 * level. */
  lemma PxOfAddress(va: nat)
    ensures (va / 0x1000) % 512 == Px(0, va / 0x1000)
    ensures (va / 0x20_0000) % 512 == Px(1, va / 0x1000)
    ensures (va / 0x4000_0000) % 512 == Px(2, va / 0x1000)
  {
    var p, r := va / 0x1000, va % 0x1000;
    assert va == 0x1000 * p + r;
    assert va / 0x20_0000 == p / 512 by { assert va == 0x20_0000 * (p / 512) + (0x1000 * (p % 512) + r); }
    assert va / 0x4000_0000 == p / 262144 by { assert va == 0x4000_0000 * (p / 262144) + (0x1000 * (p % 262144) + r); }
  }

  lemma PxSplit(v: nat)
    requires v < MAXVPN
    ensures v == Px(2, v) * 262144 + Px(1, v) * 512 + Px(0, v)
  {
    assert v == v / 512 * 512 + v % 512;
    assert v / 512 == v / 512 / 512 * 512 + v / 512 % 512;
    assert v / 512 / 512 == v / 262144 && v / 262144 < 256;
  }

  /** Distinct pages below MAXVA differ in some index. */
  lemma PxInjective(v: nat, w: nat)
    requires v < MAXVPN && w < MAXVPN
    requires Px(0, v) == Px(0, w) && Px(1, v) == Px(1, w) && Px(2, v) == Px(2, w)
    ensures v == w
  {
    PxSplit(v);
    PxSplit(w);
  }

  type Tables = map<nat, Page>

  /** How the table pages hang together: level of each, and the parent slot of each non-root. */
  datatype Shape = Shape(level: map<nat, nat>, owner: map<nat, (nat, nat)>, roots: set<nat>)

  function Level(sh: Shape, t: nat): nat { if t in sh.level then sh.level[t] else 3 }

  ghost predicate EntryOk(tables: Tables, sh: Shape, t: nat, i: nat, pte: Pte) {
    pte.v ==>
      if Level(sh, t) == 0 then pte.Leaf() else
        var c := pte.ppn;
        && pte.perm == NO_PERM && c in tables && Level(sh, c) == Level(sh, t) - 1
        && c in sh.owner && sh.owner[c] == (t, i) && c !in sh.roots
  }

  ghost predicate PageOk(tables: Tables, sh: Shape, t: nat)
    requires t in tables
  {
    && Level(sh, t) <= 2
    && (t in sh.roots <==> Level(sh, t) == 2)
    && (t in sh.roots ==> forall i | 256 <= i < ENTRIES :: !tables[t][i].v)
    && (t !in sh.roots ==> t in sh.owner && OwnedBy(tables, sh, t, sh.owner[t].0, sh.owner[t].1))
    && forall i {:trigger EntryOk(tables, sh, t, i, tables[t][i])} | 0 <= i < ENTRIES ::
         EntryOk(tables, sh, t, i, tables[t][i])
  }

  /** Entry i of p points to t. */
  ghost predicate OwnedBy(tables: Tables, sh: Shape, t: nat, p: nat, i: nat) {
    && p in tables && i < ENTRIES && Level(sh, p) == Level(sh, t) + 1
    && tables[p][i].v && tables[p][i].ppn == t
  }

  /** Every table page is a root or hangs from exactly one slot, one level up. */
  ghost predicate TreeOk(tables: Tables, sh: Shape) {
    && (forall t {:trigger PageOk(tables, sh, t)} | t in tables :: PageOk(tables, sh, t))
    && forall r <- sh.roots :: r in tables
  }

  function Child(tables: Tables, t: nat, i: nat): Option<nat>
    requires t in tables && i < ENTRIES
  {
    if tables[t][i].v then Some(tables[t][i].ppn) else None
  }

  /** The level-0 table that covers vpn, if the walk gets that far. */
  function LeafTable(tables: Tables, root: nat, vpn: nat): Option<nat> {
    if root !in tables then None else
    match Child(tables, root, Px(2, vpn))
    case None => None
    case Some(t) => if t !in tables then None else Child(tables, t, Px(1, vpn))
  }

  function Flat(tables: Tables, root: nat, vpn: nat): Pte {
    match LeafTable(tables, root, vpn)
    case None => NULL_PTE
    case Some(t) => if t in tables && tables[t][Px(0, vpn)].v then tables[t][Px(0, vpn)] else NULL_PTE
  }

  lemma LeafVia(tables: Tables, root: nat, vpn: nat, t1: nat)
    requires root in tables && Child(tables, root, Px(2, vpn)) == Some(t1) && t1 in tables
    ensures LeafTable(tables, root, vpn) == Child(tables, t1, Px(1, vpn))
    ensures Child(tables, t1, Px(1, vpn)).None? ==> Flat(tables, root, vpn) == NULL_PTE
  {
  }

  /** A covered page's slot: its table has level 0 and its owner chain spells out root and vpn. */
  lemma LeafOwners(tables: Tables, sh: Shape, root: nat, vpn: nat)
    requires TreeOk(tables, sh) && root in sh.roots && LeafTable(tables, root, vpn).Some?
    ensures var t := LeafTable(tables, root, vpn).value;
            && t in tables && Level(sh, t) == 0 && t in sh.owner && sh.owner[t].1 == Px(1, vpn)
            && sh.owner[t].0 in sh.owner && sh.owner[sh.owner[t].0] == (root, Px(2, vpn))
  {
    var t1 := tables[root][Px(2, vpn)].ppn;
    assert PageOk(tables, sh, root);
    assert EntryOk(tables, sh, root, Px(2, vpn), tables[root][Px(2, vpn)]);
    assert PageOk(tables, sh, t1);
    assert EntryOk(tables, sh, t1, Px(1, vpn), tables[t1][Px(1, vpn)]);
  }

  /** No two pages of any address spaces share a slot. */
  lemma SlotsDistinct(tables: Tables, sh: Shape, r: nat, v: nat, s: nat, w: nat)
    requires TreeOk(tables, sh) && r in sh.roots && s in sh.roots && v < MAXVPN && w < MAXVPN
    requires LeafTable(tables, r, v).Some? && LeafTable(tables, s, w) == LeafTable(tables, r, v) && Px(0, v) == Px(0, w)
    ensures r == s && v == w
  {
    LeafOwners(tables, sh, r, v);
    LeafOwners(tables, sh, s, w);
    PxInjective(v, w);
  }

  // ---------- Writing a leaf entry ----------

  lemma SetLeafOk(tables: Tables, sh: Shape, t: nat, i: nat, pte: Pte)
    requires TreeOk(tables, sh) && t in tables && i < ENTRIES && Level(sh, t) == 0
    requires pte.v ==> pte.Leaf()
    ensures TreeOk(tables[t := tables[t][i := pte]], sh)
  {
    var after := tables[t := tables[t][i := pte]];
    forall p <- after ensures PageOk(after, sh, p) {
      assert PageOk(tables, sh, p);
      forall j | 0 <= j < ENTRIES ensures EntryOk(after, sh, p, j, after[p][j]) {
        assert EntryOk(tables, sh, p, j, tables[p][j]);
      }
    }
  }

  /** Writing the slot of (root, vpn) changes the flat map there and nowhere else. */
  lemma SetLeafFlat(tables: Tables, sh: Shape, root: nat, vpn: nat, pte: Pte, s: nat, w: nat)
    requires TreeOk(tables, sh) && root in sh.roots && s in sh.roots && vpn < MAXVPN && w < MAXVPN
    requires LeafTable(tables, root, vpn).Some?
    ensures var t := LeafTable(tables, root, vpn).value;
            && t in tables
            && var after := tables[t := tables[t][Px(0, vpn) := pte]];
            && LeafTable(after, s, w) == LeafTable(tables, s, w)
            && Flat(after, s, w) == if (s, w) == (root, vpn) then (if pte.v then pte else NULL_PTE)
               else Flat(tables, s, w)
  {
    var t := LeafTable(tables, root, vpn).value;
    LeafOwners(tables, sh, root, vpn);
    var after := tables[t := tables[t][Px(0, vpn) := pte]];
    UpperUnchanged(tables, sh, after, t, s, w);
    if LeafTable(tables, s, w) == Some(t) && Px(0, w) == Px(0, vpn) {
      SlotsDistinct(tables, sh, root, vpn, s, w);
    }
  }

  lemma UpperUnchanged(tables: Tables, sh: Shape, after: Tables, t: nat, s: nat, w: nat)
    requires TreeOk(tables, sh) && s in sh.roots && t in tables && Level(sh, t) == 0
    requires after.Keys == tables.Keys && forall p <- tables | p != t :: after[p] == tables[p]
    ensures LeafTable(after, s, w) == LeafTable(tables, s, w)
  {
    assert PageOk(tables, sh, s);
    assert EntryOk(tables, sh, s, Px(2, w), tables[s][Px(2, w)]);
  }

  // ---------- Adding table pages ----------

  /** memset(p, 0, PGSIZE) */
  function ZeroPage(): (p: Page)
    ensures forall i | 0 <= i < ENTRIES :: p[i] == NULL_PTE
  {
    seq(ENTRIES, i => NULL_PTE)
  }

  function WithChild(tables: Tables, t: nat, i: nat, c: nat): Tables
    requires t in tables && i < ENTRIES
  {
    tables[c := ZeroPage()][t := tables[t][i := Pte(c, true, NO_PERM)]]
  }

  function ChildShape(sh: Shape, t: nat, i: nat, c: nat): Shape
    requires Level(sh, t) > 0
  {
    Shape(sh.level[c := Level(sh, t) - 1], sh.owner[c := (t, i)], sh.roots)
  }

  /** walk with alloc: a fresh zeroed page below an invalid entry. */
  lemma AddTableOk(tables: Tables, sh: Shape, t: nat, i: nat, c: nat)
    requires TreeOk(tables, sh) && t in tables && i < ENTRIES && Level(sh, t) > 0 && c !in tables
    requires !tables[t][i].v && (Level(sh, t) == 2 ==> i < 256)
    ensures TreeOk(WithChild(tables, t, i, c), ChildShape(sh, t, i, c))
    ensures Child(WithChild(tables, t, i, c), t, i) == Some(c)
  {
    var after, sh' := WithChild(tables, t, i, c), ChildShape(sh, t, i, c);
    assert PageOk(tables, sh, t);
    forall p <- after ensures PageOk(after, sh', p) {
      if p != c { assert PageOk(tables, sh, p); }
      forall j | 0 <= j < ENTRIES ensures EntryOk(after, sh', p, j, after[p][j]) {
        if p != c { assert EntryOk(tables, sh, p, j, tables[p][j]); }
      }
    }
  }

  /** The new empty table changes no address space. */
  lemma AddTableFlat(tables: Tables, sh: Shape, t: nat, i: nat, c: nat, s: nat, w: nat)
    requires TreeOk(tables, sh) && t in tables && i < ENTRIES && Level(sh, t) > 0 && c !in tables
    requires !tables[t][i].v && s in sh.roots
    ensures Flat(WithChild(tables, t, i, c), s, w) == Flat(tables, s, w)
  {
    assert PageOk(tables, sh, s);
    assert EntryOk(tables, sh, s, Px(2, w), tables[s][Px(2, w)]);
    if Child(tables, s, Px(2, w)).Some? {
      var t1 := tables[s][Px(2, w)].ppn;
      assert PageOk(tables, sh, t1);
      assert EntryOk(tables, sh, t1, Px(1, w), tables[t1][Px(1, w)]);
    }
  }

  function RootShape(sh: Shape, c: nat): Shape {
    sh.(level := sh.level[c := 2], roots := sh.roots + {c})
  }

  function WithRoot(tables: Tables, c: nat): Tables { tables[c := ZeroPage()] }

  /** uvmcreate: an empty address space beside the others. */
  lemma AddRootOk(tables: Tables, sh: Shape, c: nat)
    requires TreeOk(tables, sh) && c !in tables
    ensures TreeOk(WithRoot(tables, c), RootShape(sh, c))
  {
    var after, sh' := WithRoot(tables, c), RootShape(sh, c);
    forall p <- after ensures PageOk(after, sh', p) {
      if p != c {
        assert PageOk(tables, sh, p);
        forall j | 0 <= j < ENTRIES ensures EntryOk(after, sh', p, j, after[p][j]) {
          assert EntryOk(tables, sh, p, j, tables[p][j]);
        }
      }
    }
  }

  lemma AddRootFlat(tables: Tables, sh: Shape, c: nat, s: nat, w: nat)
    requires TreeOk(tables, sh) && c !in tables
    ensures Flat(WithRoot(tables, c), c, w) == NULL_PTE
    ensures s in sh.roots ==> Flat(WithRoot(tables, c), s, w) == Flat(tables, s, w)
  {
    if s in sh.roots {
      assert PageOk(tables, sh, s);
      assert EntryOk(tables, sh, s, Px(2, w), tables[s][Px(2, w)]);
      if Child(tables, s, Px(2, w)).Some? {
        var t1 := tables[s][Px(2, w)].ppn;
        assert PageOk(tables, sh, t1);
        assert EntryOk(tables, sh, t1, Px(1, w), tables[t1][Px(1, w)]);
      }
    }
  }

  // ---------- Removing a whole tree ----------

  /** Table page p hangs below t, directly or through one more table. */
  ghost predicate Below(sh: Shape, t: nat, p: nat) {
    && p !in sh.roots && p in sh.owner
    && (sh.owner[p].0 == t
        || (sh.owner[p].0 !in sh.roots && sh.owner[p].0 in sh.owner && sh.owner[sh.owner[p].0].0 == t))
  }

  /** The index of t's entry through which p hangs. */
  ghost function Branch(sh: Shape, t: nat, p: nat): nat
    requires Below(sh, t, p)
  {
    if sh.owner[p].0 == t then sh.owner[p].1 else sh.owner[sh.owner[p].0].1
  }

  ghost predicate Under(sh: Shape, t: nat, p: nat) { p == t || Below(sh, t, p) }

  /** The pages hanging through entry i of t are those under the child that entry points to. */
  lemma BranchIs(tables: Tables, sh: Shape, t: nat, i: nat, p: nat)
    requires TreeOk(tables, sh) && t in tables && p in tables && Level(sh, t) > 0 && i < ENTRIES
    ensures Below(sh, t, p) && Branch(sh, t, p) == i <==>
              tables[t][i].v && Under(sh, tables[t][i].ppn, p)
  {
    assert PageOk(tables, sh, t) && PageOk(tables, sh, p);
    assert EntryOk(tables, sh, t, i, tables[t][i]);
    if p !in sh.roots {
      var q := sh.owner[p].0;
      assert PageOk(tables, sh, q);
      if q !in sh.roots { assert PageOk(tables, sh, sh.owner[q].0); }
    }
  }

  /** Of the tree t0, the pages hanging through entries of t below i. */
  ghost predicate Gone(t0: Tables, sh: Shape, t: nat, i: nat, p: nat) {
    p in t0 && Below(sh, t, p) && Branch(sh, t, p) < i
  }

  ghost predicate InTree(t0: Tables, sh: Shape, t: nat, p: nat) { p in t0 && Under(sh, t, p) }

  lemma AllGone(t0: Tables, sh: Shape, t: nat, p: nat)
    requires TreeOk(t0, sh) && t in t0
    ensures InTree(t0, sh, t, p) <==> p == t || Gone(t0, sh, t, ENTRIES, p)
  {
    if p in t0 && Below(sh, t, p) {
      assert PageOk(t0, sh, p);
      var q := sh.owner[p].0;
      assert PageOk(t0, sh, q);
    }
  }

  /** One more entry: what hangs through it is the tree of its child. */
  lemma GoneNext(t0: Tables, sh: Shape, t: nat, i: nat, p: nat)
    requires TreeOk(t0, sh) && t in t0 && i < ENTRIES && Level(sh, t) > 0
    ensures Gone(t0, sh, t, i + 1, p) <==> Gone(t0, sh, t, i, p) || (t0[t][i].v && InTree(t0, sh, t0[t][i].ppn, p))
  {
    if p in t0 { BranchIs(t0, sh, t, i, p); }
  }

  /** A level-0 table has nothing below it. */
  lemma LeafHasNone(t0: Tables, sh: Shape, t: nat, p: nat)
    requires TreeOk(t0, sh) && t in t0 && Level(sh, t) == 0
    ensures InTree(t0, sh, t, p) <==> p == t
  {
    if p in t0 && p !in sh.roots {
      assert PageOk(t0, sh, p);
      assert PageOk(t0, sh, sh.owner[p].0);
    }
  }

  lemma ChildInTree(t0: Tables, sh: Shape, t: nat, i: nat)
    requires TreeOk(t0, sh) && t in t0 && i < ENTRIES && Level(sh, t) > 0 && t0[t][i].v
    ensures t0[t][i].ppn in t0 && Level(sh, t0[t][i].ppn) == Level(sh, t) - 1 && !t0[t][i].Leaf()
    ensures t0[t][i].ppn != t
    ensures forall p | InTree(t0, sh, t0[t][i].ppn, p) :: InTree(t0, sh, t, p) && !Gone(t0, sh, t, i, p) && p != t
  {
    assert PageOk(t0, sh, t) && EntryOk(t0, sh, t, i, t0[t][i]);
    forall p | InTree(t0, sh, t0[t][i].ppn, p) ensures InTree(t0, sh, t, p) && !Gone(t0, sh, t, i, p) && p != t {
      BranchIs(t0, sh, t, i, p);
      NotBelowItself(t0, sh, t);
    }
  }

  lemma NotBelowItself(t0: Tables, sh: Shape, t: nat)
    requires TreeOk(t0, sh) && t in t0
    ensures !Below(sh, t, t)
  {
    assert PageOk(t0, sh, t);
    if t !in sh.roots {
      assert PageOk(t0, sh, sh.owner[t].0);
    }
  }

  ghost predicate Without(tables: Tables, sh: Shape, root: nat, after: Tables) {
    && (forall p :: p in after <==> p in tables && !InTree(tables, sh, root, p))
    && forall p <- after :: after[p] == tables[p]
  }

  // ---------- What happens to the other trees ----------

  /** Outside the tree of root the table pages are the same before and after. */
  ghost predicate Elsewhere(t0: Tables, sh0: Shape, t1: Tables, sh1: Shape, root: nat) {
    forall p: nat {:trigger SameOutside(t0, sh0, t1, sh1, root, p)} :: SameOutside(t0, sh0, t1, sh1, root, p)
  }

  ghost predicate SameOutside(t0: Tables, sh0: Shape, t1: Tables, sh1: Shape, root: nat, p: nat) {
    && (p in t0 && !InTree(t0, sh0, root, p) <==> p in t1 && !InTree(t1, sh1, root, p))
    && (p in t0 && !InTree(t0, sh0, root, p) ==> t1[p] == t0[p])
  }

  lemma ElsewhereThen(t0: Tables, sh0: Shape, t1: Tables, sh1: Shape, t2: Tables, sh2: Shape, root: nat)
    requires Elsewhere(t0, sh0, t1, sh1, root) && Elsewhere(t1, sh1, t2, sh2, root)
    ensures Elsewhere(t0, sh0, t2, sh2, root)
  {
    forall p: nat ensures SameOutside(t0, sh0, t2, sh2, root, p) {
      assert SameOutside(t0, sh0, t1, sh1, root, p) && SameOutside(t1, sh1, t2, sh2, root, p);
    }
  }

  lemma ChildElsewhere(tables: Tables, sh: Shape, t: nat, i: nat, c: nat, root: nat)
    requires TreeOk(tables, sh) && InTree(tables, sh, root, t) && i < ENTRIES && Level(sh, t) > 0 && c !in tables
    ensures Elsewhere(tables, sh, WithChild(tables, t, i, c), ChildShape(sh, t, i, c), root)
    ensures InTree(WithChild(tables, t, i, c), ChildShape(sh, t, i, c), root, c)
  {
    var after, sh' := WithChild(tables, t, i, c), ChildShape(sh, t, i, c);
    assert PageOk(tables, sh, t);
    if t !in sh.roots { assert PageOk(tables, sh, sh.owner[t].0); }
    forall p: nat ensures SameOutside(tables, sh, after, sh', root, p) {
      if p in tables { UnderKept(tables, sh, t, i, c, root, p); }
    }
  }

  /** Following an entry stays in the tree. */
  lemma InSubtree(tables: Tables, sh: Shape, root: nat, t: nat, i: nat)
    requires TreeOk(tables, sh) && InTree(tables, sh, root, t) && i < ENTRIES && Level(sh, t) > 0 && tables[t][i].v
    ensures InTree(tables, sh, root, tables[t][i].ppn)
  {
    assert PageOk(tables, sh, t) && EntryOk(tables, sh, t, i, tables[t][i]);
    if t !in sh.roots { assert PageOk(tables, sh, sh.owner[t].0); }
  }

  lemma UnderKept(tables: Tables, sh: Shape, t: nat, i: nat, c: nat, root: nat, p: nat)
    requires TreeOk(tables, sh) && t in tables && i < ENTRIES && Level(sh, t) > 0 && c !in tables && p in tables
    ensures Under(ChildShape(sh, t, i, c), root, p) <==> Under(sh, root, p)
  {
    assert PageOk(tables, sh, p);
    if p !in sh.roots { assert PageOk(tables, sh, sh.owner[p].0); }
  }

  lemma LeafElsewhere(tables: Tables, sh: Shape, t: nat, page: Page, root: nat)
    requires InTree(tables, sh, root, t)
    ensures Elsewhere(tables, sh, tables[t := page], sh, root)
  {
    var after := tables[t := page];
    forall p: nat ensures SameOutside(tables, sh, after, sh, root, p) {}
  }

  lemma LeafInTree(tables: Tables, sh: Shape, root: nat, vpn: nat)
    requires TreeOk(tables, sh) && root in sh.roots && LeafTable(tables, root, vpn).Some?
    ensures InTree(tables, sh, root, LeafTable(tables, root, vpn).value)
  {
    LeafOwners(tables, sh, root, vpn);
    var t := LeafTable(tables, root, vpn).value;
    assert PageOk(tables, sh, t) && PageOk(tables, sh, sh.owner[t].0);
  }

  lemma RootElsewhere(tables: Tables, sh: Shape, c: nat)
    requires TreeOk(tables, sh) && c !in tables
    ensures Without(WithRoot(tables, c), RootShape(sh, c), c, tables)
  {
    forall p: nat | p in tables ensures !Under(RootShape(sh, c), c, p) {
      assert PageOk(tables, sh, p);
      if p !in sh.roots { assert PageOk(tables, sh, sh.owner[p].0); }
    }
  }

  /** Changes inside the tree of root do not matter once it goes, nor for what was there before it came. */
  lemma WithoutThen(t0: Tables, sh0: Shape, t1: Tables, sh1: Shape, root: nat, rest: Tables)
    requires Elsewhere(t0, sh0, t1, sh1, root)
    ensures Without(t0, sh0, root, rest) <==> Without(t1, sh1, root, rest)
  {
    forall p
      ensures p in t0 && !InTree(t0, sh0, root, p) <==> p in t1 && !InTree(t1, sh1, root, p)
      ensures p in t0 && !InTree(t0, sh0, root, p) ==> t1[p] == t0[p]
    {
      assert SameOutside(t0, sh0, t1, sh1, root, p);
    }
  }

  lemma WithoutUnique(tables: Tables, sh: Shape, root: nat, a: Tables, b: Tables)
    requires Without(tables, sh, root, a) && Without(tables, sh, root, b)
    ensures a == b
  {
  }

  /** A page outside the tree of root has its parent and its children outside too. */
  lemma OutsideStays(tables: Tables, sh: Shape, root: nat, p: nat, i: nat)
    requires TreeOk(tables, sh) && root in sh.roots && p in tables && !InTree(tables, sh, root, p)
    ensures p !in sh.roots ==> p in sh.owner && sh.owner[p].0 in tables && !InTree(tables, sh, root, sh.owner[p].0)
    ensures i < ENTRIES && tables[p][i].v && Level(sh, p) > 0 ==>
              tables[p][i].ppn in tables && !InTree(tables, sh, root, tables[p][i].ppn)
  {
    assert PageOk(tables, sh, p);
    if p !in sh.roots {
      var q := sh.owner[p].0;
      assert PageOk(tables, sh, q);
      if q !in sh.roots { assert PageOk(tables, sh, sh.owner[q].0); }
    }
    if i < ENTRIES && tables[p][i].v && Level(sh, p) > 0 { assert EntryOk(tables, sh, p, i, tables[p][i]); }
  }

  lemma PruneOk(tables: Tables, sh: Shape, root: nat, after: Tables)
    requires TreeOk(tables, sh) && root in sh.roots && Without(tables, sh, root, after)
    ensures TreeOk(after, sh.(roots := sh.roots - {root}))
  {
    var sh' := sh.(roots := sh.roots - {root});
    forall p <- after ensures PageOk(after, sh', p) {
      assert PageOk(tables, sh, p);
      OutsideStays(tables, sh, root, p, 0);
      forall i | 0 <= i < ENTRIES ensures EntryOk(after, sh', p, i, after[p][i]) {
        assert EntryOk(tables, sh, p, i, tables[p][i]);
        OutsideStays(tables, sh, root, p, i);
      }
    }
    forall r <- sh'.roots ensures r in after { assert PageOk(tables, sh, r); }
  }

  lemma PruneFlat(tables: Tables, sh: Shape, root: nat, after: Tables, s: nat, w: nat)
    requires TreeOk(tables, sh) && root in sh.roots && Without(tables, sh, root, after) && s in sh.roots && s != root
    ensures Flat(after, s, w) == Flat(tables, s, w)
  {
    assert PageOk(tables, sh, s);
    OutsideStays(tables, sh, root, s, Px(2, w));
    if tables[s][Px(2, w)].v {
      var t1 := tables[s][Px(2, w)].ppn;
      assert EntryOk(tables, sh, s, Px(2, w), tables[s][Px(2, w)]);
      OutsideStays(tables, sh, root, t1, Px(1, w));
    }
  }

  /** Every level-0 entry of a tree is the slot of some virtual page below MAXVA. */
  lemma SlotHasPage(tables: Tables, sh: Shape, root: nat, p: nat, i: nat)
    requires TreeOk(tables, sh) && root in sh.roots && InTree(tables, sh, root, p) && Level(sh, p) == 0 && i < ENTRIES
    ensures exists w: nat | w < MAXVPN :: LeafTable(tables, root, w) == Some(p) && Px(0, w) == i
  {
    assert PageOk(tables, sh, root) && PageOk(tables, sh, p);
    var t1 := sh.owner[p].0;
    assert PageOk(tables, sh, t1);
    var i1, i2 := sh.owner[p].1, sh.owner[t1].1;
    var w := PageAt(i2, i1, i);
    LeafVia(tables, root, w, t1);
  }

  /** The page number whose three indices are given. */
  ghost function PageAt(i2: nat, i1: nat, i0: nat): (w: nat)
    requires i2 < 256 && i1 < ENTRIES && i0 < ENTRIES
    ensures w < MAXVPN && Px(2, w) == i2 && Px(1, w) == i1 && Px(0, w) == i0
  {
    i2 * 262144 + i1 * 512 + i0
  }
}
