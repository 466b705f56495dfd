/** Inode contents and block allocation of kernel/fs.c. Block contents are bytes; the bitmap is
    a sequence of bits, and indirect blocks are read as little-endian 32-bit words. */
module Fs {
  const BSIZE: nat := 1024
  const NDIRECT: nat := 12
  const NINDIRECT: nat := 256
  const MAXFILE: nat := 268                  // NDIRECT + NINDIRECT
  const NSLOTS: nat := 269                   // direct, the indirect block itself, its words
  const BPB: nat := 8192
  const IPB: nat := 16
  const MAXBLOCKS: nat := 0x1_0000_0000

  type Block = s: seq<nat> | |s| == 1024 witness seq(1024, i => 0)

  function Zero(): Block { seq(1024, i => 0) }

  // ---------- Indirect blocks as words ----------

  function Word(b: Block, j: nat): nat
    requires j < NINDIRECT
  {
    b[4 * j] + 256 * b[4 * j + 1] + 65536 * b[4 * j + 2] + 16777216 * b[4 * j + 3]
  }

  function SetWord(b: Block, j: nat, x: nat): Block
    requires j < NINDIRECT
  {
    b[4 * j := x % 256][4 * j + 1 := x / 256 % 256][4 * j + 2 := x / 65536 % 256][4 * j + 3 := x / 16777216]
  }

  lemma WordOfBytes(x: nat)
    ensures x % 256 + 256 * (x / 256 % 256) + 65536 * (x / 65536 % 256) + 16777216 * (x / 16777216) == x
  {
    assert x / 65536 == x / 256 / 256 && x / 16777216 == x / 65536 / 256;
  }

  lemma WordSet(b: Block, j: nat, x: nat, k: nat)
    requires j < NINDIRECT && k < NINDIRECT
    ensures Word(SetWord(b, j, x), k) == if k == j then x else Word(b, k)
  {
    WordOfBytes(x);
  }

  // ---------- Inodes and their slots ----------

  datatype Inode = Inode(size: nat, addrs: seq<nat>)

  type Inodes = map<nat, Inode>
  type Blocks = map<nat, Block>
  type Slot = (nat, nat)                     // inode number and slot number

  function At(blocks: Blocks, b: nat): Block { if b in blocks then blocks[b] else Zero() }

  function Direct(inodes: Inodes, i: nat, k: nat): nat {
    if i in inodes && k < |inodes[i].addrs| then inodes[i].addrs[k] else 0
  }

  function Indirect(inodes: Inodes, i: nat): set<nat> {
    if Direct(inodes, i, NDIRECT) == 0 then {} else {Direct(inodes, i, NDIRECT)}
  }

  /** The block in slot k of inode i, 0 for none: slots 0..11 direct, 12 the indirect block, 13.. its words. */
  function SlotAddr(inodes: Inodes, blocks: Blocks, i: nat, k: nat): nat {
    if k <= NDIRECT then Direct(inodes, i, k)
    else if Direct(inodes, i, NDIRECT) == 0 || k >= NSLOTS then 0
    else Word(At(blocks, Direct(inodes, i, NDIRECT)), k - 13)
  }

  /** The disk block of file block n. */
  function Addr(inodes: Inodes, blocks: Blocks, i: nat, n: nat): nat {
    SlotAddr(inodes, blocks, i, if n < NDIRECT then n else n + 1)
  }

  // ---------- Ownership ----------

  ghost predicate SlotOk(inodes: Inodes, blocks: Blocks, owner: map<nat, Slot>, i: nat, k: nat) {
    var a := SlotAddr(inodes, blocks, i, k);
    a != 0 ==> a in owner && owner[a] == (i, k)
  }

  ghost predicate OwnerOk(inodes: Inodes, blocks: Blocks, owner: map<nat, Slot>, lo: nat, hi: nat, b: nat) {
    b in owner ==> 0 < lo <= b < hi && owner[b].1 < NSLOTS && SlotAddr(inodes, blocks, owner[b].0, owner[b].1) == b
  }

  /** Each block in use belongs to exactly one slot of exactly one inode. */
  ghost predicate Owned(inodes: Inodes, blocks: Blocks, owner: map<nat, Slot>, lo: nat, hi: nat) {
    && (forall i: nat, k: nat {:trigger SlotOk(inodes, blocks, owner, i, k)} :: SlotOk(inodes, blocks, owner, i, k))
    && (forall b: nat {:trigger OwnerOk(inodes, blocks, owner, lo, hi, b)} :: OwnerOk(inodes, blocks, owner, lo, hi, b))
  }

  /** A bit is set exactly for metadata and for owned blocks. */
  ghost predicate UsedOk(used: seq<bool>, owner: map<nat, Slot>, lo: nat) {
    forall b | 0 <= b < |used| :: used[b] <==> b < lo || b in owner
  }

  ghost predicate Mapped(inodes: Inodes, blocks: Blocks, i: nat, n: nat) {
    i in inodes && n * 1024 < inodes[i].size ==> Addr(inodes, blocks, i, n) != 0
  }

  /** Every file block below the size is mapped. */
  ghost predicate NoHoles(inodes: Inodes, blocks: Blocks) {
    && (forall i <- inodes :: |inodes[i].addrs| == 13 && inodes[i].size <= MAXFILE * BSIZE)
    && (forall i: nat, n: nat {:trigger Mapped(inodes, blocks, i, n)} :: Mapped(inodes, blocks, i, n))
  }

  /** Only slot (i, k) changes, from empty to r. */
  ghost predicate OneSlot(inodes: Inodes, blocks: Blocks, inodes': Inodes, blocks': Blocks, i: nat, k: nat, r: nat) {
    forall j: nat, m: nat {:trigger SlotAddr(inodes', blocks', j, m)} ::
      SlotAddr(inodes', blocks', j, m) == if (j, m) == (i, k) then r else SlotAddr(inodes, blocks, j, m)
  }

  lemma OwnedMore(inodes: Inodes, blocks: Blocks, inodes': Inodes, blocks': Blocks, owner: map<nat, Slot>, lo: nat,
                  hi: nat, i: nat, k: nat, r: nat)
    requires Owned(inodes, blocks, owner, lo, hi) && OneSlot(inodes, blocks, inodes', blocks', i, k, r)
    requires SlotAddr(inodes, blocks, i, k) == 0 && k < NSLOTS && 0 < lo <= r < hi && r !in owner
    ensures Owned(inodes', blocks', owner[r := (i, k)], lo, hi)
  {
    var owner' := owner[r := (i, k)];
    forall j: nat, m: nat ensures SlotOk(inodes', blocks', owner', j, m) { assert SlotOk(inodes, blocks, owner, j, m); }
    forall b: nat ensures OwnerOk(inodes', blocks', owner', lo, hi, b) {
      assert OwnerOk(inodes, blocks, owner, lo, hi, b);
      assert b in owner && owner[b] == (i, k) ==> SlotAddr(inodes, blocks, i, k) == b;
    }
  }

  function PutDirect(inodes: Inodes, i: nat, k: nat, r: nat): Inodes {
    if i in inodes && k < |inodes[i].addrs| then inodes[i := inodes[i].(addrs := inodes[i].addrs[k := r])] else inodes
  }

  /** A zeroed free block put in a direct slot or made the indirect block. */
  lemma DirectSlot(inodes: Inodes, blocks: Blocks, owner: map<nat, Slot>, lo: nat, hi: nat, i: nat, k: nat, r: nat)
    requires Owned(inodes, blocks, owner, lo, hi) && i in inodes && |inodes[i].addrs| == 13 && k <= NDIRECT
    requires SlotAddr(inodes, blocks, i, k) == 0 && r !in owner && r != 0
    ensures OneSlot(inodes, blocks, PutDirect(inodes, i, k, r), blocks[r := Zero()], i, k, r)
  {
    var inodes', blocks' := PutDirect(inodes, i, k, r), blocks[r := Zero()];
    forall j: nat, m: nat
      ensures SlotAddr(inodes', blocks', j, m) == if (j, m) == (i, k) then r else SlotAddr(inodes, blocks, j, m)
    {
      assert SlotOk(inodes, blocks, owner, j, NDIRECT);
    }
  }

  /** A zeroed free block put in word k - 13 of the indirect block. */
  lemma WordSlot(inodes: Inodes, blocks: Blocks, owner: map<nat, Slot>, lo: nat, hi: nat, i: nat, k: nat, r: nat)
    requires Owned(inodes, blocks, owner, lo, hi) && NDIRECT < k < NSLOTS && r !in owner && r != 0
    requires SlotAddr(inodes, blocks, i, k) == 0 && Direct(inodes, i, NDIRECT) != 0
    ensures var d := Direct(inodes, i, NDIRECT);
            OneSlot(inodes, blocks, inodes, blocks[r := Zero()][d := SetWord(At(blocks, d), k - 13, r)], i, k, r)
  {
    var d := Direct(inodes, i, NDIRECT);
    var blocks' := blocks[r := Zero()][d := SetWord(At(blocks, d), k - 13, r)];
    forall j: nat, m: nat
      ensures SlotAddr(inodes, blocks', j, m) == if (j, m) == (i, k) then r else SlotAddr(inodes, blocks, j, m)
    {
      assert SlotOk(inodes, blocks, owner, j, NDIRECT) && SlotOk(inodes, blocks, owner, i, NDIRECT);
      if NDIRECT < m < NSLOTS { WordSet(At(blocks, d), k - 13, r, m - 13); }
    }
  }

  /** Writing a data block leaves every slot alone. */
  lemma DataSlots(inodes: Inodes, blocks: Blocks, owner: map<nat, Slot>, lo: nat, hi: nat, b: nat, x: Block)
    requires Owned(inodes, blocks, owner, lo, hi) && (b in owner ==> owner[b].1 != NDIRECT)
    ensures forall j: nat, m: nat {:trigger SlotAddr(inodes, blocks[b := x], j, m)} ::
              SlotAddr(inodes, blocks[b := x], j, m) == SlotAddr(inodes, blocks, j, m)
  {
    var blocks' := blocks[b := x];
    forall j: nat, m: nat ensures SlotAddr(inodes, blocks', j, m) == SlotAddr(inodes, blocks, j, m) {
      assert SlotOk(inodes, blocks, owner, j, NDIRECT);
    }
  }

  // ---------- What an allocation keeps ----------

  /** The contents of file block n; an unmapped block reads as zeros. */
  function FileBlock(inodes: Inodes, blocks: Blocks, i: nat, n: nat): Block {
    var a := Addr(inodes, blocks, i, n);
    if a == 0 then Zero() else At(blocks, a)
  }

  /** File block m of inode j keeps its disk block, if it has one, and its contents. */
  ghost predicate Kept(inodes: Inodes, blocks: Blocks, inodes': Inodes, blocks': Blocks, j: nat, m: nat) {
    && (Addr(inodes, blocks, j, m) != 0 ==> Addr(inodes', blocks', j, m) == Addr(inodes, blocks, j, m))
    && FileBlock(inodes', blocks', j, m) == FileBlock(inodes, blocks, j, m)
  }

  /** Sizes, addresses and contents of all files are kept; blocks may have been allocated. */
  ghost predicate Keeps(inodes: Inodes, blocks: Blocks, inodes': Inodes, blocks': Blocks) {
    && SameSizes(inodes, inodes')
    && (forall j: nat, m: nat {:trigger Kept(inodes, blocks, inodes', blocks', j, m)} ::
        Kept(inodes, blocks, inodes', blocks', j, m))
  }

  ghost predicate SameSizes(inodes: Inodes, inodes': Inodes) {
    inodes'.Keys == inodes.Keys
      && forall j <- inodes :: inodes'[j].size == inodes[j].size && |inodes'[j].addrs| == |inodes[j].addrs|
  }

  lemma KeepsTwice(inodes: Inodes, blocks: Blocks, inodes1: Inodes, blocks1: Blocks, inodes2: Inodes, blocks2: Blocks)
    requires Keeps(inodes, blocks, inodes1, blocks1) && Keeps(inodes1, blocks1, inodes2, blocks2)
    ensures Keeps(inodes, blocks, inodes2, blocks2)
  {
    forall j: nat, m: nat ensures Kept(inodes, blocks, inodes2, blocks2, j, m) {
      assert Kept(inodes, blocks, inodes1, blocks1, j, m) && Kept(inodes1, blocks1, inodes2, blocks2, j, m);
    }
  }

  lemma KeepsSlots(inodes: Inodes, blocks: Blocks, inodes': Inodes, blocks': Blocks, owner: map<nat, Slot>, lo: nat,
                   hi: nat, i: nat, k: nat, r: nat)
    requires Owned(inodes, blocks, owner, lo, hi) && OneSlot(inodes, blocks, inodes', blocks', i, k, r)
    requires SlotAddr(inodes, blocks, i, k) == 0
    requires SameSizes(inodes, inodes') && At(blocks', r) == Zero()
    requires forall b <- owner | owner[b].1 != NDIRECT :: At(blocks', b) == At(blocks, b)
    ensures Keeps(inodes, blocks, inodes', blocks')
  {
    forall j: nat, m: nat ensures Kept(inodes, blocks, inodes', blocks', j, m) {
      assert SlotOk(inodes, blocks, owner, j, if m < NDIRECT then m else m + 1);
    }
  }

  lemma KeepsNoHoles(inodes: Inodes, blocks: Blocks, inodes': Inodes, blocks': Blocks)
    requires NoHoles(inodes, blocks) && Keeps(inodes, blocks, inodes', blocks')
    ensures NoHoles(inodes', blocks')
  {
    forall i: nat, n: nat ensures Mapped(inodes', blocks', i, n) {
      assert Mapped(inodes, blocks, i, n) && Kept(inodes, blocks, inodes', blocks', i, n);
    }
  }

  class FileSystem {
    const size: nat                          // sb.size
    const lo: nat                            // the first data block
    const bmapStart: nat
    const inodeStart: nat
    var used: seq<bool>
    var blocks: Blocks
    var inodes: Inodes
    ghost var owner: map<nat, Slot>
    ghost var logged: set<nat>               // blocks passed to log_write since begin_op

    ghost predicate Valid()
      reads this
    {
      && 0 < lo <= size < MAXBLOCKS && |used| == size && Owned(inodes, blocks, owner, lo, size)
      && UsedOk(used, owner, lo)
      && NoHoles(inodes, blocks)
    }

    /** A disk whose data area is free and whose files are empty. */
    constructor (size: nat, lo: nat, bmapStart: nat, inodeStart: nat, files: set<nat>)
      requires 0 < lo <= size < MAXBLOCKS
      ensures Valid() && this.size == size && this.lo == lo && owner == map[] && inodes.Keys == files
      ensures forall i <- files :: Content(inodes, blocks, i) == []
    {
      this.size, this.lo, this.bmapStart, this.inodeStart := size, lo, bmapStart, inodeStart;
      used, blocks, inodes := seq(size, b => b < lo), map[], map i <- files :: Inode(0, seq(13, k => 0));
      owner, logged := map[], {};
    }

    function BBlock(b: nat): nat { b / BPB + bmapStart }

    function IBlock(i: nat): nat { i / IPB + inodeStart }

    /** balloc: the lowest free block, marked and zeroed, or 0. */
    method Balloc() returns (r: nat)
      requires 0 < size && |used| == size && used[0]
      modifies `used, `blocks, `logged
      ensures r == 0 ==> used == old(used) && blocks == old(blocks) && logged == old(logged)
                         && forall b | 0 <= b < size :: used[b]
      ensures r != 0 ==> && r < size && !old(used)[r] && (forall b | 0 <= b < r :: old(used)[b])
                         && used == old(used)[r := true] && blocks == old(blocks)[r := Zero()]
                         && logged == old(logged) + {BBlock(r), r}
    {
      var b := 0;
      while b < size
        invariant forall x | 0 <= x < b && x < size :: used[x]
        invariant used == old(used) && blocks == old(blocks) && logged == old(logged)
      {
        var bi := 0;
        while bi < BPB && b + bi < size
          invariant bi <= BPB && forall x | 0 <= x < b + bi && x < size :: used[x]
        {
          if !used[b + bi] {
            r := b + bi;
            used := used[r := true];
            blocks := blocks[r := Zero()];
            logged := logged + {BBlock(r), r};
            return;
          }
          bi := bi + 1;
        }
        b := b + BPB;
      }
      return 0;
    }

    /** bfree: the requires is the panic "freeing free block". */
    method Bfree(b: nat)
      requires |used| == size && b < size && used[b]
      modifies `used, `logged
      ensures used == old(used)[b := false] && logged == old(logged) + {BBlock(b)}
    {
      used := used[b := false];
      logged := logged + {BBlock(b)};
    }

    /** The allocating branches of bmap for ip->addrs[k], k <= NDIRECT. */
    method AllocDirect(i: nat, k: nat) returns (r: nat)
      requires Valid() && i in inodes && k <= NDIRECT && SlotAddr(inodes, blocks, i, k) == 0
      modifies `used, `blocks, `logged, `inodes, `owner
      ensures Valid() && Keeps(old(inodes), old(blocks), inodes, blocks)
      ensures r == 0 ==> unchanged(this) && forall b | 0 <= b < size :: used[b]
      ensures r != 0 ==> && SlotAddr(inodes, blocks, i, k) == r && At(blocks, r) == Zero() && r !in old(owner)
                         && owner == old(owner)[r := (i, k)] && logged == old(logged) + {BBlock(r), r}
                         && inodes == PutDirect(old(inodes), i, k, r) && blocks == old(blocks)[r := Zero()]
    {
      r := Balloc();
      if r == 0 { return; }
      DirectSlot(inodes, old(blocks), owner, lo, size, i, k, r);
      ghost var inodes' := PutDirect(inodes, i, k, r);
      OwnedMore(inodes, old(blocks), inodes', blocks, owner, lo, size, i, k, r);
      KeepsSlots(inodes, old(blocks), inodes', blocks, owner, lo, size, i, k, r);
      KeepsNoHoles(inodes, old(blocks), inodes', blocks);
      inodes := inodes[i := inodes[i].(addrs := inodes[i].addrs[k := r])];
      owner := owner[r := (i, k)];
    }

    /** The allocating branch of bmap for a word of the indirect block. */
    method AllocWord(i: nat, k: nat) returns (r: nat)
      requires Valid() && i in inodes && NDIRECT < k < NSLOTS && Direct(inodes, i, NDIRECT) != 0
      requires SlotAddr(inodes, blocks, i, k) == 0
      modifies `used, `blocks, `logged, `owner
      ensures Valid() && Keeps(inodes, old(blocks), inodes, blocks)
      ensures r == 0 ==> unchanged(this) && forall b | 0 <= b < size :: used[b]
      ensures r != 0 ==> && SlotAddr(inodes, blocks, i, k) == r && At(blocks, r) == Zero() && r !in old(owner)
                         && owner == old(owner)[r := (i, k)]
                         && logged == old(logged) + {BBlock(r), r, Direct(inodes, i, NDIRECT)}
    {
      r := Balloc();
      if r == 0 { return; }
      var d := inodes[i].addrs[NDIRECT];
      ghost var b0 := old(blocks);
      assert SlotOk(inodes, b0, owner, i, NDIRECT);
      blocks := blocks[d := SetWord(At(blocks, d), k - 13, r)];
      WordSlot(inodes, b0, owner, lo, size, i, k, r);
      OwnedMore(inodes, b0, inodes, blocks, owner, lo, size, i, k, r);
      KeepsSlots(inodes, b0, inodes, blocks, owner, lo, size, i, k, r);
      KeepsNoHoles(inodes, b0, inodes, blocks);
      owner := owner[r := (i, k)];
      logged := logged + {d};
    }

    /** bmap: the block of file block n, allocating it (and the indirect block) if need be; 0 when
        the disk is full. A mapped block costs nothing. `bits` are the bitmap blocks logged. */
    method Bmap(i: nat, n: nat) returns (r: nat, ghost bits: set<nat>)
      requires Valid() && i in inodes && n < MAXFILE
      modifies `used, `blocks, `logged, `inodes, `owner
      ensures Valid() && Keeps(old(inodes), old(blocks), inodes, blocks) && r == Addr(inodes, blocks, i, n)
      ensures Addr(old(inodes), old(blocks), i, n) != 0 ==> unchanged(this) && bits == {}
      ensures Addr(old(inodes), old(blocks), i, n) == 0 && r != 0 ==> At(blocks, r) == Zero()
      ensures r == 0 ==> forall b | 0 <= b < size :: used[b]
      ensures OwnersGrow(old(owner), owner, i, n)
      ensures logged <= old(logged) + bits + (if r != 0 then {r} else {}) + Indirect(inodes, i)
      ensures |bits| <= (if Addr(old(inodes), old(blocks), i, n) == 0 && r != 0 then 1 else 0)
                        + (if Direct(old(inodes), i, NDIRECT) == 0 && Direct(inodes, i, NDIRECT) != 0 then 1 else 0)
      ensures Direct(old(inodes), i, NDIRECT) != 0 ==> Direct(inodes, i, NDIRECT) == Direct(old(inodes), i, NDIRECT)
    {
      bits := {};
      if n < NDIRECT {
        r := inodes[i].addrs[n];
        if r == 0 {
          r := AllocDirect(i, n);
          if r != 0 { bits := {BBlock(r)}; }
        }
        return;
      }
      r, bits := BmapIndirect(i, n);
    }

    /** bmap for a block past the direct ones. */
    method BmapIndirect(i: nat, n: nat) returns (r: nat, ghost bits: set<nat>)
      requires Valid() && i in inodes && NDIRECT <= n < MAXFILE
      modifies `used, `blocks, `logged, `inodes, `owner
      ensures Valid() && Keeps(old(inodes), old(blocks), inodes, blocks) && r == Addr(inodes, blocks, i, n)
      ensures Addr(old(inodes), old(blocks), i, n) != 0 ==> unchanged(this) && bits == {}
      ensures Addr(old(inodes), old(blocks), i, n) == 0 && r != 0 ==> At(blocks, r) == Zero()
      ensures r == 0 ==> forall b | 0 <= b < size :: used[b]
      ensures OwnersGrow(old(owner), owner, i, n)
      ensures logged <= old(logged) + bits + (if r != 0 then {r} else {}) + Indirect(inodes, i)
      ensures |bits| <= (if Addr(old(inodes), old(blocks), i, n) == 0 && r != 0 then 1 else 0)
                        + (if Direct(old(inodes), i, NDIRECT) == 0 && Direct(inodes, i, NDIRECT) != 0 then 1 else 0)
      ensures Direct(old(inodes), i, NDIRECT) != 0 ==> Direct(inodes, i, NDIRECT) == Direct(old(inodes), i, NDIRECT)
    {
      bits := {};
      var d := inodes[i].addrs[NDIRECT];
      if d == 0 {
        d := AllocDirect(i, NDIRECT);
        if d == 0 { return 0, bits; }
        bits := {BBlock(d)};
        assert SlotAddr(inodes, blocks, i, n + 1) == 0;
      }
      r := Word(At(blocks, d), n - NDIRECT);
      if r == 0 {
        ghost var i1, b1 := inodes, blocks;
        r := AllocWord(i, n + 1);
        KeepsTwice(old(inodes), old(blocks), i1, b1, inodes, blocks);
        if r != 0 { bits := bits + {BBlock(r)}; }
      }
    }

    /** The direct loop of itrunc. */
    method TruncDirect(i: nat)
      requires i in inodes && |inodes[i].addrs| == 13 && 0 < lo && |used| == size
      requires Owned(inodes, blocks, owner, lo, size) && UsedOk(used, owner, lo)
      modifies `used, `logged, `inodes, `owner
      ensures |used| == size && Owned(inodes, blocks, owner, lo, size) && UsedOk(used, owner, lo)
      ensures Others(old(owner), owner, i)
      ensures i in inodes && |inodes[i].addrs| == 13 && inodes == old(inodes)[i := inodes[i]]
      ensures inodes[i].size == old(inodes)[i].size
      ensures forall k | 0 <= k < NDIRECT :: inodes[i].addrs[k] == 0
      ensures inodes[i].addrs[NDIRECT] == old(inodes)[i].addrs[NDIRECT]
    {
      for k := 0 to NDIRECT
        invariant |used| == size && Owned(inodes, blocks, owner, lo, size) && UsedOk(used, owner, lo)
        invariant Others(old(owner), owner, i)
        invariant i in inodes && |inodes[i].addrs| == 13 && inodes == old(inodes)[i := inodes[i]]
        invariant inodes[i].size == old(inodes)[i].size
        invariant forall j | 0 <= j < k :: inodes[i].addrs[j] == 0
        invariant inodes[i].addrs[NDIRECT] == old(inodes)[i].addrs[NDIRECT]
      {
        var a := inodes[i].addrs[k];
        if a != 0 {
          ClearDirect(inodes, blocks, owner, lo, size, i, k);
          Bfree(a);
          inodes := inodes[i := inodes[i].(addrs := inodes[i].addrs[k := 0])];
          owner := owner - {a};
        }
      }
    }

    /** The indirect part of itrunc. The freed words stay in the indirect block; `view` has them cleared. */
    method TruncIndirect(i: nat)
      requires i in inodes && |inodes[i].addrs| == 13 && 0 < lo && |used| == size
      requires Owned(inodes, blocks, owner, lo, size) && UsedOk(used, owner, lo)
      modifies `used, `logged, `inodes, `owner
      ensures |used| == size && Owned(inodes, blocks, owner, lo, size) && UsedOk(used, owner, lo)
      ensures Others(old(owner), owner, i)
      ensures i in inodes && inodes == PutDirect(old(inodes), i, NDIRECT, 0)
    {
      var d := inodes[i].addrs[NDIRECT];
      if d == 0 {
        assert inodes[i].addrs[NDIRECT := 0] == inodes[i].addrs;
        return;
      }
      ghost var view := blocks;
      for j := 0 to NINDIRECT
        invariant |used| == size && Owned(inodes, view, owner, lo, size) && UsedOk(used, owner, lo)
        invariant Others(old(owner), owner, i)
        invariant Cleared(blocks, view, d, j) && inodes == old(inodes)
      {
        view := TruncWord(i, d, j, view);
      }
      ClearIndirect(inodes, blocks, view, owner, lo, size, i);
      Bfree(d);
      owner := owner - {d};
      inodes := inodes[i := inodes[i].(addrs := inodes[i].addrs[NDIRECT := 0])];
    }

    method TruncWord(i: nat, d: nat, j: nat, ghost view: Blocks) returns (ghost view': Blocks)
      requires i in inodes && |inodes[i].addrs| == 13 && d == inodes[i].addrs[NDIRECT] != 0 && j < NINDIRECT && 0 < lo
      requires |used| == size && Owned(inodes, view, owner, lo, size) && UsedOk(used, owner, lo)
      requires Cleared(blocks, view, d, j)
      modifies `used, `logged, `owner
      ensures |used| == size && Owned(inodes, view', owner, lo, size) && UsedOk(used, owner, lo)
      ensures Others(old(owner), owner, i)
      ensures Cleared(blocks, view', d, j + 1)
    {
      view' := view;
      var a := Word(At(blocks, d), j);
      if a != 0 {
        ClearWord(inodes, blocks, view, owner, lo, size, i, j);
        Bfree(a);
        owner := owner - {a};
        view' := view[d := SetWord(At(view, d), j, 0)];
      }
    }

    /** itrunc: the file becomes empty and all its blocks are free; no other file is touched, and
        the panic "freeing free block" is out of reach. */
    method Itrunc(i: nat)
      requires Valid() && i in inodes
      modifies `used, `logged, `inodes, `owner
      ensures Valid() && inodes == old(inodes)[i := Inode(0, seq(13, k => 0))] && Content(inodes, blocks, i) == []
      ensures owner == map b <- old(owner) | old(owner)[b].0 != i :: old(owner)[b]
      ensures OthersSame(old(inodes), blocks, inodes, blocks, i)
    {
      TruncDirect(i);
      TruncIndirect(i);
      assert inodes[i].addrs == seq(13, k => 0);
      Truncated(old(inodes), inodes, blocks, old(owner), owner, lo, size, i);
      inodes := inodes[i := inodes[i].(size := 0)];
      logged := logged + {IBlock(i)};
    }

    /** readi: the slice of the file's bytes, clipped at its end. Nothing is ever allocated. `room` is how many bytes
        of the destination can be written; when that is too few, the result is -1 and what fits has been stored. */
    method Readi(i: nat, off: nat, n: nat, room: nat) returns (r: int, dst: seq<nat>)
      requires Valid() && i in inodes && off < 0x1_0000_0000 && n < 0x1_0000_0000
      modifies `used, `blocks, `logged, `inodes, `owner
      ensures unchanged(this)
      ensures var c := Content(inodes, blocks, i);
              if off > |c| || off + n >= 0x1_0000_0000 then r == 0 && dst == []
              else var len := if off + n > |c| then |c| - off else n;
                   r == (if len <= room then len else -1) && dst == c[off..off + if len <= room then len else room]
    {
      dst := [];
      if off > inodes[i].size || off + n >= 0x1_0000_0000 { return 0, []; }
      ContentHolds(inodes, blocks, i);
      var end := if off + n > inodes[i].size then inodes[i].size else off + n;
      var ok;
      ok, dst := ReadLoop(i, off, end, room, Content(inodes, blocks, i));
      r := if ok then end - off else -1;
    }

    method ReadLoop(i: nat, off: nat, end: nat, room: nat, ghost c: seq<nat>) returns (ok: bool, dst: seq<nat>)
      requires Valid() && Holds(inodes, blocks, i, c) && off <= end <= |c|
      modifies `used, `blocks, `logged, `inodes, `owner
      ensures unchanged(this) && ok == (end - off <= room)
      ensures dst == c[off..if ok then end else off + room]
    {
      dst := [];
      var at := off;
      while at < end
        invariant unchanged(this) && off <= at <= end && dst == c[off..at] && at - off <= room
      {
        var m := Chunk(at, end);
        var piece := ReadBlock(i, at, m, c);
        if at - off + m > room {             // copyout fails after the bytes that fit
          dst := dst + piece[..room - (at - off)];
          JoinSlices(c, off, at, off + room);
          return false, dst;
        }
        dst := dst + piece;
        JoinSlices(c, off, at, at + m);
        at := at + m;
      }
      ok := true;
    }

    /** One turn of readi's loop. The block is mapped, so bmap allocates nothing. */
    method ReadBlock(i: nat, o: nat, m: nat, ghost c: seq<nat>) returns (piece: seq<nat>)
      requires Valid() && Holds(inodes, blocks, i, c) && 0 < m && o % 1024 + m <= 1024 && o + m <= |c|
      modifies `used, `blocks, `logged, `inodes, `owner
      ensures unchanged(this) && piece == c[o..o + m]
    {
      assert o / 1024 < MAXFILE && Mapped(inodes, blocks, i, o / 1024);
      var addr; ghost var bits;
      addr, bits := Bmap(i, o / 1024);
      BlockSlice(inodes, blocks, i, c, o, m);
      piece := At(blocks, addr)[o % 1024..o % 1024 + m];
    }

    /** writei: the bytes that fit on the disk are spliced in at off; every other file keeps its bytes. The first
        `good` bytes of src can be read from the user. When a copy fails, the bytes before the failure are in the
        block all the same, though r does not count them: they replace old bytes of the file, and beyond its end
        the size does not cover them.
        A chunk of at most 3072 bytes logs at most MAXOPBLOCKS = 10 blocks, on a disk of any size. */
    method Writei(i: nat, src: seq<nat>, off: nat, good: nat) returns (r: int, ghost g: nat, ghost w: set<nat>)
      requires Valid() && i in inodes && off < 0x1_0000_0000 && |src| < 0x1_0000_0000
      modifies `used, `blocks, `logged, `inodes, `owner
      ensures Valid() && inodes.Keys == old(inodes).Keys
      ensures var legal := off <= old(inodes)[i].size && off + |src| < 0x1_0000_0000 && off + |src| <= MAXFILE * BSIZE;
              if !legal then r == -1 && unchanged(this)
              else && 0 <= r <= g <= |src| && (r < |src| ==> good < |src| || forall b | 0 <= b < size :: used[b])
                   && (r < g ==> r < good == g < |src|)
                   && Content(inodes, blocks, i) == Written(Content(old(inodes), old(blocks), i), off, src[..g], r)
      ensures OthersSame(old(inodes), old(blocks), inodes, blocks, i)
      ensures logged <= old(logged) + w && (|src| <= 3072 ==> |w| <= 10)
    {
      g, w := 0, {};
      if off > inodes[i].size || off + |src| >= 0x1_0000_0000 { return -1, g, w; }
      if off + |src| > MAXFILE * BSIZE { return -1, g, w; }
      var at;
      at, g, w := WriteLoop(i, src, off, good);
      Resized(old(inodes), old(blocks), inodes, blocks, owner, lo, size, i, off, src, at, g);
      if at > inodes[i].size { inodes := inodes[i := inodes[i].(size := at)]; }
      logged := logged + {IBlock(i)};
      w := w + {IBlock(i)};
      r := at - off;
    }

    /** filewrite on an inode: chunks of 3072 bytes, each a transaction of its own. What has been
        written is a prefix of src at the old offset, and the offset moves past exactly that, unless a copy from the
        user fails inside a block; the result is n only if all of it was written. `most` is the largest transaction. */
    method Filewrite(i: nat, src: seq<nat>, off: nat, good: nat)
      returns (ret: int, off': nat, ghost g: nat, ghost most: nat)
      requires Valid() && i in inodes && off <= MAXFILE * BSIZE && |src| < 0x8000_0000
      modifies `used, `blocks, `logged, `inodes, `owner
      ensures Valid() && inodes.Keys == old(inodes).Keys && most <= 10
      ensures off <= off' <= off + |src| && ret == if off' == off + |src| then |src| else -1
      ensures off' - off <= g <= |src| && (off' - off < g ==> g == good < |src|)
      ensures Spliced(Content(old(inodes), old(blocks), i), Content(inodes, blocks, i), off, src, off' - off, g)
      ensures OthersSame(old(inodes), old(blocks), inodes, blocks, i)
    {
      g, most := 0, 0;
      off' := off;
      ghost var c0 := Content(inodes, blocks, i);
      NothingWritten(inodes, blocks, i, off, src);
      var ok := true;
      while ok && off' < off + |src|
        invariant off <= off' <= off + |src| && Valid() && i in inodes && inodes.Keys == old(inodes).Keys && most <= 10
        invariant off' - off <= g <= |src| && (off' - off < g ==> g == good < |src|) && (ok ==> g == off' - off)
        invariant Spliced(c0, Content(inodes, blocks, i), off, src, off' - off, g)
        invariant OthersSame(old(inodes), old(blocks), inodes, blocks, i)
        decreases off + |src| - off', ok
      {
        ghost var cost;
        ok, off', g, cost := WriteChunk(i, src, off, off', good, c0, old(inodes), old(blocks));
        most := if cost > most then cost else most;
      }
      ret := if off' == off + |src| then |src| else -1;
    }

    /** One transaction of filewrite. */
    method WriteChunk(i: nat, src: seq<nat>, off: nat, at: nat, good: nat, ghost c0: seq<nat>, ghost inodes0: Inodes,
                      ghost blocks0: Blocks)
      returns (ok: bool, at': nat, ghost g: nat, ghost cost: nat)
      requires Valid() && i in inodes && off <= at < off + |src| < 0x1_0000_0000
      requires Spliced(c0, Content(inodes, blocks, i), off, src, at - off, at - off)
      requires OthersSame(inodes0, blocks0, inodes, blocks, i)
      modifies `used, `blocks, `logged, `inodes, `owner
      ensures Valid() && i in inodes && inodes.Keys == old(inodes).Keys && at <= at' <= off + |src|
      ensures cost == |logged| <= 10
      ensures ok ==> at < at' && g == at' - off
      ensures at' - off <= g <= |src| && (at' - off < g ==> g == good < |src|)
      ensures Spliced(c0, Content(inodes, blocks, i), off, src, at' - off, g)
      ensures OthersSame(inodes0, blocks0, inodes, blocks, i)
    {
      var k := at - off;
      var n1 := if |src| - k > 3072 then 3072 else |src| - k;
      ghost var c1 := Content(inodes, blocks, i);
      logged := {};                          // begin_op
      var r;
      var piece, whole := src[k..k + n1], if good > k then good - k else 0;
      r, g, cost := WriteLogged(i, piece, at, whole);
      OthersSameTwice(inodes0, blocks0, old(inodes), old(blocks), inodes, blocks, i);
      at' := if r > 0 then at + r else at;
      ok := r == n1;
      g := ChunkSpliced(c0, c1, Content(inodes, blocks, i), off, at, src, piece, k, r, g, good, whole, at' - off);
    }

    /** writei in a transaction that has logged nothing yet. */
    method WriteLogged(i: nat, src: seq<nat>, off: nat, good: nat) returns (r: int, ghost g: nat, ghost cost: nat)
      requires Valid() && i in inodes && off < 0x1_0000_0000 && |src| <= 3072 && logged == {}
      modifies `used, `blocks, `logged, `inodes, `owner
      ensures Valid() && inodes.Keys == old(inodes).Keys && cost == |logged| <= 10
      ensures r <= |src|
      ensures ChunkResult(Content(old(inodes), old(blocks), i), Content(inodes, blocks, i), off, src, r, g, good)
      ensures OthersSame(old(inodes), old(blocks), inodes, blocks, i)
    {
      ghost var w;
      r, g, w := Writei(i, src, off, good);
      assert logged <= w;
      SubsetSize(logged, w);
      cost := |logged|;
    }

    /** writei's loop: returns how far it got, and in g how many bytes are in the blocks. Short of the end only when
        the disk is full or a copy fails. `w` are the blocks it logged; a chunk of three blocks costs at most nine,
        because an unaligned first block is already mapped. */
    method WriteLoop(i: nat, src: seq<nat>, off: nat, good: nat) returns (at: nat, ghost g: nat, ghost w: set<nat>)
      requires Valid() && i in inodes && off <= inodes[i].size && off + |src| <= MAXFILE * BSIZE
      modifies `used, `blocks, `logged, `inodes, `owner
      ensures Valid() && off <= at <= off + g <= off + |src|
      ensures Wrote(old(inodes), old(blocks), inodes, blocks, i, off, src, g)
      ensures at < off + |src| ==> good < |src| || forall b | 0 <= b < size :: used[b]
      ensures at < off + g ==> at - off < good == g < |src|
      ensures logged <= old(logged) + w && (|src| <= 3072 ==> |w| <= 9)
    {
      at, g := off, 0;
      var ok := true;
      WroteNone(inodes, blocks, i, off, src);
      ghost var k, datas, bits, d0 := 0, {}, {}, Direct(inodes, i, NDIRECT);
      while ok && at < off + |src|
        invariant Valid() && i in inodes && WriteState(off, at, src, good, g, ok, used) && |used| == size
        invariant Wrote(old(inodes), old(blocks), inodes, blocks, i, off, src, g)
        invariant logged <= old(logged) + datas + bits + Indirect(inodes, i)
        invariant Ledger(off, at, off + |src|, k, datas, bits, d0, Direct(inodes, i, NDIRECT), ok)
        decreases off + |src| - at, ok
      {
        ok, at, g, k, datas, bits :=
          WriteNext(i, src, off, at, good, old(inodes), old(blocks), old(logged), k, datas, bits, d0);
      }
      w := datas + bits + Indirect(inodes, i);
      AtMostNine(off, at, off + |src|, k, datas, bits, d0, Direct(inodes, i, NDIRECT), ok, Indirect(inodes, i));
    }

    /** One turn with the account of what it logs. */
    method WriteNext(i: nat, src: seq<nat>, off: nat, at: nat, good: nat, ghost inodes0: Inodes, ghost blocks0: Blocks,
                     ghost log0: set<nat>, ghost k: nat, ghost datas: set<nat>, ghost bits: set<nat>, ghost d0: nat)
      returns (ok: bool, at': nat, ghost g: nat, ghost k': nat, ghost datas': set<nat>, ghost bits': set<nat>)
      requires Valid() && i in inodes && off <= at < off + |src| <= MAXFILE * BSIZE
      requires Wrote(inodes0, blocks0, inodes, blocks, i, off, src, at - off)
      requires logged <= log0 + datas + bits + Indirect(inodes, i)
      requires Ledger(off, at, off + |src|, k, datas, bits, d0, Direct(inodes, i, NDIRECT), true)
      modifies `used, `blocks, `logged, `inodes, `owner
      ensures Valid() && i in inodes && WriteState(off, at', src, good, g, ok, used) && |used| == size
      ensures Wrote(inodes0, blocks0, inodes, blocks, i, off, src, g) && (if ok then at < at' else at' == at)
      ensures logged <= log0 + datas' + bits' + Indirect(inodes, i)
      ensures Ledger(off, at', off + |src|, k', datas', bits', d0, Direct(inodes, i, NDIRECT), ok)
    {
      ghost var d1, mapped, more := Direct(inodes, i, NDIRECT), Addr(inodes, blocks, i, at / 1024) != 0, {};
      FirstIsMapped(inodes0, blocks0, inodes, blocks, i, off, src, at);
      assert d1 != 0 ==> Indirect(inodes, i) == {d1};
      var did;
      ok, at', g, did, more := WriteTurn(i, src, off, at, good, inodes0, blocks0);
      ghost var b := Addr(inodes, blocks, i, at / 1024);
      TurnStep(off, at, at', off + |src|, k, datas, bits, b, more, d0, d1, Direct(inodes, i, NDIRECT), mapped, did, ok);
      bits' := bits + more;
      datas', k' := if did then datas + {b} else datas, if did then k + 1 else k;
    }

    /** One turn of writei's loop: a chunk written, or (did and not ok) written in part, or the disk is full. */
    method WriteTurn(i: nat, src: seq<nat>, off: nat, at: nat, good: nat, ghost inodes0: Inodes, ghost blocks0: Blocks)
      returns (ok: bool, at': nat, ghost g: nat, did: bool, ghost bits: set<nat>)
      requires Valid() && i in inodes && off <= at < off + |src| <= MAXFILE * BSIZE
      requires Wrote(inodes0, blocks0, inodes, blocks, i, off, src, at - off)
      modifies `used, `blocks, `logged, `inodes, `owner
      ensures Valid() && i in inodes && WriteState(off, at', src, good, g, ok, used) && |used| == size
      ensures Wrote(inodes0, blocks0, inodes, blocks, i, off, src, g)
      ensures if ok then did && at < at' && (at' < off + |src| ==> at' % 1024 == 0 && at' / 1024 == at / 1024 + 1)
              else at' == at
      ensures logged <= old(logged) + bits + (if did then {Addr(inodes, blocks, i, at / 1024)}
                                              else {}) + Indirect(inodes, i)
      ensures |bits| <= (if Addr(old(inodes), old(blocks), i, at / 1024) == 0 && did then 1 else 0)
                        + (if Direct(old(inodes), i, NDIRECT) == 0 && Direct(inodes, i, NDIRECT) != 0 then 1 else 0)
      ensures Direct(old(inodes), i, NDIRECT) != 0 ==> Direct(inodes, i, NDIRECT) == Direct(old(inodes), i, NDIRECT)
    {
      var m := Chunk(at, off + |src|);
      var tot := at - off;
      var fault := tot + m > good;
      var p := if !fault then m else if good > tot then good - tot else 0;
      did, bits := WriteBlock(i, at / 1024, at % 1024, src[tot..tot + p], fault);
      ok := did && !fault;
      at', g := if ok then at + m else at, if did then tot + p else tot;
      if did {
        WroteMore(inodes0, blocks0, old(inodes), old(blocks), inodes, blocks, i, off, src, tot, p);
      } else {
        WroteKept(inodes0, blocks0, old(inodes), old(blocks), inodes, blocks, i, off, src, tot);
      }
    }

    /** bmap, copy into the block, log_write: part of one file block, unless the disk is full. When the copy
        fails the block is not logged. */
    method WriteBlock(i: nat, n: nat, o: nat, piece: seq<nat>, fault: bool) returns (did: bool, ghost bits: set<nat>)
      requires Valid() && i in inodes && n < MAXFILE && o + |piece| <= 1024
      modifies `used, `blocks, `logged, `inodes, `owner
      ensures Valid() && SameSizes(old(inodes), inodes)
      ensures did ==> Patched(old(inodes), old(blocks), inodes, blocks, i, n, o, piece)
      ensures !did ==> Keeps(old(inodes), old(blocks), inodes, blocks) && forall b | 0 <= b < size :: used[b]
      ensures logged <= old(logged) + bits + (if did then {Addr(inodes, blocks, i, n)} else {}) + Indirect(inodes, i)
      ensures |bits| <= (if Addr(old(inodes), old(blocks), i, n) == 0 && did then 1 else 0)
                        + (if Direct(old(inodes), i, NDIRECT) == 0 && Direct(inodes, i, NDIRECT) != 0 then 1 else 0)
      ensures Direct(old(inodes), i, NDIRECT) != 0 ==> Direct(inodes, i, NDIRECT) == Direct(old(inodes), i, NDIRECT)
    {
      var addr;
      addr, bits := Bmap(i, n);
      if addr == 0 { return false, bits; }
      ghost var b1 := blocks;
      PatchOne(old(inodes), old(blocks), inodes, b1, owner, lo, size, i, n, o, piece);
      blocks := blocks[addr := Patch(At(blocks, addr), o, piece)];
      if !fault { logged := logged + {addr}; }
      return true, bits;
    }
  }

  /** Between turns of writei's loop: at counts the whole chunks, g the bytes in the blocks. */
  ghost predicate WriteState(off: nat, at: nat, src: seq<nat>, good: nat, g: nat, ok: bool, used: seq<bool>) {
    && off <= at <= off + g <= off + |src| && (ok ==> at == off + g)
    && (ok || good < |src| || forall b | 0 <= b < |used| :: used[b])
    && (at < off + g ==> at - off < good == g < |src|)
  }

  // ---------- Conservation ----------

  /** The clear bits among the first n. */
  function FreeBits(used: seq<bool>, n: nat): nat
    requires n <= |used|
  {
    if n == 0 then 0 else FreeBits(used, n - 1) + if used[n - 1] then 0 else 1
  }

  /** Free and owned blocks together are always the whole data area. */
  lemma FreePlusOwned(used: seq<bool>, inodes: Inodes, blocks: Blocks, owner: map<nat, Slot>, lo: nat)
    requires Owned(inodes, blocks, owner, lo, |used|) && UsedOk(used, owner, lo) && lo <= |used|
    ensures FreeBits(used, |used|) + |owner| == |used| - lo
  {
    forall b: nat | b in owner ensures lo <= b < |used| { assert OwnerOk(inodes, blocks, owner, lo, |used|, b); }
    FreeBelow(used, owner, lo, |used|);
    assert Below(owner, |used|) == owner.Keys;
  }

  ghost function Below(owner: map<nat, Slot>, n: nat): set<nat> { set b <- owner | b < n }

  lemma {:induction false} FreeBelow(used: seq<bool>, owner: map<nat, Slot>, lo: nat, n: nat)
    requires UsedOk(used, owner, lo) && n <= |used| && forall b: nat | b in owner :: lo <= b
    ensures FreeBits(used, n) + |Below(owner, n)| == if n < lo then 0 else n - lo
  {
    if n == 0 {
      assert Below(owner, 0) == {};
    } else {
      FreeBelow(used, owner, lo, n - 1);
      BelowNext(owner, n - 1);
    }
  }

  lemma BelowNext(owner: map<nat, Slot>, n: nat)
    ensures |Below(owner, n + 1)| == |Below(owner, n)| + if n in owner then 1 else 0
  {
    assert Below(owner, n + 1) == Below(owner, n) + if n in owner then {n} else {};
  }

  // ---------- Truncation ----------

  /** Owners have only been dropped, and only those of inode i. */
  ghost predicate Others(owner: map<nat, Slot>, owner': map<nat, Slot>, i: nat) {
    && (forall b <- owner' :: b in owner && owner[b] == owner'[b])
    && (forall b <- owner :: b in owner' || owner[b].0 == i)
  }

  /** view is blocks with the first j words of d cleared. */
  ghost predicate Cleared(blocks: Blocks, view: Blocks, d: nat, j: nat)
    requires j <= NINDIRECT
  {
    && (forall b: nat | b != d :: At(view, b) == At(blocks, b))
    && (forall k | 0 <= k < NINDIRECT :: Word(At(view, d), k) == if k < j then 0 else Word(At(blocks, d), k))
  }

  lemma OwnedLess(inodes: Inodes, blocks: Blocks, inodes': Inodes, blocks': Blocks, owner: map<nat, Slot>, lo: nat,
                  hi: nat, i: nat, k: nat)
    requires Owned(inodes, blocks, owner, lo, hi) && OneSlot(inodes, blocks, inodes', blocks', i, k, 0) && k < NSLOTS
    requires SlotAddr(inodes, blocks, i, k) != 0
    ensures var a := SlotAddr(inodes, blocks, i, k);
            a in owner && owner[a] == (i, k) && lo <= a < hi && Owned(inodes', blocks', owner - {a}, lo, hi)
  {
    var a := SlotAddr(inodes, blocks, i, k);
    assert SlotOk(inodes, blocks, owner, i, k) && OwnerOk(inodes, blocks, owner, lo, hi, a);
    forall j: nat, m: nat ensures SlotOk(inodes', blocks', owner - {a}, j, m) {
      assert SlotOk(inodes, blocks, owner, j, m);
    }
    forall b: nat ensures OwnerOk(inodes', blocks', owner - {a}, lo, hi, b) {
      assert OwnerOk(inodes, blocks, owner, lo, hi, b);
    }
  }

  lemma ClearDirect(inodes: Inodes, blocks: Blocks, owner: map<nat, Slot>, lo: nat, hi: nat, i: nat, k: nat)
    requires Owned(inodes, blocks, owner, lo, hi) && i in inodes && |inodes[i].addrs| == 13 && k < NDIRECT
    requires inodes[i].addrs[k] != 0
    ensures var a := inodes[i].addrs[k];
            a in owner && owner[a] == (i, k) && lo <= a < hi
              && Owned(PutDirect(inodes, i, k, 0), blocks, owner - {a}, lo, hi)
  {
    var inodes' := PutDirect(inodes, i, k, 0);
    forall j: nat, m: nat
      ensures SlotAddr(inodes', blocks, j, m) == if (j, m) == (i, k) then 0 else SlotAddr(inodes, blocks, j, m) {}
    OwnedLess(inodes, blocks, inodes', blocks, owner, lo, hi, i, k);
  }

  lemma ClearWord(inodes: Inodes, blocks: Blocks, view: Blocks, owner: map<nat, Slot>, lo: nat, hi: nat, i: nat, j: nat)
    requires Owned(inodes, view, owner, lo, hi) && j < NINDIRECT && Direct(inodes, i, NDIRECT) != 0
    requires Cleared(blocks, view, Direct(inodes, i, NDIRECT), j)
    requires Word(At(blocks, Direct(inodes, i, NDIRECT)), j) != 0
    ensures var d := Direct(inodes, i, NDIRECT);
            var a, view' := Word(At(blocks, d), j), view[d := SetWord(At(view, d), j, 0)];
            && a in owner && owner[a] == (i, j + 13) && lo <= a < hi
            && Owned(inodes, view', owner - {a}, lo, hi) && Cleared(blocks, view', d, j + 1)
  {
    var d := Direct(inodes, i, NDIRECT);
    var view' := view[d := SetWord(At(view, d), j, 0)];
    forall k | 0 <= k < NINDIRECT ensures Word(At(view', d), k) == if k == j then 0 else Word(At(view, d), k) {
      WordSet(At(view, d), j, 0, k);
    }
    forall x: nat, m: nat
      ensures SlotAddr(inodes, view', x, m) == if (x, m) == (i, j + 13) then 0 else SlotAddr(inodes, view, x, m)
    {
      assert SlotOk(inodes, view, owner, x, NDIRECT) && SlotOk(inodes, view, owner, i, NDIRECT);
    }
    OwnedLess(inodes, view, inodes, view', owner, lo, hi, i, j + 13);
  }

  lemma ClearIndirect(inodes: Inodes, blocks: Blocks, view: Blocks, owner: map<nat, Slot>, lo: nat, hi: nat, i: nat)
    requires Owned(inodes, view, owner, lo, hi) && i in inodes && |inodes[i].addrs| == 13
    requires inodes[i].addrs[NDIRECT] != 0
    requires Cleared(blocks, view, inodes[i].addrs[NDIRECT], NINDIRECT)
    ensures var d := inodes[i].addrs[NDIRECT];
            d in owner && owner[d] == (i, NDIRECT) && lo <= d < hi
              && Owned(PutDirect(inodes, i, NDIRECT, 0), blocks, owner - {d}, lo, hi)
  {
    var d, inodes' := inodes[i].addrs[NDIRECT], PutDirect(inodes, i, NDIRECT, 0);
    forall j: nat, m: nat
      ensures SlotAddr(inodes', blocks, j, m) == if (j, m) == (i, NDIRECT) then 0 else SlotAddr(inodes, view, j, m)
    {
      assert SlotOk(inodes, view, owner, j, NDIRECT) && SlotOk(inodes, view, owner, i, NDIRECT);
    }
    OwnedLess(inodes, view, inodes', blocks, owner, lo, hi, i, NDIRECT);
  }

  lemma Truncated(inodes0: Inodes, inodes: Inodes, blocks: Blocks, owner0: map<nat, Slot>, owner: map<nat, Slot>,
                  lo: nat, hi: nat, i: nat)
    requires i in inodes0 && i in inodes && inodes == inodes0[i := inodes[i]] && inodes[i].addrs == seq(13, k => 0)
    requires NoHoles(inodes0, blocks) && Owned(inodes, blocks, owner, lo, hi) && Others(owner0, owner, i)
    ensures var inodes' := inodes[i := inodes[i].(size := 0)];
            && Owned(inodes', blocks, owner, lo, hi) && NoHoles(inodes', blocks)
            && owner == (map b <- owner0 | owner0[b].0 != i :: owner0[b])
            && OthersSame(inodes0, blocks, inodes', blocks, i)
  {
    var inodes' := inodes[i := inodes[i].(size := 0)];
    SizeLeavesSlots(inodes, inodes', blocks);
    forall j: nat, k: nat ensures SlotOk(inodes', blocks, owner, j, k) { assert SlotOk(inodes, blocks, owner, j, k); }
    forall b: nat ensures OwnerOk(inodes', blocks, owner, lo, hi, b) {
      assert OwnerOk(inodes, blocks, owner, lo, hi, b);
    }
    forall b <- owner ensures owner[b].0 != i { assert OwnerOk(inodes, blocks, owner, lo, hi, b); }
    forall j: nat, m: nat | j != i ensures SlotAddr(inodes', blocks, j, m) == SlotAddr(inodes0, blocks, j, m) {
      assert Direct(inodes', j, NDIRECT) == Direct(inodes0, j, NDIRECT)
               && Direct(inodes', j, m) == Direct(inodes0, j, m);
    }
    forall j: nat, n: nat ensures Mapped(inodes', blocks, j, n) { assert Mapped(inodes0, blocks, j, n); }
    forall j: nat | j != i ensures Content(inodes', blocks, j) == Content(inodes0, blocks, j) {
      forall x: nat ensures Byte(inodes', blocks, j, x) == Byte(inodes0, blocks, j, x) {
        assert Addr(inodes', blocks, j, x / 1024) == Addr(inodes0, blocks, j, x / 1024);
      }
      SameContent(inodes0, blocks, inodes', blocks, j);
    }
  }

  // ---------- File contents ----------

  function Byte(inodes: Inodes, blocks: Blocks, i: nat, x: nat): nat {
    FileBlock(inodes, blocks, i, x / 1024)[x % 1024]
  }

  /** A file as a byte sequence. */
  function Content(inodes: Inodes, blocks: Blocks, i: nat): seq<nat> {
    if i in inodes then seq(inodes[i].size, x requires 0 <= x => Byte(inodes, blocks, i, x)) else []
  }

  /** Every file but i has the bytes it had. */
  ghost predicate OthersSame(inodes: Inodes, blocks: Blocks, inodes': Inodes, blocks': Blocks, i: nat) {
    forall j: nat {:trigger ContentSame(inodes, blocks, inodes', blocks', j)} | j != i ::
      ContentSame(inodes, blocks, inodes', blocks', j)
  }

  ghost predicate ContentSame(inodes: Inodes, blocks: Blocks, inodes': Inodes, blocks': Blocks, j: nat) {
    Content(inodes', blocks', j) == Content(inodes, blocks, j)
  }

  lemma OthersSameTwice(inodes: Inodes, blocks: Blocks, inodes1: Inodes, blocks1: Blocks, inodes2: Inodes,
                        blocks2: Blocks, i: nat)
    requires OthersSame(inodes, blocks, inodes1, blocks1, i) && OthersSame(inodes1, blocks1, inodes2, blocks2, i)
    ensures OthersSame(inodes, blocks, inodes2, blocks2, i)
  {
    forall j: nat | j != i ensures ContentSame(inodes, blocks, inodes2, blocks2, j) {
      assert ContentSame(inodes, blocks, inodes1, blocks1, j) && ContentSame(inodes1, blocks1, inodes2, blocks2, j);
    }
  }

  /** c is the file's bytes. */
  ghost predicate Holds(inodes: Inodes, blocks: Blocks, i: nat, c: seq<nat>) {
    i in inodes && |c| == inodes[i].size
      && forall x: nat {:trigger HoldsAt(inodes, blocks, i, c, x)} :: HoldsAt(inodes, blocks, i, c, x)
  }

  ghost predicate HoldsAt(inodes: Inodes, blocks: Blocks, i: nat, c: seq<nat>, x: nat) {
    x < |c| ==> c[x] == Byte(inodes, blocks, i, x)
  }

  lemma ContentHolds(inodes: Inodes, blocks: Blocks, i: nat)
    requires i in inodes
    ensures Holds(inodes, blocks, i, Content(inodes, blocks, i))
  {
  }

  lemma HoldsIsContent(inodes: Inodes, blocks: Blocks, i: nat, c: seq<nat>)
    requires Holds(inodes, blocks, i, c)
    ensures Content(inodes, blocks, i) == c
  {
    var d := Content(inodes, blocks, i);
    forall x: nat | x < |c| ensures d[x] == c[x] { assert HoldsAt(inodes, blocks, i, c, x); }
  }

  function Patch(b: Block, o: nat, piece: seq<nat>): Block
    requires o + |piece| <= 1024
  {
    b[..o] + piece + b[o + |piece|..]
  }

  /** c with s written at off, growing c if need be. */
  function Splice(c: seq<nat>, off: nat, s: seq<nat>): seq<nat>
    requires off <= |c|
  {
    c[..off] + s + if off + |s| < |c| then c[off + |s|..] else []
  }

  /** c with s written at off, of which only the first k bytes count towards the length. */
  function Written(c: seq<nat>, off: nat, s: seq<nat>, k: nat): seq<nat>
    requires off <= |c| && k <= |s|
  {
    Splice(c, off, s)[..if off + k > |c| then off + k else |c|]
  }

  /** How much of file block at / BSIZE lies between at and end. */
  function Chunk(at: nat, end: nat): (m: nat)
    requires at < end
    ensures 0 < m <= end - at && at % 1024 + m <= 1024
    ensures at + m < end ==> (at + m) % 1024 == 0 && (at + m) / 1024 == at / 1024 + 1
  {
    if end - at < 1024 - at % 1024 then end - at else 1024 - at % 1024
  }

  lemma JoinSlices(c: seq<nat>, x: nat, y: nat, z: nat)
    requires x <= y <= z <= |c|
    ensures c[x..y] + c[y..z] == c[x..z]
  {
  }

  lemma SameBlock(off: nat, k: nat)
    requires off % 1024 + k < 1024
    ensures (off + k) / 1024 == off / 1024 && (off + k) % 1024 == off % 1024 + k
  {
  }

  lemma BlockSlice(inodes: Inodes, blocks: Blocks, i: nat, c: seq<nat>, off: nat, m: nat)
    requires Holds(inodes, blocks, i, c) && off % 1024 + m <= 1024 && off + m <= |c|
    ensures FileBlock(inodes, blocks, i, off / 1024)[off % 1024..off % 1024 + m] == c[off..off + m]
  {
    var o := off % 1024;
    var a, d := FileBlock(inodes, blocks, i, off / 1024)[o..o + m], c[off..off + m];
    forall k | 0 <= k < m ensures a[k] == d[k] {
      SameBlock(off, k);
      assert HoldsAt(inodes, blocks, i, c, off + k);
    }
  }

  /** Exactly file block n of inode i has been rewritten, and is mapped. */
  ghost predicate Patched(inodes: Inodes, blocks: Blocks, inodes': Inodes, blocks': Blocks, i: nat, n: nat, o: nat,
                          piece: seq<nat>)
    requires o + |piece| <= 1024
  {
    && SameSizes(inodes, inodes') && Addr(inodes', blocks', i, n) != 0
    && (forall j: nat, m: nat {:trigger Addr(inodes', blocks', j, m)} ::
        Addr(inodes, blocks, j, m) != 0 ==> Addr(inodes', blocks', j, m) != 0)
    && (forall j: nat, m: nat {:trigger FileBlock(inodes', blocks', j, m)} ::
          FileBlock(inodes', blocks', j, m) ==
            if (j, m) == (i, n) then Patch(FileBlock(inodes, blocks, i, n), o, piece)
               else FileBlock(inodes, blocks, j, m))
  }

  /** Writing the disk block of file block n after bmap. */
  lemma PatchOne(inodes: Inodes, blocks: Blocks, inodes1: Inodes, blocks1: Blocks, owner: map<nat, Slot>, lo: nat,
                 hi: nat, i: nat, n: nat, o: nat, piece: seq<nat>)
    requires Keeps(inodes, blocks, inodes1, blocks1) && Owned(inodes1, blocks1, owner, lo, hi)
    requires NoHoles(inodes1, blocks1)
    requires o + |piece| <= 1024 && n < MAXFILE && Addr(inodes1, blocks1, i, n) != 0
    ensures var a := Addr(inodes1, blocks1, i, n);
            var blocks2 := blocks1[a := Patch(At(blocks1, a), o, piece)];
            && Patched(inodes, blocks, inodes1, blocks2, i, n, o, piece) && Owned(inodes1, blocks2, owner, lo, hi)
            && NoHoles(inodes1, blocks2)
  {
    var a := Addr(inodes1, blocks1, i, n);
    var x := Patch(At(blocks1, a), o, piece);
    var blocks2 := blocks1[a := x];
    assert SlotOk(inodes1, blocks1, owner, i, if n < NDIRECT then n else n + 1);
    DataSlots(inodes1, blocks1, owner, lo, hi, a, x);
    forall j: nat, m: nat ensures SlotOk(inodes1, blocks2, owner, j, m) {
      assert SlotOk(inodes1, blocks1, owner, j, m);
    }
    forall b: nat ensures OwnerOk(inodes1, blocks2, owner, lo, hi, b) {
      assert OwnerOk(inodes1, blocks1, owner, lo, hi, b);
    }
    forall j: nat, m: nat ensures Mapped(inodes1, blocks2, j, m) { assert Mapped(inodes1, blocks1, j, m); }
    forall j: nat, m: nat
      ensures Addr(inodes, blocks, j, m) != 0 ==> Addr(inodes1, blocks2, j, m) != 0
      ensures FileBlock(inodes1, blocks2, j, m) ==
                if (j, m) == (i, n) then Patch(FileBlock(inodes, blocks, i, n), o, piece)
                   else FileBlock(inodes, blocks, j, m)
    {
      assert Kept(inodes, blocks, inodes1, blocks1, j, m);
      assert SlotOk(inodes1, blocks1, owner, j, if m < NDIRECT then m else m + 1);
    }
  }

  /** The bytes src[..tot] have gone to off.. of inode i, every other byte of every file is as before,
      and the blocks written are mapped. */
  ghost predicate Wrote(inodes: Inodes, blocks: Blocks, inodes': Inodes, blocks': Blocks, i: nat, off: nat,
                        src: seq<nat>, tot: nat)
    requires tot <= |src|
  {
    && SameSizes(inodes, inodes')
    && (forall j: nat, m: nat {:trigger Addr(inodes', blocks', j, m)} ::
          Addr(inodes, blocks, j, m) != 0 || (j == i && off / 1024 <= m && m * 1024 < off + tot)
          ==> Addr(inodes', blocks', j, m) != 0)
    && (forall j: nat, x: nat {:trigger Byte(inodes', blocks', j, x)} ::
          Byte(inodes', blocks', j, x) == if j == i && off <= x < off + tot then src[x - off]
            else Byte(inodes, blocks, j, x))
  }

  lemma WroteNone(inodes: Inodes, blocks: Blocks, i: nat, off: nat, src: seq<nat>)
    requires NoHoles(inodes, blocks) && i in inodes && off <= inodes[i].size
    ensures Wrote(inodes, blocks, inodes, blocks, i, off, src, 0)
  {
    forall m: nat | m * 1024 < off ensures Addr(inodes, blocks, i, m) != 0 { assert Mapped(inodes, blocks, i, m); }
  }

  lemma WroteKept(inodes: Inodes, blocks: Blocks, inodes1: Inodes, blocks1: Blocks, inodes2: Inodes, blocks2: Blocks,
                  i: nat, off: nat, src: seq<nat>, tot: nat)
    requires tot <= |src| && Wrote(inodes, blocks, inodes1, blocks1, i, off, src, tot)
    requires Keeps(inodes1, blocks1, inodes2, blocks2)
    ensures Wrote(inodes, blocks, inodes2, blocks2, i, off, src, tot)
  {
    forall j: nat, x: nat ensures Byte(inodes2, blocks2, j, x) == Byte(inodes1, blocks1, j, x) {
      assert Kept(inodes1, blocks1, inodes2, blocks2, j, x / 1024);
    }
    forall j: nat, m: nat ensures Addr(inodes1, blocks1, j, m) != 0 ==> Addr(inodes2, blocks2, j, m) != 0 {
      assert Kept(inodes1, blocks1, inodes2, blocks2, j, m);
    }
  }

  /** An unaligned first block lies partly below the size, so it is mapped. */
  lemma FirstIsMapped(inodes: Inodes, blocks: Blocks, inodes': Inodes, blocks': Blocks, i: nat, off: nat, src: seq<nat>,
                      at: nat)
    requires off <= at <= off + |src| && Wrote(inodes, blocks, inodes', blocks', i, off, src, at - off)
    ensures off % 1024 != 0 && at == off ==> Addr(inodes', blocks', i, at / 1024) != 0
  {
  }

  /** A patched block changes exactly the bytes from `from` on. */
  lemma PatchedByte(inodes: Inodes, blocks: Blocks, inodes': Inodes, blocks': Blocks, i: nat, from: nat,
                    piece: seq<nat>, j: nat, x: nat)
    requires from % 1024 + |piece| <= 1024
    requires Patched(inodes, blocks, inodes', blocks', i, from / 1024, from % 1024, piece)
    ensures Byte(inodes', blocks', j, x) == if j == i && from <= x < from + |piece| then piece[x - from]
            else Byte(inodes, blocks, j, x)
  {
    var n, o := from / 1024, from % 1024;
    assert x == 1024 * (x / 1024) + x % 1024 && from == 1024 * n + o;
    assert FileBlock(inodes', blocks', j, x / 1024) ==
      if (j, x / 1024) == (i, n) then Patch(FileBlock(inodes, blocks, i, n), o, piece)
         else FileBlock(inodes, blocks, j, x / 1024);
  }

  lemma WroteMore(inodes: Inodes, blocks: Blocks, inodes1: Inodes, blocks1: Blocks, inodes2: Inodes, blocks2: Blocks,
                  i: nat, off: nat, src: seq<nat>, tot: nat, m: nat)
    requires tot + m <= |src| && (off + tot) % 1024 + m <= 1024
    requires Wrote(inodes, blocks, inodes1, blocks1, i, off, src, tot)
    requires Patched(inodes1, blocks1, inodes2, blocks2, i, (off + tot) / 1024, (off + tot) % 1024, src[tot..tot + m])
    ensures Wrote(inodes, blocks, inodes2, blocks2, i, off, src, tot + m)
  {
    forall j: nat, x: nat
      ensures Byte(inodes2, blocks2, j, x) == if j == i && off <= x < off + tot + m then src[x - off]
              else Byte(inodes, blocks, j, x)
    {
      assert Byte(inodes1, blocks1, j, x) == if j == i && off <= x < off + tot then src[x - off]
             else Byte(inodes, blocks, j, x);
      PatchedByte(inodes1, blocks1, inodes2, blocks2, i, off + tot, src[tot..tot + m], j, x);
    }
    forall j: nat, k: nat
      ensures Addr(inodes, blocks, j, k) != 0 || (j == i && off / 1024 <= k && k * 1024 < off + tot + m)
              ==> Addr(inodes2, blocks2, j, k) != 0
    {
      assert Addr(inodes1, blocks1, j, k) != 0 ==> Addr(inodes2, blocks2, j, k) != 0;
    }
  }

  /** Moving the size up to what was counted turns the bytes into a splice. */
  lemma Resized(inodes0: Inodes, blocks0: Blocks, inodes: Inodes, blocks: Blocks, owner: map<nat, Slot>, lo: nat,
                hi: nat, i: nat, off: nat, src: seq<nat>, at: nat, g: nat)
    requires off <= at <= off + g <= off + |src| <= MAXFILE * BSIZE && i in inodes0 && off <= inodes0[i].size
    requires Wrote(inodes0, blocks0, inodes, blocks, i, off, src, g)
    requires Owned(inodes, blocks, owner, lo, hi) && NoHoles(inodes, blocks) && NoHoles(inodes0, blocks0)
    ensures i in inodes
    ensures var inodes' := if at > inodes[i].size then inodes[i := inodes[i].(size := at)] else inodes;
            && Owned(inodes', blocks, owner, lo, hi) && NoHoles(inodes', blocks)
            && Content(inodes', blocks, i) == Written(Content(inodes0, blocks0, i), off, src[..g], at - off)
            && OthersSame(inodes0, blocks0, inodes', blocks, i)
  {
    var inodes' := if at > inodes[i].size then inodes[i := inodes[i].(size := at)] else inodes;
    SizeLeavesSlots(inodes, inodes', blocks);
    forall j: nat, k: nat ensures SlotOk(inodes', blocks, owner, j, k) { assert SlotOk(inodes, blocks, owner, j, k); }
    forall b: nat ensures OwnerOk(inodes', blocks, owner, lo, hi, b) {
      assert OwnerOk(inodes, blocks, owner, lo, hi, b);
    }
    forall j: nat, n: nat ensures Mapped(inodes', blocks, j, n) {
      assert Mapped(inodes, blocks, j, n) && Mapped(inodes0, blocks0, j, n);
      assert Addr(inodes', blocks, j, n) == Addr(inodes, blocks, j, n);
    }
    SplicedContent(inodes0, blocks0, inodes, inodes', blocks, i, off, src, at, g);
  }

  lemma SizeLeavesSlots(inodes: Inodes, inodes': Inodes, blocks: Blocks)
    requires inodes'.Keys == inodes.Keys && forall j <- inodes :: inodes'[j].addrs == inodes[j].addrs
    ensures forall j: nat, k: nat {:trigger SlotAddr(inodes', blocks, j, k)} ::
              SlotAddr(inodes', blocks, j, k) == SlotAddr(inodes, blocks, j, k)
    ensures forall j: nat, x: nat {:trigger Byte(inodes', blocks, j, x)} ::
              Byte(inodes', blocks, j, x) == Byte(inodes, blocks, j, x)
  {
    forall j: nat, k: nat ensures SlotAddr(inodes', blocks, j, k) == SlotAddr(inodes, blocks, j, k) {
      assert forall m: nat :: Direct(inodes', j, m) == Direct(inodes, j, m);
    }
  }

  lemma SplicedContent(inodes0: Inodes, blocks0: Blocks, inodes: Inodes, inodes': Inodes, blocks: Blocks,
                       i: nat, off: nat, src: seq<nat>, at: nat, g: nat)
    requires off <= at <= off + g <= off + |src| && i in inodes0 && off <= inodes0[i].size
    requires Wrote(inodes0, blocks0, inodes, blocks, i, off, src, g)
    requires inodes'.Keys == inodes.Keys && (forall j <- inodes :: inodes'[j].addrs == inodes[j].addrs)
    requires forall j <- inodes :: inodes'[j].size == if j == i && at > inodes[j].size then at else inodes[j].size
    ensures Content(inodes', blocks, i) == Written(Content(inodes0, blocks0, i), off, src[..g], at - off)
    ensures OthersSame(inodes0, blocks0, inodes', blocks, i)
  {
    SizeLeavesSlots(inodes, inodes', blocks);
    ContentHolds(inodes0, blocks0, i);
    SplicedHolds(inodes0, blocks0, inodes, inodes', blocks, i, off, src, at, g, Content(inodes0, blocks0, i));
    HoldsIsContent(inodes', blocks, i, Written(Content(inodes0, blocks0, i), off, src[..g], at - off));
    forall j: nat | j != i ensures ContentSame(inodes0, blocks0, inodes', blocks, j) {
      SameContent(inodes0, blocks0, inodes', blocks, j);
    }
  }

  lemma SplicedHolds(inodes0: Inodes, blocks0: Blocks, inodes: Inodes, inodes': Inodes, blocks: Blocks,
                     i: nat, off: nat, src: seq<nat>, at: nat, g: nat, c: seq<nat>)
    requires Holds(inodes0, blocks0, i, c) && off <= at <= off + g <= off + |src| && off <= |c|
    requires Wrote(inodes0, blocks0, inodes, blocks, i, off, src, g)
    requires i in inodes' && inodes'[i].size == (if at > |c| then at else |c|)
    requires forall x: nat :: Byte(inodes', blocks, i, x) == Byte(inodes, blocks, i, x)
    ensures Holds(inodes', blocks, i, Written(c, off, src[..g], at - off))
  {
    var s := src[..g];
    var t := Written(c, off, s, at - off);
    SpliceLength(c, off, s);
    forall x: nat ensures HoldsAt(inodes', blocks, i, t, x) {
      if x < |t| {
        SpliceAt(c, off, s, x);
        assert HoldsAt(inodes0, blocks0, i, c, x) && Byte(inodes', blocks, i, x) == Byte(inodes, blocks, i, x);
      }
    }
  }

  lemma SameContent(inodes: Inodes, blocks: Blocks, inodes': Inodes, blocks': Blocks, j: nat)
    requires j in inodes <==> j in inodes'
    requires j in inodes ==> inodes'[j].size == inodes[j].size
    requires forall x: nat :: Byte(inodes', blocks', j, x) == Byte(inodes, blocks, j, x)
    ensures Content(inodes', blocks', j) == Content(inodes, blocks, j)
  {
  }

  /** The first g bytes of src have been written at off, and k of them count; none if off lies past the end. */
  ghost predicate Spliced(c0: seq<nat>, c: seq<nat>, off: nat, src: seq<nat>, k: nat, g: nat)
    requires k <= g <= |src|
  {
    if off <= |c0| then c == Written(c0, off, src[..g], k) else c == c0 && k == g == 0
  }

  lemma NothingWritten(inodes: Inodes, blocks: Blocks, i: nat, off: nat, src: seq<nat>)
    ensures Spliced(Content(inodes, blocks, i), Content(inodes, blocks, i), off, src, 0, 0)
    ensures OthersSame(inodes, blocks, inodes, blocks, i)
  {
    var c := Content(inodes, blocks, i);
    if off <= |c| { SpliceLength(c, off, src[..0]); }
  }

  lemma SpliceMore(c: seq<nat>, off: nat, src: seq<nat>, k: nat, n: nat, g: nat)
    requires off <= |c| && k + n <= |src| && g <= n
    ensures off + k <= |Splice(c, off, src[..k])|
    ensures Splice(Splice(c, off, src[..k]), off + k, src[k..k + n][..g]) == Splice(c, off, src[..k + g])
  {
    assert src[k..k + n][..g] == src[k..k + g];
    assert src[..k] + src[k..k + g] == src[..k + g];
  }

  lemma WrittenAll(c: seq<nat>, off: nat, s: seq<nat>)
    requires off <= |c|
    ensures Written(c, off, s, |s|) == Splice(c, off, s)
  {
    SpliceLength(c, off, s);
  }

  /** What writei does to the file c1: nothing, or g bytes of src in the blocks of which the size covers r. */
  ghost predicate ChunkResult(c1: seq<nat>, c2: seq<nat>, off: nat, src: seq<nat>, r: int, g: nat, good: nat) {
    if r < 0 then c2 == c1
    else && off <= |c1| && r <= g <= |src| && (r < g ==> r < good == g < |src|)
         && c2 == Written(c1, off, src[..g], r)
  }

  /** A chunk carries the write of src from k to k'. */
  lemma ChunkSpliced(c0: seq<nat>, c1: seq<nat>, c2: seq<nat>, off: nat, at: nat, src: seq<nat>, piece: seq<nat>,
                     k: nat, r: int, g: nat, good: nat, whole: nat, k': nat)
    returns (g': nat)
    requires at == off + k && k + |piece| <= |src| && piece == src[k..k + |piece|] && r <= |piece|
    requires Spliced(c0, c1, off, src, k, k) && ChunkResult(c1, c2, at, piece, r, g, whole)
    requires whole == (if good > k then good - k else 0) && k' == k + (if r > 0 then r else 0)
    ensures k' <= g' <= |src| && Spliced(c0, c2, off, src, k', g')
    ensures (k' < g' ==> g' == good < |src|) && (r == |piece| ==> g' == k')
  {
    g' := k + if r >= 0 then g else 0;
    if r >= 0 && off <= |c0| {
      WrittenAll(c0, off, src[..k]);
      SpliceMore(c0, off, src, k, |piece|, g);
      SpliceLength(c0, off, src[..k]);
      SpliceLength(c0, off, src[..k + g]);
    }
  }

  lemma SubsetSize(a: set<nat>, b: set<nat>)
    requires a <= b
    ensures |a| <= |b|
  {
    assert b == a + (b - a);
  }

  lemma SpliceLength(c: seq<nat>, off: nat, s: seq<nat>)
    requires off <= |c|
    ensures |Splice(c, off, s)| == if off + |s| > |c| then off + |s| else |c|
  {
  }

  lemma SpliceAt(c: seq<nat>, off: nat, s: seq<nat>, x: nat)
    requires off <= |c| && x < |Splice(c, off, s)|
    ensures Splice(c, off, s)[x] == if off <= x < off + |s| then s[x - off] else c[x]
  {
  }

  /** After k turns of writei's loop: where it is if it goes on, and how many data and bitmap blocks it has logged. */
  ghost predicate Turns(off: nat, at: nat, end: nat, k: nat, datas: set<nat>, bits: set<nat>, indirect: bool,
                        going: bool) {
    && (going ==> (k == 0 ==> at == off) && (k > 0 && at < end ==> at % 1024 == 0 && at / 1024 == off / 1024 + k))
    && (k > 0 ==> (off / 1024 + k - 1) * 1024 < end)
    && |datas| <= k && |bits| <= k - (if off % 1024 != 0 && k > 0 then 1 else 0) + (if indirect then 1 else 0)
  }

  /** d0 is the indirect block at the start and d the one now. */
  ghost predicate Ledger(off: nat, at: nat, end: nat, k: nat, datas: set<nat>, bits: set<nat>, d0: nat, d: nat,
                         going: bool) {
    (d0 != 0 ==> d == d0) && Turns(off, at, end, k, datas, bits, d0 == 0 && d != 0, going)
  }

  lemma AtMostNine(off: nat, at: nat, end: nat, k: nat, datas: set<nat>, bits: set<nat>, d0: nat, d: nat, going: bool,
                   ind: set<nat>)
    requires Ledger(off, at, end, k, datas, bits, d0, d, going) && |ind| <= (if d != 0 then 1 else 0)
    ensures end <= off + 3072 ==> |datas + bits + ind| <= 9
  {
    assert |datas + bits + ind| <= |datas| + |bits| + |ind|;
  }

  lemma TurnStep(off: nat, at: nat, at': nat, end: nat, k: nat, datas: set<nat>, bits: set<nat>, b: nat, more: set<nat>,
                 d0: nat, d1: nat, d2: nat, mapped: bool, did: bool, ok: bool)
    requires Turns(off, at, end, k, datas, bits, d0 == 0 && d1 != 0, true) && off <= at < end
    requires (d1 != 0 ==> d2 == d1) && (d0 != 0 ==> d1 == d0)
    requires |more| <= (if !mapped && did then 1 else 0) + (if d1 == 0 && d2 != 0 then 1 else 0)
    requires off % 1024 != 0 && at == off ==> mapped
    requires ok ==> did && at < at' && (at' < end ==> at' % 1024 == 0 && at' / 1024 == at / 1024 + 1)
    ensures Turns(off, at', end, if did then k + 1 else k, if did then datas + {b} else datas, bits + more,
                  d0 == 0 && d2 != 0, ok)
  {
    assert |bits + more| <= |bits| + |more| && |datas + {b}| <= |datas| + 1;
  }

  /** The only new owners are file block n of inode i and its indirect block. */
  ghost predicate OwnersGrow(owner: map<nat, Slot>, owner': map<nat, Slot>, i: nat, n: nat) {
    && (forall b <- owner :: b in owner' && owner'[b] == owner[b])
    && (forall b <- owner' ::
        b in owner || owner'[b] == (i, NDIRECT) || owner'[b] == (i, if n < NDIRECT then n else n + 1))
  }
}
