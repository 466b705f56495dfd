/** kernel/log.c over the buffer cache: the loops of commit() and recover_from_log(), proved
    to make exactly the write sequences of RedoLog, in order. */
module LogCode {
  import opened Bcache
  import opened RedoLog

  /** Buffer p is pinned for block b. */
  ghost predicate Pinned(bufs: seq<Buf>, p: nat, b: nat) {
    p < |bufs| && Caches(bufs[p], b) && bufs[p].valid && bufs[p].refcnt > 0
  }

  /** The log's own blocks are used by nobody else between its calls. */
  ghost predicate LogAreaIdle(bufs: seq<Buf>, start: nat) {
    forall i | 0 <= i < |bufs| && bufs[i].refcnt > 0 :: !InLog(start, bufs[i].blockno)
  }

  /** Entries of lh from t on are distinct home blocks with a pinned buffer each. */
  ghost predicate Entries(bufs: seq<Buf>, disk: Disk, start: nat, lh: seq<nat>, pins: seq<nat>, t: nat) {
    && |pins| == |lh| <= LOGBLOCKS
    && (forall u | t <= u < |lh| :: Home(disk, start, lh[u]) && Pinned(bufs, pins[u], lh[u]))
    && forall u: nat, v: nat {:trigger BlocksDiffer(lh, u, v)} :: BlocksDiffer(lh, u, v)
  }

  ghost predicate BlocksDiffer(lh: seq<nat>, u: nat, v: nat) { u < v < |lh| ==> lh[u] != lh[v] }

  ghost function Values(bufs: seq<Buf>, pins: seq<nat>): (vals: seq<Block>)
    requires forall t | 0 <= t < |pins| :: pins[t] < |bufs|
    ensures |vals| == |pins| && forall t | 0 <= t < |pins| :: vals[t] == bufs[pins[t]].data
  {
    if pins == [] then [] else [bufs[pins[0]].data] + Values(bufs, pins[1..])
  }

  class Log {
    const bc: Cache
    const start: nat
    var lh: seq<nat>                // log.lh.block[0..n]
    ghost var pins: seq<nat>        // the buffer pinned for each entry

    constructor (bc: Cache, start: nat)
      ensures this.bc == bc && this.start == start && lh == [] && pins == []
    {
      this.bc, this.start, lh, pins := bc, start, [], [];
    }

    ghost predicate Ready()
      reads this, bc
    {
      bc.Valid() && Fits(bc.disk, start) && LogAreaIdle(bc.bufs, start)
    }

    /** Between rounds: entries from t on are pinned, and only their buffers are dirty. */
    ghost predicate ValidFrom(t: nat)
      reads this, bc
    {
      && Ready() && t <= |lh| && Entries(bc.bufs, bc.disk, start, lh, pins, t)
      && forall i <- bc.dirty :: i in pins[t..]
    }

    /** log_write for a held buffer: a block already logged is absorbed, a new one is appended
        and its buffer pinned. The size test comes first, so a full log panics (false) even
        for a block that would be absorbed. */
    method LogWrite(i: nat) returns (ok: bool)
      requires Ready() && Entries(bc.bufs, bc.disk, start, lh, pins, 0)
      requires i < NBUF && bc.bufs[i].refcnt > 0 && bc.bufs[i].valid
      modifies this, bc`bufs
      ensures ok <==> |old(lh)| < LOGBLOCKS
      ensures ok ==> Ready() && Entries(bc.bufs, bc.disk, start, lh, pins, 0) && i in pins
      ensures !ok || bc.bufs[i].blockno in old(lh) ==> lh == old(lh) && pins == old(pins) && bc.bufs == old(bc.bufs)
      ensures ok && bc.bufs[i].blockno !in old(lh) ==>
                && lh == old(lh) + [bc.bufs[i].blockno] && pins == old(pins) + [i]
                && bc.bufs == old(bc.bufs)[i := old(bc.bufs)[i].(refcnt := old(bc.bufs)[i].refcnt + 1)]
    {
      if |lh| >= LOGBLOCKS { return false; }
      ghost var b0, b := bc.bufs, bc.bufs[i].blockno;
      assert BufOk(b0[i], i, bc.disk, bc.dirty, bc.index);
      var t := 0;
      while t < |lh| && lh[t] != bc.bufs[i].blockno
        invariant t <= |lh| && b !in lh[..t]
      {
        t := t + 1;
      }
      if t == |lh| {
        bc.Bpin(i);
        AppendEntry(b0, bc.bufs, bc.disk, start, lh, pins, i);
        lh, pins := lh + [bc.bufs[i].blockno], pins + [i];
      } else {
        assert Pinned(b0, pins[t], lh[t]);
        assert BufOk(b0[pins[t]], pins[t], bc.disk, bc.dirty, bc.index);
      }
      return true;
    }

    /** bread log block `tail` and the pinned block it belongs to. Only a buffer nobody held
        is recycled for the log block; None is bget's panic. */
    method BreadPair(tail: nat) returns (r: Option<(nat, nat)>)
      requires Ready() && tail < |lh| <= LOGBLOCKS && tail < |pins|
      requires Home(bc.disk, start, lh[tail]) && Pinned(bc.bufs, pins[tail], lh[tail])
      modifies bc`bufs, bc`index
      ensures bc.Valid()
      ensures r.None? <==> Referenced(old(bc.bufs))
      ensures r.None? ==> bc.bufs == old(bc.bufs)
      ensures r.Some? ==>
                var (log, home) := r.value; var b0 := old(bc.bufs);
                && log < NBUF && home == pins[tail] && log != home && b0[log].refcnt == 0 && log !in bc.dirty
                && bc.bufs == b0[log := bc.bufs[log]][home := b0[home].(refcnt := b0[home].refcnt + 1)]
                && bc.bufs[log] == Buf(ROOTDEV, start + tail + 1, true, 1, bc.disk[start + tail + 1])
    {
      ghost var b0, p := bc.bufs, pins[tail];
      var x := bc.Bread(ROOTDEV, start + tail + 1);
      if x.None? { return None; }
      var log := x.value;
      assert log != p && b0[log].refcnt == 0 && log !in bc.dirty;
      assert Caches(bc.bufs[p], lh[tail]);
      x := bc.Bread(ROOTDEV, lh[tail]);
      return Some((log, x.value));
    }

    /** One round of write_log: a pinned block's data goes to log block `tail`. */
    method LogOne(tail: nat) returns (ok: bool)
      requires ValidFrom(0) && tail < |lh|
      modifies bc
      ensures ok <==> !Referenced(old(bc.bufs))
      ensures !ok ==> bc.disk == old(bc.disk) && bc.writes == old(bc.writes) && bc.bufs == old(bc.bufs)
      ensures ValidFrom(0) && SameHeld(old(bc.bufs), bc.bufs)
      ensures ok ==> var w := Write(start + tail + 1, old(bc.bufs)[pins[tail]].data);
                     bc.disk == old(bc.disk)[w.blockno := w.data] && bc.writes == old(bc.writes) + [w]
    {
      ghost var b0, d0 := bc.bufs, bc.disk;
      assert Pinned(b0, pins[tail], lh[tail]);
      var r := BreadPair(tail);
      if r.None? { return false; }
      var (to, from) := r.value;
      bc.Overwrite(to, bc.bufs[from].data);
      bc.BrelseBoth(from, to);
      assert bc.bufs == b0[to := bc.bufs[to]];
      HeldKeepsEntries(b0, bc.bufs, d0, bc.disk, start, lh, pins, 0);
      return true;
    }
  
    /** write_log(): every pinned block into the log area. */
    method WriteLog() returns (ok: bool)
      requires ValidFrom(0)
      modifies bc
      ensures ok <==> lh == [] || !Referenced(old(bc.bufs))
      ensures !ok ==> bc.disk == old(bc.disk) && bc.writes == old(bc.writes) && bc.bufs == old(bc.bufs)
      ensures ValidFrom(0) && SameHeld(old(bc.bufs), bc.bufs)
      ensures ok ==> var ws := LogWrites(start, Values(old(bc.bufs), pins));
                     bc.writes == old(bc.writes) + ws && bc.disk == Apply(old(bc.disk), ws)
    {
      ghost var ws := LogWrites(start, Values(bc.bufs, pins));
      forall t | 0 <= t < |lh| ensures ws[t] == Write(start + t + 1, bc.bufs[pins[t]].data) {
        assert Pinned(bc.bufs, pins[t], lh[t]);
      }
      ok := LogLoop(ws);
    }

    method LogLoop(ghost ws: seq<Write>) returns (ok: bool)
      requires ValidFrom(0) && |ws| == |lh|
      requires forall t | 0 <= t < |lh| :: ws[t] == Write(start + t + 1, bc.bufs[pins[t]].data)
      modifies bc
      ensures ok <==> lh == [] || !Referenced(old(bc.bufs))
      ensures !ok ==> bc.disk == old(bc.disk) && bc.writes == old(bc.writes) && bc.bufs == old(bc.bufs)
      ensures ValidFrom(0) && SameHeld(old(bc.bufs), bc.bufs)
      ensures ok ==> bc.writes == old(bc.writes) + ws && bc.disk == Apply(old(bc.disk), ws)
    {
      ghost var b0, d0, w0 := bc.bufs, bc.disk, bc.writes;
      var tail := 0;
      assert ws[..0] == [];
      while tail < |lh|
        invariant tail <= |lh| && ValidFrom(0) && SameHeld(b0, bc.bufs)
        invariant tail > 0 ==> !Referenced(b0)
        invariant bc.writes == w0 + ws[..tail] && bc.disk == Apply(d0, ws[..tail])
        invariant tail == 0 ==> bc.bufs == b0
      {
        assert Pinned(b0, pins[tail], lh[tail]);
        assert ws[tail] == Write(start + tail + 1, bc.bufs[pins[tail]].data);
        ok := LogOne(tail);
        if !ok { return; }
        ApplyPrefix(d0, w0, ws, tail);
        tail := tail + 1;
      }
      assert ws[..tail] == ws;
      ok := true;
    }

    /** write_head(): the in-memory header into the header block. */
    method WriteHead() returns (ok: bool)
      requires Ready() && |lh| <= LOGBLOCKS
      modifies bc
      ensures ok <==> !Referenced(old(bc.bufs))
      ensures !ok ==> bc.disk == old(bc.disk) && bc.writes == old(bc.writes) && bc.bufs == old(bc.bufs)
      ensures bc.Valid() && bc.dirty == old(bc.dirty) && SameHeld(old(bc.bufs), bc.bufs)
      ensures ok ==> var w := Write(start, Header(old(bc.disk)[start], lh));
                     bc.disk == old(bc.disk)[start := w.data] && bc.writes == old(bc.writes) + [w]
    {
      ghost var b0 := bc.bufs;
      var r := bc.Bread(ROOTDEV, start);
      if r.None? { return false; }
      var b := r.value;
      assert b0[b].refcnt == 0 && b !in bc.dirty;
      bc.Overwrite(b, Header(bc.bufs[b].data, lh));
      bc.Brelse(b);
      return true;
    }
  
    /** One round of install_trans(0): log block `tail` goes to its home and is unpinned. With
        an unreferenced buffer to read the log block into, bget cannot panic. */
    method InstallOne(tail: nat)
      requires Ready() && tail < |lh| <= LOGBLOCKS && tail < |pins| && !Referenced(bc.bufs)
      requires Home(bc.disk, start, lh[tail]) && Pinned(bc.bufs, pins[tail], lh[tail])
      modifies bc
      ensures bc.Valid()
      ensures bc.dirty == old(bc.dirty) - {pins[tail]} && Unpinned(old(bc.bufs), bc.bufs, pins[tail])
      ensures var w := Write(lh[tail], old(bc.disk)[start + tail + 1]);
              bc.disk == old(bc.disk)[w.blockno := w.data] && bc.writes == old(bc.writes) + [w]
    {
      var r := BreadPair(tail);
      var (log, dst) := r.value;
      bc.Overwrite(dst, bc.bufs[log].data);
      bc.Bunpin(dst);
      bc.BrelseBoth(log, dst);
    }

    method InstallRound(tail: nat)
      requires ValidFrom(tail) && tail < |lh| && !Referenced(bc.bufs)
      modifies bc
      ensures ValidFrom(tail + 1) && !Referenced(bc.bufs)
      ensures var w := Write(lh[tail], old(bc.disk)[start + tail + 1]);
              bc.disk == old(bc.disk)[w.blockno := w.data] && bc.writes == old(bc.writes) + [w]
    {
      ghost var b0, d0 := bc.bufs, bc.disk;
      assert Pinned(b0, pins[tail], lh[tail]) && Home(d0, start, lh[tail]);
      InstallOne(tail);
      UnpinKeepsEntries(b0, bc.bufs, d0, bc.disk, start, lh, pins, tail);
    }

    /** The loop of install_trans(0), for the writes ws it is about to make. */
    method InstallLoop(ghost ws: seq<Write>)
      requires ValidFrom(0) && !Referenced(bc.bufs) && Installs(bc.disk, start, lh, ws)
      modifies bc
      ensures ValidFrom(|lh|) && !Referenced(bc.bufs)
      ensures bc.writes == old(bc.writes) + ws && bc.disk == Apply(old(bc.disk), ws)
    {
      ghost var d0, w0 := bc.disk, bc.writes;
      var tail := 0;
      assert ws[..0] == [];
      while tail < |lh|
        invariant tail <= |lh| && ValidFrom(tail) && !Referenced(bc.bufs)
        invariant bc.writes == w0 + ws[..tail] && bc.disk == Apply(d0, ws[..tail])
      {
        InstallStep(tail, d0, w0, ws);
        tail := tail + 1;
      }
      assert ws[..tail] == ws;
    }

    method InstallStep(tail: nat, ghost d0: Disk, ghost w0: seq<Write>, ghost ws: seq<Write>)
      requires ValidFrom(tail) && tail < |lh| && !Referenced(bc.bufs) && Installs(d0, start, lh, ws)
      requires bc.writes == w0 + ws[..tail] && bc.disk == Apply(d0, ws[..tail])
      modifies bc
      ensures ValidFrom(tail + 1) && !Referenced(bc.bufs)
      ensures bc.writes == w0 + ws[..tail + 1] && bc.disk == Apply(d0, ws[..tail + 1])
    {
      InstallLeavesLog(d0, start, ws, tail, start + tail + 1);
      assert ws[tail] == Write(lh[tail], d0[start + tail + 1]);
      InstallRound(tail);
      ApplyPrefix(d0, w0, ws, tail);
    }

    /** install_trans(0). */
    method InstallTrans()
      requires ValidFrom(0) && !Referenced(bc.bufs)
      modifies bc
      ensures ValidFrom(|lh|) && !Referenced(bc.bufs)
      ensures var ws := InstallFrom(old(bc.disk), start, lh);
              && bc.writes == old(bc.writes) + ws && bc.disk == Apply(old(bc.disk), ws)
              && bc.disk[start] == old(bc.disk)[start]
    {
      InstallIsHome(bc.bufs, bc.disk, start, lh, pins);
      ghost var ws := InstallFrom(bc.disk, start, lh);
      InstallLeavesLog(bc.disk, start, ws, |ws|, start);
      assert ws[..|ws|] == ws;
      InstallLoop(ws);
    }

    /** The first half of commit(): log blocks, then the header that commits them. */
    method LogPhase() returns (ok: bool)
      requires ValidFrom(0) && LogEmpty(bc.disk, start) && lh != []
      modifies bc
      ensures ok <==> !Referenced(old(bc.bufs))
      ensures !ok ==> bc.disk == old(bc.disk) && bc.writes == old(bc.writes)
      ensures ok ==>
                && ValidFrom(0) && !Referenced(bc.bufs)
                && var vals := Values(old(bc.bufs), pins);
                && bc.disk == HeaderWritten(old(bc.disk), start, lh, vals)
                && bc.writes == old(bc.writes) + LogWrites(start, vals)
                               + [Write(start, Header(old(bc.disk)[start], lh))]
    {
      ghost var d0, vals := bc.disk, Values(bc.bufs, pins);
      IsTransaction(bc.bufs, d0, start, lh, pins);
      ok := WriteLog();
      if !ok { return; }
      ghost var b1, d1 := bc.bufs, bc.disk;
      ok := WriteHead();
      HeldKeepsEntries(b1, bc.bufs, d1, bc.disk, start, lh, pins, 0);
      AfterHeader(d0, d1, bc.disk, start, lh, vals);
    }

    /** The second half of commit(): home blocks, then the empty header. */
    method InstallPhase()
      requires ValidFrom(0) && !Referenced(bc.bufs) && lh != []
      modifies this, bc
      ensures lh == [] && ValidFrom(0)
      ensures bc.disk == Apply(old(bc.disk), InstallAndClear(old(bc.disk), start, old(lh)))
      ensures bc.writes == old(bc.writes) + InstallAndClear(old(bc.disk), start, old(lh))
    {
      ghost var d2, w2, ws := bc.disk, bc.writes, InstallFrom(bc.disk, start, lh);
      InstallTrans();
      lh, pins := [], [];
      var ok := WriteHead();
      ClearLast(d2, w2, start, ws, Header(d2[start], []));
    }

    /** commit(): either completes with exactly the writes of RedoLog.CommitWrites, or panics in
        bget before writing anything, the latter exactly when the transaction is not empty and
        every buffer is referenced (a full log of 30 blocks pins all 30 buffers). What users of
        the cache see of the home blocks does not change. */
    method Commit() returns (ok: bool)
      requires ValidFrom(0) && LogEmpty(bc.disk, start)
      modifies this, bc
      ensures ok <==> old(lh) == [] || !Referenced(old(bc.bufs))
      ensures !ok ==> bc.disk == old(bc.disk) && bc.writes == old(bc.writes)
      ensures ok ==>
                && lh == [] && ValidFrom(0) && LogEmpty(bc.disk, start)
                && var ws := CommitWrites(old(bc.disk)[start], start, old(lh), Values(old(bc.bufs), old(pins)));
                && bc.writes == old(bc.writes) + ws && bc.disk == Apply(old(bc.disk), ws)
      ensures ok ==> SameHome(bc.store, old(bc.store), start)
    {
      if |lh| == 0 { return true; }
      ghost var d0, w0, vals, lh0 := bc.disk, bc.writes, Values(bc.bufs, pins), lh;
      IsTransaction(bc.bufs, d0, start, lh, pins);
      ok := LogPhase();
      if !ok { return; }
      ghost var d2, w2 := bc.disk, bc.writes;
      CommitPhases(d0, d2, w0, w2, start, lh0, vals);
      InstallPhase();
      StoreAfterCommit(old(bc.bufs), d0, old(bc.dirty), old(bc.index), old(bc.store), start, lh0, old(pins));
      assert bc.dirty == {};
      CleanIsStored(bc.bufs, bc.disk, bc.dirty, bc.index, bc.store);
    }
  
    /** Nothing in the cache is in use, as at boot. */
    ghost predicate Boot()
      reads this, bc
    {
      bc.Valid() && Fits(bc.disk, start) && forall i | 0 <= i < NBUF :: bc.bufs[i].refcnt == 0
    }

    /** bread log block `tail` and its home block into a cache nobody uses. */
    method BreadBoth(tail: nat) returns (log: nat, home: nat)
      requires Boot() && tail < |lh| <= LOGBLOCKS && Home(bc.disk, start, lh[tail])
      modifies bc`bufs, bc`index
      ensures bc.Valid() && log < NBUF && home < NBUF && log != home
      ensures bc.bufs[log] == Buf(ROOTDEV, start + tail + 1, true, 1, bc.disk[start + tail + 1])
      ensures Caches(bc.bufs[home], lh[tail]) && bc.bufs[home].valid && bc.bufs[home].refcnt == 1
      ensures forall i | 0 <= i < NBUF && i != log && i != home :: bc.bufs[i].refcnt == 0
    {
      assert bc.bufs[0].refcnt == 0;
      var r := bc.Bread(ROOTDEV, start + tail + 1);
      log := r.value;
      assert bc.bufs[if log == 0 then 1 else 0].refcnt == 0;
      r := bc.Bread(ROOTDEV, lh[tail]);
      home := r.value;
    }

    /** One round of install_trans(1). */
    method RecoverOne(tail: nat)
      requires Boot() && tail < |lh| <= LOGBLOCKS && Home(bc.disk, start, lh[tail])
      modifies bc
      ensures Boot()
      ensures var w := Write(lh[tail], old(bc.disk)[start + tail + 1]);
              bc.disk == old(bc.disk)[w.blockno := w.data] && bc.writes == old(bc.writes) + [w]
    {
      UnusedIsClean(bc.bufs, bc.disk, bc.dirty, bc.index);
      var log, dst := BreadBoth(tail);
      bc.Overwrite(dst, bc.bufs[log].data);
      bc.BrelseBoth(log, dst);
    }

    method RecoverLoop(ghost ws: seq<Write>)
      requires Boot() && |lh| <= LOGBLOCKS && forall t | 0 <= t < |lh| :: Home(bc.disk, start, lh[t])
      requires |ws| == |lh| && forall t | 0 <= t < |lh| :: ws[t] == Write(lh[t], bc.disk[start + t + 1])
      requires forall w <- ws :: !InLog(start, w.blockno)
      modifies bc
      ensures Boot() && bc.writes == old(bc.writes) + ws && bc.disk == Apply(old(bc.disk), ws)
    {
      ghost var d0, w0 := bc.disk, bc.writes;
      var tail := 0;
      assert ws[..0] == [];
      while tail < |lh|
        invariant tail <= |lh| && Boot()
        invariant bc.writes == w0 + ws[..tail] && bc.disk == Apply(d0, ws[..tail])
      {
        assert Home(d0, start, lh[tail]);
        InstallLeavesLog(d0, start, ws, tail, start + tail + 1);
        RecoverOne(tail);
        ApplyPrefix(d0, w0, ws, tail);
        tail := tail + 1;
      }
      assert ws[..tail] == ws;
    }

    /** read_head(): the header block into the in-memory header. */
    method ReadHead()
      requires Boot() && Recoverable(bc.disk, start)
      modifies this`lh, bc
      ensures Boot() && bc.disk == old(bc.disk) && bc.writes == old(bc.writes) && lh == Logged(old(bc.disk)[start])
    {
      assert bc.bufs[0].refcnt == 0;
      var r := bc.Bread(ROOTDEV, start);
      var b := r.value;
      assert bc.bufs[b].data == bc.disk[start];
      lh := Logged(bc.bufs[b].data);
      bc.Brelse(b);
    }

    /** recover_from_log(): exactly the writes of RedoLog.RecoveryWrites. */
    method Recover()
      requires Boot() && Recoverable(bc.disk, start)
      modifies this, bc
      ensures Boot() && lh == [] && LogEmpty(bc.disk, start)
      ensures bc.disk == Recovered(old(bc.disk), start)
      ensures bc.writes == old(bc.writes) + RecoveryWrites(old(bc.disk), start)
    {
      ghost var d0, w0 := bc.disk, bc.writes;
      ReadHead();
      ghost var ws := InstallFrom(d0, start, lh);
      RecoveryInstalls(d0, start);
      RecoverLoop(ws);
      lh, pins := [], [];
      assert bc.bufs[0].refcnt == 0;
      var ok := WriteHead();
      ClearLast(d0, w0, start, ws, Header(d0[start], []));
      HeaderRoundTrip(d0[start], []);
    }
  }

  lemma CleanIsStored(bufs: seq<Buf>, disk: Disk, dirty: set<nat>, index: map<nat, nat>, store: Disk)
    requires Coherent(bufs, disk, dirty, index) && StoreOk(bufs, disk, store) && dirty == {}
    ensures store == disk
  {
    forall n: nat | n < |disk| ensures store[n] == disk[n] { UnmodifiedIsStored(bufs, disk, dirty, index, store, n); }
  }

  lemma UnmodifiedIsStored(bufs: seq<Buf>, disk: Disk, dirty: set<nat>, index: map<nat, nat>, store: Disk, n: nat)
    requires Coherent(bufs, disk, dirty, index) && StoreOk(bufs, disk, store) && n < |disk|
    requires forall i <- dirty :: !Caches(bufs[i], n)
    ensures store[n] == disk[n]
  {
    assert StoreAt(bufs, disk, store, n);
    if i :| 0 <= i < NBUF && Caches(bufs[i], n) && bufs[i].valid {
      assert BufOk(bufs[i], i, disk, dirty, index);
      CoherentIsUnique(bufs, disk, dirty, index);
      LogicalOfCached(bufs, disk, i);
    } else {
      LogicalOfUncached(bufs, disk, n);
    }
  }

  /** The home blocks a commit leaves on disk are those of the store before it. */
  lemma StoreAfterCommit(bufs: seq<Buf>, d: Disk, dirty: set<nat>, index: map<nat, nat>, store: Disk, start: nat,
                         lh: seq<nat>, pins: seq<nat>)
    requires Coherent(bufs, d, dirty, index) && StoreOk(bufs, d, store) && LogEmpty(d, start)
    requires Entries(bufs, d, start, lh, pins, 0) && forall i <- dirty :: i in pins
    ensures SameHome(Apply(d, CommitWrites(d[start], start, lh, Values(bufs, pins))), store, start)
  {
    var vals := Values(bufs, pins);
    IsTransaction(bufs, d, start, lh, pins);
    CommitFinished(d, start, lh, vals);
    CoherentIsUnique(bufs, d, dirty, index);
    forall b: nat | b < |d| && !InLog(start, b) ensures Committed(d, lh, vals)[b] == store[b] {
      CommittedIs(d, start, lh, vals, b);
      if t :| 0 <= t < |lh| && lh[t] == b {
        assert Pinned(bufs, pins[t], lh[t]);
        CachedIsStore(bufs, d, store, pins[t]);
      } else {
        forall i <- dirty ensures !Caches(bufs[i], b) { PinnedIsLogged(bufs, d, start, lh, pins, i); }
        UnmodifiedIsStored(bufs, d, dirty, index, store, b);
      }
    }
  }

  lemma PinnedIsLogged(bufs: seq<Buf>, d: Disk, start: nat, lh: seq<nat>, pins: seq<nat>, i: nat)
    requires Entries(bufs, d, start, lh, pins, 0) && i in pins
    ensures i < |bufs| && bufs[i].blockno in lh
  {
    var t :| 0 <= t < |pins| && pins[t] == i;
    assert Pinned(bufs, pins[t], lh[t]);
  }

  lemma RecoveryInstalls(d: Disk, start: nat)
    requires Recoverable(d, start)
    ensures var lh := Logged(d[start]); var ws := InstallFrom(d, start, lh);
            && RecoveryWrites(d, start) == ws + [Write(start, Header(d[start], []))]
            && (forall t | 0 <= t < |lh| :: Home(d, start, lh[t]) && ws[t] == Write(lh[t], d[start + t + 1]))
            && (forall w <- ws :: !InLog(start, w.blockno))
            && Apply(d, ws)[start] == d[start]
  {
    var lh := Logged(d[start]);
    var ws := InstallFrom(d, start, lh);
    forall t | 0 <= t < |lh| ensures Home(d, start, lh[t]) { assert lh[t] in lh; }
    InstallLeavesLog(d, start, ws, |ws|, start);
    assert ws[..|ws|] == ws;
  }

  /** The writes of install_trans for the log area of disk d. */
  ghost function InstallFrom(d: Disk, start: nat, lh: seq<nat>): seq<Write>
    requires |lh| <= LOGBLOCKS && Fits(d, start)
  {
    InstallWrites(lh, d[start + 1..start + 1 + |lh|])
  }

  /** What commit() still writes once the header of lh is on disk d. */
  ghost function InstallAndClear(d: Disk, start: nat, lh: seq<nat>): seq<Write>
    requires |lh| <= LOGBLOCKS && Fits(d, start)
  {
    InstallFrom(d, start, lh) + [Write(start, Header(d[start], []))]
  }

  lemma ClearLast(d: Disk, before: seq<Write>, start: nat, ws: seq<Write>, h: Block)
    requires start < |d|
    ensures before + (ws + [Write(start, h)]) == before + ws + [Write(start, h)]
    ensures Apply(d, ws + [Write(start, h)]) == Apply(d, ws)[start := h]
  {
    assert (ws + [Write(start, h)])[..|ws|] == ws;
  }

  lemma AfterHeader(d: Disk, d1: Disk, d2: Disk, start: nat, lh: seq<nat>, vals: seq<Block>)
    requires LogEmpty(d, start) && Transaction(d, start, lh, vals)
    requires d1 == Apply(d, LogWrites(start, vals)) && d2 == d1[start := Header(d1[start], lh)]
    ensures d1[start] == d[start] && d2 == HeaderWritten(d, start, lh, vals) && d2[start + 1..start + 1 + |lh|] == vals
    ensures Apply(d, LogWrites(start, vals) + [Write(start, d2[start])]) == d2
  {
    BeforeHeader(d, start, lh, vals, |lh|);
    assert LogWrites(start, vals)[..|lh|] == LogWrites(start, vals);
    HeaderWrittenIs(d, start, lh, vals);
    HeaderRoundTrip(d[start], lh);
    assert d2[start + 1..start + 1 + |lh|] == LogContents(d2, start);
  }

  /** The two halves of commit() compose to CommitWrites. */
  lemma CommitPhases(d: Disk, d2: Disk, w0: seq<Write>, w2: seq<Write>, start: nat, lh: seq<nat>, vals: seq<Block>)
    requires LogEmpty(d, start) && Transaction(d, start, lh, vals) && lh != []
    requires d2 == HeaderWritten(d, start, lh, vals)
    requires w2 == w0 + LogWrites(start, vals) + [Write(start, Header(d[start], lh))]
    ensures var ws, all := InstallAndClear(d2, start, lh), CommitWrites(d[start], start, lh, vals);
            Apply(d2, ws) == Apply(d, all) && LogEmpty(Apply(d2, ws), start) && w2 + ws == w0 + all
  {
    var ws, a := InstallAndClear(d2, start, lh), LogWrites(start, vals) + [Write(start, Header(d[start], lh))];
    CommitSplits(d, d2, start, lh, vals, a, ws);
    ApplyConcat(d, a, ws);
    Regroup(w0, LogWrites(start, vals), [Write(start, Header(d[start], lh))], ws);
  }

  lemma Regroup(w0: seq<Write>, x: seq<Write>, y: seq<Write>, ws: seq<Write>)
    ensures w0 + x + y + ws == w0 + (x + y + ws)
  {
  }

  lemma CommitSplits(d: Disk, d2: Disk, start: nat, lh: seq<nat>, vals: seq<Block>, a: seq<Write>, ws: seq<Write>)
    requires LogEmpty(d, start) && Transaction(d, start, lh, vals) && lh != []
    requires d2 == HeaderWritten(d, start, lh, vals) && ws == InstallAndClear(d2, start, lh)
    requires a == LogWrites(start, vals) + [Write(start, Header(d[start], lh))]
    ensures CommitWrites(d[start], start, lh, vals) == a + ws && Apply(d, a) == d2 && LogEmpty(Apply(d2, ws), start)
  {
    CommitIsLogThenRecover(d, start, lh, vals);
    HeaderWrittenIs(d, start, lh, vals);
    InstallIsRecovery(d2, start, lh);
  }

  lemma InstallIsRecovery(d: Disk, start: nat, lh: seq<nat>)
    requires Recoverable(d, start) && Logged(d[start]) == lh
    ensures InstallAndClear(d, start, lh) == RecoveryWrites(d, start) && LogEmpty(Recovered(d, start), start)
  {
    RecoveryInstalls(d, start);
    RecoverAgain(d, start);
    HeaderRoundTrip(d[start], []);
  }

  lemma IsTransaction(bufs: seq<Buf>, d: Disk, start: nat, lh: seq<nat>, pins: seq<nat>)
    requires Entries(bufs, d, start, lh, pins, 0)
    ensures Transaction(d, start, lh, Values(bufs, pins))
  {
    forall t: nat, u: nat | t < u < |lh| ensures lh[t] != lh[u] { assert BlocksDiffer(lh, t, u); }
  }

  lemma InstallIsHome(bufs: seq<Buf>, d: Disk, start: nat, lh: seq<nat>, pins: seq<nat>)
    requires Fits(d, start) && Entries(bufs, d, start, lh, pins, 0)
    ensures Installs(d, start, lh, InstallFrom(d, start, lh))
  {
    forall t | 0 <= t < |lh| ensures Home(d, start, lh[t]) { assert Pinned(bufs, pins[t], lh[t]); }
  }

  /** ws copies the log blocks of d to the home blocks lh. */
  ghost predicate Installs(d: Disk, start: nat, lh: seq<nat>, ws: seq<Write>) {
    && |ws| == |lh| <= LOGBLOCKS && Fits(d, start) && (forall w <- ws :: !InLog(start, w.blockno) && w.blockno < |d|)
    && forall t {:trigger ws[t]} | 0 <= t < |lh| :: ws[t] == Write(lh[t], d[start + t + 1])
  }

  lemma InstallLeavesLog(d: Disk, start: nat, ws: seq<Write>, k: nat, b: nat)
    requires k <= |ws| && b < |d| && InLog(start, b) && forall w <- ws :: !InLog(start, w.blockno)
    ensures Apply(d, ws[..k])[b] == d[b]
  {
    forall w <- ws[..k] ensures w.blockno != b { assert w in ws; }
    ApplyUntouched(d, ws[..k], b);
  }

  /** Buffer p lost one reference; every other buffer is as in SameHeld. */
  ghost predicate Unpinned(a: seq<Buf>, b: seq<Buf>, p: nat) {
    && |a| == |b| && p < |a| && b[p].refcnt == a[p].refcnt - 1 && b[p].blockno == a[p].blockno
    && forall i | 0 <= i < |a| && i != p :: a[i].refcnt == b[i].refcnt && (a[i].refcnt > 0 ==> a[i] == b[i])
  }

  lemma UnpinKeepsEntries(a: seq<Buf>, b: seq<Buf>, d: Disk, e: Disk, start: nat, lh: seq<nat>, pins: seq<nat>, t: nat)
    requires |d| == |e| && t < |lh| && Entries(a, d, start, lh, pins, t) && LogAreaIdle(a, start)
    requires Unpinned(a, b, pins[t])
    ensures Entries(b, e, start, lh, pins, t + 1) && LogAreaIdle(b, start)
    ensures !Referenced(a) ==> !Referenced(b)
  {
    forall u | t < u < |lh| ensures Home(e, start, lh[u]) && Pinned(b, pins[u], lh[u]) {
      assert Pinned(a, pins[u], lh[u]) && Pinned(a, pins[t], lh[t]) && Home(d, start, lh[u]) && BlocksDiffer(lh, t, u);
    }
  }

  lemma AppendEntry(a: seq<Buf>, b: seq<Buf>, d: Disk, start: nat, lh: seq<nat>, pins: seq<nat>, i: nat)
    requires Entries(a, d, start, lh, pins, 0) && LogAreaIdle(a, start) && |lh| < LOGBLOCKS
    requires i < |a| && a[i].valid && a[i].refcnt > 0 && Home(d, start, a[i].blockno) && a[i].dev == ROOTDEV
    requires a[i].blockno !in lh && b == a[i := a[i].(refcnt := a[i].refcnt + 1)]
    ensures Entries(b, d, start, lh + [a[i].blockno], pins + [i], 0) && LogAreaIdle(b, start)
  {
    var lh', pins' := lh + [a[i].blockno], pins + [i];
    forall u | 0 <= u < |lh'| ensures Home(d, start, lh'[u]) && Pinned(b, pins'[u], lh'[u]) {
      if u < |lh| { assert Home(d, start, lh[u]) && Pinned(a, pins[u], lh[u]); }
    }
    forall u: nat, v: nat ensures BlocksDiffer(lh', u, v) { assert BlocksDiffer(lh, u, v); }
  }

  lemma HeldKeepsEntries(a: seq<Buf>, b: seq<Buf>, d: Disk, e: Disk, start: nat, lh: seq<nat>, pins: seq<nat>, t: nat)
    requires SameHeld(a, b) && |d| == |e| && Entries(a, d, start, lh, pins, t) && LogAreaIdle(a, start)
    ensures Entries(b, e, start, lh, pins, t) && LogAreaIdle(b, start)
  {
    forall u | t <= u < |lh| ensures Home(e, start, lh[u]) && Pinned(b, pins[u], lh[u]) {
      assert Home(d, start, lh[u]) && Pinned(a, pins[u], lh[u]);
    }
  }

  /** References are as before, and buffers that were referenced are untouched. */
  ghost predicate SameHeld(a: seq<Buf>, b: seq<Buf>) {
    |a| == |b| && forall i | 0 <= i < |a| :: a[i].refcnt == b[i].refcnt && (a[i].refcnt > 0 ==> a[i] == b[i])
  }
}
