/** Group commit as a state machine: any interleaving of begin_op, log_write and end_op by
    concurrent file system calls, buffers read and released by anybody, the single buffer reads,
    block writes and buffer releases of commit(), crashes at any point, and those of recovery (also
    cut short by further crashes). */
module GroupCommit {
  import opened Bcache
  import opened RedoLog

  const MAXOPBLOCKS: nat := 10

  /** One log_write by operation `op`. */
  datatype Update = Update(op: nat, blockno: nat, data: Block)

  /** An operation between begin_op and end_op, with the distinct blocks it has logged. */
  datatype Op = Op(id: nat, blocks: set<nat>)

  datatype Phase =
    | Idle
    | Committing(from: Disk, ws: seq<Write>, k: nat)
    | Recovering(from: Disk, ws: seq<Write>, k: nat)

  /** log_write's "too big a transaction", end_op's "log.committing" and bget's "no buffers". */
  datatype Panic = Fine | TooBig | InCommit | NoBuffers

  /** `held` are the home blocks whose buffers callers of bread hold; `mem` has the cached contents
      of the blocks in lh. `busy` are the blocks whose buffers commit or recovery holds for its next
      write, or after the write (`wrote`) has still to release. `committed` and `running` are the
      history: the updates before the last commit point, and those since. A panicked kernel does
      nothing until it is rebooted. */
  datatype State = State(
    disk: Disk, lh: seq<nat>, mem: map<nat, Block>, held: set<nat>, busy: seq<nat>, wrote: bool, ops: seq<Op>,
    phase: Phase, panic: Panic, nextId: nat, ended: set<nat>, committed: seq<Update>, running: seq<Update>)

  datatype Event =
    | Begin                                   // begin_op; without room it sleeps, so nothing changes
    | Read(blockno: nat)                      // bread by anybody, an operation or not
    | Release(blockno: nat)                   // the last holder's brelse
    | LogWrite(j: nat, blockno: nat, data: Block)   // log_write by the j-th outstanding operation
    | End(j: nat)                             // end_op; the last one starts the commit
    | Fetch                                   // the next bread of commit or recovery
    | DiskWrite                               // its bwrite, with all buffers at hand, and install_trans's bunpin
    | Drop                                    // its next brelse
    | Finish                                  // commit or recovery has made all its writes
    | Crash                                   // power failure, or the reboot after a panic

  function Values(lh: seq<nat>, mem: map<nat, Block>): (vals: seq<Block>)
    requires forall b <- lh :: b in mem
    ensures |vals| == |lh| && forall t | 0 <= t < |lh| :: vals[t] == mem[lh[t]]
  {
    if lh == [] then [] else [mem[lh[0]]] + Values(lh[1..], mem)
  }

  /** Clients read home blocks only, log blocks they hold, and call log_write only while they have
      logged fewer than MAXOPBLOCKS distinct blocks. */
  ghost predicate Follows(s: State, start: nat, e: Event) {
    && (e.Read? ==> Home(s.disk, start, e.blockno))
    && (e.LogWrite? && e.j < |s.ops| ==>
          e.blockno in s.held && Home(s.disk, start, e.blockno) && |s.ops[e.j].blocks| < MAXOPBLOCKS)
  }

  /** The blocks whose buffers the log has pinned: all of lh until the header is written, then those
      not installed yet. */
  function PinnedBlocks(s: State): set<nat> {
    match s.phase
    case Idle => Elements(s.lh)
    case Committing(_, _, k) =>
      var n := |s.lh|;
      Elements(if k <= n then s.lh else if k <= 2 * n + 1 then s.lh[k - n - 1..] else [])
    case Recovering(_, _, _) => {}
  }

  function Elements(lh: seq<nat>): set<nat> { set b | b in lh }

  /** What commit or recovery reads for its next write, in order: a log block and the home block, or the header. */
  function Needs(s: State, start: nat): seq<nat> {
    match s.phase
    case Idle => []
    case Committing(_, ws, k) =>
      var n := |s.lh|;
      if k >= |ws| then []
      else if k < n then [start + k + 1, s.lh[k]]
      else if n < k <= 2 * n then [start + k - n, s.lh[k - n - 1]]
      else [start]
    case Recovering(_, ws, k) =>
      if k >= |ws| then [] else if k + 1 < |ws| then [start + k + 1, ws[k].blockno] else [start]
  }

  /** The block whose buffer the next Fetch gets. */
  function Wants(s: State, start: nat): Option<nat> {
    if !s.wrote && |s.busy| < |Needs(s, start)| then Some(Needs(s, start)[|s.busy|]) else None
  }

  /** brelse after a write: write_log lets go of the log block last, install_trans of the home block. */
  function Dropped(s: State): State {
    if !s.wrote || s.busy == [] then s else
    var last := |s.busy| - 1;
    var rest := if s.phase.Committing? && s.phase.k <= |s.lh| then s.busy[..last] else s.busy[1..];
    s.(busy := rest, wrote := rest != [])
  }

  /** The blocks that have a referenced buffer. */
  function InUse(s: State): set<nat> { PinnedBlocks(s) + s.held + Elements(s.busy) }

  /** Every buffer is referenced. */
  predicate Full(s: State) { |InUse(s)| >= NBUF }

  /** The event calls bget for a block that has no referenced buffer. */
  predicate NeedsBuffer(s: State, start: nat, e: Event) {
    || (e.Read? && e.blockno !in InUse(s))
    || (e.Fetch? && Wants(s, start).Some? && Wants(s, start).value !in InUse(s))
  }

  /** log_write with absorption: a block already in lh is not added again. */
  function AfterLogWrite(s: State, j: nat, b: nat, data: Block): State
    requires j < |s.ops|
  {
    s.(lh := if b in s.lh then s.lh else s.lh + [b], mem := s.mem[b := data],
       ops := s.ops[j := s.ops[j].(blocks := s.ops[j].blocks + {b})],
       running := s.running + [Update(s.ops[j].id, b, data)])
  }

  /** The next write of commit or recovery; the header write of a commit is the commit point. */
  function AfterDiskWrite(s: State): State {
    match s.phase
    case Idle => s
    case Committing(from, ws, k) =>
      if k >= |ws| || ws[k].blockno >= |s.disk| then s else
      var s' := s.(disk := s.disk[ws[k].blockno := ws[k].data], phase := Committing(from, ws, k + 1), wrote := true);
      if k == |s.lh| then s'.(committed := s.committed + s.running, running := []) else s'
    case Recovering(from, ws, k) =>
      if k >= |ws| || ws[k].blockno >= |s.disk| then s else
      s.(disk := s.disk[ws[k].blockno := ws[k].data], phase := Recovering(from, ws, k + 1), wrote := true)
  }

  function Step(s: State, start: nat, e: Event): State
    requires Fits(s.disk, start) && |s.lh| <= LOGBLOCKS && (forall b <- s.lh :: b in s.mem)
    requires e.Crash? ==> Recoverable(s.disk, start)
  {
    if s.panic != Fine && !e.Crash? then s
    else if NeedsBuffer(s, start, e) && Full(s) then s.(panic := NoBuffers)
    else Effect(s, start, e)
  }

  /** What e does with enough buffers. */
  function Effect(s: State, start: nat, e: Event): State
    requires Fits(s.disk, start) && |s.lh| <= LOGBLOCKS && (forall b <- s.lh :: b in s.mem)
    requires e.Crash? ==> Recoverable(s.disk, start)
  {
    match e
    case Begin =>
      if !s.phase.Idle? || |s.lh| + (|s.ops| + 1) * MAXOPBLOCKS > LOGBLOCKS then s
      else s.(ops := s.ops + [Op(s.nextId, {})], nextId := s.nextId + 1)
    case Read(b) => s.(held := s.held + {b})
    case Release(b) => s.(held := s.held - {b})
    case LogWrite(j, b, data) =>
      if j >= |s.ops| then s
      else if |s.lh| >= LOGBLOCKS then s.(panic := TooBig)
      else AfterLogWrite(s, j, b, data)
    case End(j) =>
      if j >= |s.ops| then s
      else if !s.phase.Idle? then s.(panic := InCommit)
      else
        var s' := s.(ops := s.ops[..j] + s.ops[j+1..], ended := s.ended + {s.ops[j].id});
        if s'.ops != [] then s'
        else s'.(phase := Committing(s.disk, CommitWrites(s.disk[start], start, s.lh, Values(s.lh, s.mem)), 0))
    case Fetch => if Wants(s, start).None? then s else s.(busy := s.busy + [Wants(s, start).value])
    case DiskWrite => if s.wrote || s.busy == [] || |s.busy| != |Needs(s, start)| then s else AfterDiskWrite(s)
    case Drop => Dropped(s)
    case Finish =>
      if s.phase.Idle? || s.phase.k < |s.phase.ws| || s.busy != [] then s else s.(phase := Idle, lh := [], mem := map[])
    case Crash =>
      s.(lh := [], mem := map[], held := {}, busy := [], wrote := false, ops := [], running := [], panic := Fine,
         phase := Recovering(s.disk, RecoveryWrites(s.disk, start), 0))
  }

  // ---------- What the history says the disk should be ----------

  function Replay(base: Disk, us: seq<Update>): (r: Disk)
    ensures |r| == |base|
    decreases |us|
  {
    if us == [] then base else
    var r, u := Replay(base, us[..|us|-1]), us[|us|-1];
    if u.blockno < |r| then r[u.blockno := u.data] else r
  }

  /** Reservation still unused by the outstanding operations. */
  function Unused(ops: seq<Op>): int {
    if ops == [] then 0 else Unused(ops[..|ops|-1]) + MAXOPBLOCKS - |ops[|ops|-1].blocks|
  }

  /** mem over d gives the content the whole history prescribes. */
  ghost predicate Current(base: Disk, d: Disk, start: nat, mem: map<nat, Block>, us: seq<Update>) {
    |d| == |base| && forall b | 0 <= b < |d| && !InLog(start, b) ::
      (if b in mem then mem[b] else d[b]) == Replay(base, us)[b]
  }

  ghost predicate Pending(s: State, d: Disk, base: Disk, start: nat) {
    && LogEmpty(d, start) && SameHome(d, Replay(base, s.committed), start)
    && Current(base, d, start, s.mem, s.committed + s.running)
    && (forall b <- s.lh :: b in s.mem) && (forall b <- s.mem :: b in s.lh)
    && (s.lh == [] ==> s.running == [])
    && Transaction(d, start, s.lh, Values(s.lh, s.mem))
  }

  ghost predicate PhaseOk(s: State, base: Disk, start: nat) {
    match s.phase
    case Idle => Pending(s, s.disk, base, start) && (s.ops == [] ==> s.lh == [] && s.running == [])
    case Committing(from, ws, k) =>
      && s.ops == [] && LogEmpty(from, start)
      && (forall b <- s.lh :: b in s.mem) && Transaction(from, start, s.lh, Values(s.lh, s.mem))
      && ws == CommitWrites(from[start], start, s.lh, Values(s.lh, s.mem))
      && k <= |ws| && s.disk == Apply(from, ws[..k])
      && (if k <= |s.lh| && s.lh != [] then Pending(s, from, base, start)
          else s.running == []
                 && SameHome(Committed(from, s.lh, Values(s.lh, s.mem)), Replay(base, s.committed), start))
    case Recovering(from, ws, k) =>
      && s.ops == [] && s.lh == [] && s.running == [] && Recoverable(from, start)
      && ws == RecoveryWrites(from, start) && k <= |ws| && s.disk == Apply(from, ws[..k])
      && SameHome(Recovered(from, start), Replay(base, s.committed), start)
  }

  /** Every update belongs to an operation that began; no operation straddles the commit point. */
  ghost predicate HistoryOk(s: State) {
    && (forall i: nat {:trigger OpAt(s.ops, s.nextId, s.ended, i)} :: OpAt(s.ops, s.nextId, s.ended, i))
    && (forall i: nat, j: nat {:trigger IdsDiffer(s.ops, i, j)} :: IdsDiffer(s.ops, i, j))
    && (forall x: nat {:trigger EndedAt(s.ended, s.nextId, x)} :: EndedAt(s.ended, s.nextId, x))
    && (forall u: Update {:trigger CommittedAt(s.committed, s.ended, u)} :: CommittedAt(s.committed, s.ended, u))
    && (forall u: Update {:trigger RunningAt(s.running, s.ops, s.ended, u)} :: RunningAt(s.running, s.ops, s.ended, u))
    && (forall u: Update, v: Update {:trigger OpsDiffer(s.running, s.committed, u, v)} ::
        OpsDiffer(s.running, s.committed, u, v))
  }

  ghost predicate OpAt(ops: seq<Op>, nextId: nat, ended: set<nat>, i: nat) {
    i < |ops| ==> ops[i].id < nextId && ops[i].id !in ended
  }

  ghost predicate IdsDiffer(ops: seq<Op>, i: nat, j: nat) { i < j < |ops| ==> ops[i].id != ops[j].id }

  ghost predicate EndedAt(ended: set<nat>, nextId: nat, x: nat) { x in ended ==> x < nextId }

  ghost predicate CommittedAt(committed: seq<Update>, ended: set<nat>, u: Update) { u in committed ==> u.op in ended }

  ghost predicate RunningAt(running: seq<Update>, ops: seq<Op>, ended: set<nat>, u: Update) {
    u in running ==> u.op in ended || HasOp(ops, u.op)
  }

  ghost predicate HasOp(ops: seq<Op>, id: nat) { exists i | 0 <= i < |ops| :: ops[i].id == id }

  ghost predicate OpsDiffer(running: seq<Update>, committed: seq<Update>, u: Update, v: Update) {
    u in running && v in committed ==> u.op != v.op
  }

  ghost predicate SpaceOk(s: State) {
    && |s.lh| + Unused(s.ops) <= LOGBLOCKS
    && forall i: nat {:trigger WithinOp(s.ops, s.lh, i)} :: WithinOp(s.ops, s.lh, i)
  }

  ghost predicate WithinOp(ops: seq<Op>, lh: seq<nat>, i: nat) {
    i < |ops| ==> |ops[i].blocks| <= MAXOPBLOCKS && forall b <- ops[i].blocks :: b in lh
  }

  ghost predicate Inv(s: State, base: Disk, start: nat) {
    && s.panic in {Fine, NoBuffers} && |s.disk| == |base| && Fits(s.disk, start) && |s.lh| <= LOGBLOCKS
    && (forall b <- s.lh :: b in s.mem)
    && PhaseOk(s, base, start) && HistoryOk(s) && SpaceOk(s)
  }

  /** A booted system whose log is empty. */
  function Initial(d: Disk): State { State(d, [], map[], {}, [], false, [], Idle, Fine, 0, {}, [], []) }

  // ---------- Durability in every state ----------

  /** Recovering from a crash right now yields exactly the committed history. */
  lemma Durable(s: State, base: Disk, start: nat)
    requires Inv(s, base, start)
    ensures Recoverable(s.disk, start) && SameHome(Recovered(s.disk, start), Replay(base, s.committed), start)
  {
    match s.phase
    case Idle => EmptyRecovers(s.disk, start);
    case Committing(from, ws, k) =>
      var vals := Values(s.lh, s.mem);
      if k > |s.lh| {
        CrashAfterHeader(from, start, s.lh, vals, k);
      } else {
        CrashBeforeHeader(from, start, s.lh, vals, k);
        if s.lh == [] { assert Committed(from, s.lh, vals) == from; }
      }
    case Recovering(from, ws, k) => RecoveryCutShort(from, start, k);
  }

  // ---------- Reservation ----------

  lemma {:induction false} UnusedBound(ops: seq<Op>)
    requires forall i | 0 <= i < |ops| :: |ops[i].blocks| <= MAXOPBLOCKS
    ensures 0 <= Unused(ops) <= MAXOPBLOCKS * |ops|
    decreases |ops|
  {
    if ops == [] {
    } else {
      UnusedBound(ops[..|ops|-1]);
    }
  }

  lemma {:induction false} UnusedUpdate(ops: seq<Op>, j: nat, op: Op)
    requires j < |ops|
    ensures Unused(ops[j := op]) == Unused(ops) + |ops[j].blocks| - |op.blocks|
    decreases |ops|
  {
    var n := |ops| - 1;
    if j == n {
      assert ops[j := op][..n] == ops[..n];
    } else {
      assert ops[j := op][..n] == ops[..n][j := op];
      UnusedUpdate(ops[..n], j, op);
    }
  }

  lemma {:induction false} UnusedRemove(ops: seq<Op>, j: nat)
    requires j < |ops|
    ensures Unused(ops[..j] + ops[j+1..]) == Unused(ops) - (MAXOPBLOCKS - |ops[j].blocks|)
    decreases |ops|
  {
    var n := |ops| - 1;
    var r := ops[..j] + ops[j+1..];
    if j == n {
      assert r == ops[..n];
    } else {
      assert r[..n-1] == ops[..n][..j] + ops[..n][j+1..];
      UnusedRemove(ops[..n], j);
    }
  }

  /** An operation that may still log is never refused: the size panic is out of reach. */
  lemma RoomToLog(s: State, j: nat)
    requires SpaceOk(s) && j < |s.ops| && |s.ops[j].blocks| < MAXOPBLOCKS
    ensures |s.lh| < LOGBLOCKS
  {
    var rest := s.ops[..j] + s.ops[j+1..];
    UnusedRemove(s.ops, j);
    forall i | 0 <= i < |rest| ensures |rest[i].blocks| <= MAXOPBLOCKS {
      assert rest[i] == s.ops[if i < j then i else i + 1] && WithinOp(s.ops, s.lh, if i < j then i else i + 1);
    }
    UnusedBound(rest);
  }

  // ---------- Every event keeps the invariant ----------

  lemma BeginHistory(s: State)
    requires HistoryOk(s)
    ensures HistoryOk(s.(ops := s.ops + [Op(s.nextId, {})], nextId := s.nextId + 1))
  {
    var ops, next := s.ops + [Op(s.nextId, {})], s.nextId + 1;
    assert EndedAt(s.ended, s.nextId, s.nextId);
    forall i: nat ensures OpAt(ops, next, s.ended, i) { assert OpAt(s.ops, s.nextId, s.ended, i); }
    forall i: nat, j: nat ensures IdsDiffer(ops, i, j) {
      assert IdsDiffer(s.ops, i, j) && OpAt(s.ops, s.nextId, s.ended, i);
    }
    forall x: nat ensures EndedAt(s.ended, next, x) { assert EndedAt(s.ended, s.nextId, x); }
    forall u: Update ensures RunningAt(s.running, ops, s.ended, u) {
      assert RunningAt(s.running, s.ops, s.ended, u);
      if i :| 0 <= i < |s.ops| && s.ops[i].id == u.op { assert ops[i].id == u.op; }
    }
  }

  lemma BeginSpace(s: State)
    requires SpaceOk(s) && |s.lh| + (|s.ops| + 1) * MAXOPBLOCKS <= LOGBLOCKS
    ensures SpaceOk(s.(ops := s.ops + [Op(s.nextId, {})], nextId := s.nextId + 1))
  {
    var ops := s.ops + [Op(s.nextId, {})];
    forall i: nat ensures WithinOp(ops, s.lh, i) { assert WithinOp(s.ops, s.lh, i); }
    forall i | 0 <= i < |s.ops| ensures |s.ops[i].blocks| <= MAXOPBLOCKS { assert WithinOp(s.ops, s.lh, i); }
    UnusedBound(s.ops);
    assert ops[..|s.ops|] == s.ops;
  }

  /** An operation is under way, so no commit is. */
  lemma OpenIsIdle(s: State, base: Disk, start: nat)
    requires PhaseOk(s, base, start) && s.ops != []
    ensures s.phase.Idle? && Pending(s, s.disk, base, start)
  {
  }

  lemma IdleIsOk(s: State, base: Disk, start: nat)
    requires s.phase.Idle? && Pending(s, s.disk, base, start) && s.ops != []
    ensures PhaseOk(s, base, start) && forall b <- s.lh :: b in s.mem
  {
  }

  /** Which operations are open and have ended does not matter to what is pending. */
  lemma SamePending(s: State, s': State, base: Disk, start: nat)
    requires Pending(s, s.disk, base, start) && s' == s.(ops := s'.ops, nextId := s'.nextId, ended := s'.ended)
    ensures Pending(s', s'.disk, base, start)
  {
  }

  lemma BeginKeeps(s: State, s': State, base: Disk, start: nat)
    requires Inv(s, base, start) && s' == Effect(s, start, Begin)
    ensures Inv(s', base, start)
  {
    if s' != s {
      BeginHistory(s);
      BeginSpace(s);
      SamePending(s, s', base, start);
      IdleIsOk(s', base, start);
    }
  }

  lemma ReplaySnoc(base: Disk, us: seq<Update>, u: Update)
    requires u.blockno < |base|
    ensures Replay(base, us + [u]) == Replay(base, us)[u.blockno := u.data]
  {
    assert (us + [u])[..|us|] == us;
  }

  lemma LogWriteSpace(s: State, j: nat, b: nat, data: Block)
    requires SpaceOk(s) && j < |s.ops| && |s.ops[j].blocks| < MAXOPBLOCKS
    ensures SpaceOk(AfterLogWrite(s, j, b, data)) && |s.lh| < LOGBLOCKS
  {
    var s', op := AfterLogWrite(s, j, b, data), s.ops[j];
    RoomToLog(s, j);
    UnusedUpdate(s.ops, j, op.(blocks := op.blocks + {b}));
    assert WithinOp(s.ops, s.lh, j);
    if b in op.blocks { assert op.blocks + {b} == op.blocks; }
    assert b in s'.lh && forall x <- s.lh :: x in s'.lh;
    forall i: nat ensures WithinOp(s'.ops, s'.lh, i) { assert WithinOp(s.ops, s.lh, i); }
  }

  lemma LogWriteCurrent(s: State, base: Disk, start: nat, id: nat, b: nat, data: Block)
    requires Current(base, s.disk, start, s.mem, s.committed + s.running) && b < |base|
    ensures Current(base, s.disk, start, s.mem[b := data], s.committed + (s.running + [Update(id, b, data)]))
  {
    var u := Update(id, b, data);
    assert s.committed + (s.running + [u]) == (s.committed + s.running) + [u];
    ReplaySnoc(base, s.committed + s.running, u);
  }

  lemma LogWritePending(s: State, base: Disk, start: nat, j: nat, b: nat, data: Block)
    requires Pending(s, s.disk, base, start) && j < |s.ops| && |s.lh| < LOGBLOCKS && Home(s.disk, start, b)
    ensures Pending(AfterLogWrite(s, j, b, data), s.disk, base, start)
  {
    var s' := AfterLogWrite(s, j, b, data);
    LogWriteCurrent(s, base, start, s.ops[j].id, b, data);
    AbsorbKeeps(s.disk, start, s.lh, s.mem, b, data);
  }

  /** Absorption keeps lh duplicate-free and in step with mem. */
  lemma AbsorbKeeps(d: Disk, start: nat, lh: seq<nat>, mem: map<nat, Block>, b: nat, data: Block)
    requires (forall x <- lh :: x in mem) && (forall x <- mem :: x in lh) && Home(d, start, b) && |lh| < LOGBLOCKS
    requires Transaction(d, start, lh, Values(lh, mem))
    ensures var lh', mem' := if b in lh then lh else lh + [b], mem[b := data];
            && (forall x <- lh' :: x in mem') && (forall x <- mem' :: x in lh')
            && Transaction(d, start, lh', Values(lh', mem'))
  {
    var lh', mem' := if b in lh then lh else lh + [b], mem[b := data];
    assert b in lh';
    forall t | 0 <= t < |lh'| ensures lh'[t] in mem' && Home(d, start, lh'[t]) {
      if t < |lh| { assert lh[t] in lh && Home(d, start, lh[t]); }
    }
  }

  lemma LogWriteHistory(s: State, j: nat, b: nat, data: Block)
    requires HistoryOk(s) && j < |s.ops|
    ensures HistoryOk(AfterLogWrite(s, j, b, data))
  {
    var s' := AfterLogWrite(s, j, b, data);
    assert OpAt(s.ops, s.nextId, s.ended, j);
    forall i: nat ensures OpAt(s'.ops, s.nextId, s.ended, i) { assert OpAt(s.ops, s.nextId, s.ended, i); }
    forall i: nat, k: nat ensures IdsDiffer(s'.ops, i, k) { assert IdsDiffer(s.ops, i, k); }
    forall u: Update ensures RunningAt(s'.running, s'.ops, s.ended, u) {
      assert RunningAt(s.running, s.ops, s.ended, u);
      if i :| 0 <= i < |s.ops| && s.ops[i].id == u.op { assert s'.ops[i].id == u.op; }
      if u in s'.running && u !in s.running { assert s'.ops[j].id == u.op; }
    }
    forall u: Update, v: Update ensures OpsDiffer(s'.running, s.committed, u, v) {
      assert OpsDiffer(s.running, s.committed, u, v) && CommittedAt(s.committed, s.ended, v);
    }
  }

  lemma LogWriteKeeps(s: State, s': State, base: Disk, start: nat, j: nat, b: nat, data: Block)
    requires Inv(s, base, start) && j < |s.ops| && Home(s.disk, start, b) && |s.ops[j].blocks| < MAXOPBLOCKS
    requires s' == AfterLogWrite(s, j, b, data)
    ensures |s.lh| < LOGBLOCKS && Inv(s', base, start)
  {
    OpenIsIdle(s, base, start);
    LogWriteSpace(s, j, b, data);
    LogWritePending(s, base, start, j, b, data);
    LogWriteHistory(s, j, b, data);
    IdleIsOk(s', base, start);
  }

  lemma EndHistory(s: State, j: nat)
    requires HistoryOk(s) && j < |s.ops|
    ensures HistoryOk(s.(ops := s.ops[..j] + s.ops[j+1..], ended := s.ended + {s.ops[j].id}))
  {
    var ops, ended := s.ops[..j] + s.ops[j+1..], s.ended + {s.ops[j].id};
    assert OpAt(s.ops, s.nextId, s.ended, j);
    forall i: nat ensures OpAt(ops, s.nextId, ended, i) {
      var i' := if i < j then i else i + 1;
      assert OpAt(s.ops, s.nextId, s.ended, i') && IdsDiffer(s.ops, i', j) && IdsDiffer(s.ops, j, i');
    }
    forall i: nat, k: nat ensures IdsDiffer(ops, i, k) {
      assert IdsDiffer(s.ops, if i < j then i else i + 1, if k < j then k else k + 1);
    }
    forall x: nat ensures EndedAt(ended, s.nextId, x) { assert EndedAt(s.ended, s.nextId, x); }
    forall u: Update ensures CommittedAt(s.committed, ended, u) && RunningAt(s.running, ops, ended, u) {
      assert CommittedAt(s.committed, s.ended, u) && RunningAt(s.running, s.ops, s.ended, u);
      if i :| 0 <= i < |s.ops| && s.ops[i].id == u.op && u.op !in ended {
        assert ops[if i < j then i else i - 1].id == u.op;
      }
    }
  }

  lemma EndSpace(s: State, j: nat)
    requires SpaceOk(s) && j < |s.ops|
    ensures SpaceOk(s.(ops := s.ops[..j] + s.ops[j+1..]))
  {
    var ops := s.ops[..j] + s.ops[j+1..];
    assert WithinOp(s.ops, s.lh, j);
    UnusedRemove(s.ops, j);
    forall i: nat ensures WithinOp(ops, s.lh, i) { assert WithinOp(s.ops, s.lh, if i < j then i else i + 1); }
  }

  lemma CommitStarts(s: State, s': State, base: Disk, start: nat)
    requires Pending(s, s.disk, base, start) && s.ops == []
    requires s' == s.(phase := Committing(s.disk, CommitWrites(s.disk[start], start, s.lh, Values(s.lh, s.mem)), 0))
    ensures PhaseOk(s', base, start)
  {
    assert s'.phase.ws[..0] == [];
    PendingIn(s, s', s.disk, base, start);
    if s.lh == [] { assert Committed(s.disk, s.lh, Values(s.lh, s.mem)) == s.disk; }
  }

  lemma PendingIn(s: State, s': State, d: Disk, base: Disk, start: nat)
    requires Pending(s, d, base, start) && s'.lh == s.lh && s'.mem == s.mem
    requires s'.committed == s.committed && s'.running == s.running
    ensures Pending(s', d, base, start)
  {
  }

  lemma EndKeeps(s: State, s': State, base: Disk, start: nat, j: nat)
    requires Inv(s, base, start) && s' == Effect(s, start, End(j))
    ensures Inv(s', base, start)
  {
    if j < |s.ops| {
      OpenIsIdle(s, base, start);
      EndHistory(s, j);
      EndSpace(s, j);
      var s1 := s.(ops := s.ops[..j] + s.ops[j+1..], ended := s.ended + {s.ops[j].id});
      SamePending(s, s1, base, start);
      AfterEnd(s1, s', base, start);
    }
  }

  /** The last operation's end starts the commit. */
  lemma AfterEnd(s: State, s': State, base: Disk, start: nat)
    requires s.phase.Idle? && Pending(s, s.disk, base, start) && HistoryOk(s) && SpaceOk(s)
    requires s.panic in {Fine, NoBuffers} && |s.disk| == |base| && Fits(s.disk, start) && |s.lh| <= LOGBLOCKS
    requires s' == if s.ops != [] then s
                   else s.(phase := Committing(s.disk, CommitWrites(s.disk[start], start, s.lh, Values(s.lh, s.mem)),
                                               0))
    ensures Inv(s', base, start)
  {
    if s.ops == [] { CommitStarts(s, s', base, start); } else { IdleIsOk(s, base, start); }
  }

  /** At the header write the pending transaction becomes the committed history. */
  lemma CommitPoint(s: State, base: Disk, start: nat, from: Disk)
    requires Pending(s, from, base, start)
    ensures SameHome(Committed(from, s.lh, Values(s.lh, s.mem)), Replay(base, s.committed + s.running), start)
  {
    var vals := Values(s.lh, s.mem);
    forall b | 0 <= b < |from| && !InLog(start, b)
      ensures Committed(from, s.lh, vals)[b] == Replay(base, s.committed + s.running)[b]
    {
      CommittedIs(from, start, s.lh, vals, b);
      if b in s.lh {
        var t :| 0 <= t < |s.lh| && s.lh[t] == b;
        assert vals[t] == s.mem[b];
      }
    }
  }

  lemma CommitHistory(s: State, s': State, header: bool)
    requires HistoryOk(s) && SpaceOk(s) && s.ops == [] && s'.ops == [] && s'.lh == s.lh
    requires s'.nextId == s.nextId && s'.ended == s.ended
    requires if header then s'.committed == s.committed + s.running && s'.running == []
             else s'.committed == s.committed && s'.running == s.running
    ensures HistoryOk(s') && SpaceOk(s')
  {
    var all := s.committed + s.running;
    forall u: Update ensures CommittedAt(all, s.ended, u) {
      assert CommittedAt(s.committed, s.ended, u) && RunningAt(s.running, s.ops, s.ended, u);
    }
    forall u: Update, v: Update ensures OpsDiffer([], all, u, v) {}
    forall u: Update ensures RunningAt([], s.ops, s.ended, u) {}
  }

  /** The disk after the next write of the commit. */
  lemma CommitWritePhase(s: State, s': State, base: Disk, start: nat, from: Disk, ws: seq<Write>, k: nat)
    requires PhaseOk(s, base, start) && s.phase == Committing(from, ws, k) && k < |ws| && ws[k].blockno < |s.disk|
    requires s'.disk == s.disk[ws[k].blockno := ws[k].data] && s'.phase == Committing(from, ws, k + 1)
    requires s'.ops == s.ops && s'.lh == s.lh && s'.mem == s.mem
    requires if k == |s.lh| then s'.committed == s.committed + s.running && s'.running == []
             else s'.committed == s.committed && s'.running == s.running
    ensures PhaseOk(s', base, start)
  {
    ApplyPrefix(from, [], ws, k);
    if k == |s.lh| {
      CommitPoint(s, base, start, from);
    } else if k < |s.lh| {
      PendingIn(s, s', from, base, start);
    }
  }

  lemma CommitWriteKeeps(s: State, s': State, base: Disk, start: nat)
    requires Inv(s, base, start) && s.phase.Committing? && s' == AfterDiskWrite(s)
    ensures Inv(s', base, start)
  {
    if s' != s {
      CommitWritePhase(s, s', base, start, s.phase.from, s.phase.ws, s.phase.k);
      CommitHistory(s, s', s.phase.k == |s.lh|);
    }
  }

  lemma RecoverWriteKeeps(s: State, s': State, base: Disk, start: nat)
    requires Inv(s, base, start) && s.phase.Recovering? && s' == AfterDiskWrite(s)
    ensures Inv(s', base, start)
  {
    var Recovering(from, ws, k) := s.phase;
    if s' != s { ApplyPrefix(from, [], ws, k); }
  }

  lemma CommitEnds(s: State, base: Disk, start: nat)
    requires PhaseOk(s, base, start) && s.phase.Committing? && s.phase.k >= |s.phase.ws|
    ensures LogEmpty(s.disk, start) && SameHome(s.disk, Replay(base, s.committed), start)
    ensures s.running == [] && s.ops == []
  {
    var Committing(from, ws, k) := s.phase;
    assert ws[..k] == ws;
    CommitFinished(from, start, s.lh, Values(s.lh, s.mem));
  }

  lemma NothingOpen(s: State, s': State)
    requires HistoryOk(s) && s.ops == [] && s' == s.(phase := Idle, lh := [], mem := map[])
    ensures HistoryOk(s') && SpaceOk(s')
  {
    forall i: nat ensures WithinOp([], [], i) {}
  }

  lemma QuietIsPending(s: State, s': State, base: Disk, start: nat)
    requires s' == s.(phase := Idle, lh := [], mem := map[]) && s.running == []
    requires LogEmpty(s.disk, start) && SameHome(s.disk, Replay(base, s.committed), start)
    ensures PhaseOk(s', base, start)
  {
    assert s'.committed + s'.running == s.committed;
    assert Pending(s', s'.disk, base, start);
  }

  lemma RecoveryEnds(s: State, base: Disk, start: nat)
    requires PhaseOk(s, base, start) && s.phase.Recovering? && s.phase.k >= |s.phase.ws|
    ensures LogEmpty(s.disk, start) && SameHome(s.disk, Replay(base, s.committed), start)
    ensures s.running == [] && s.ops == []
  {
    var Recovering(from, ws, k) := s.phase;
    assert ws[..k] == ws;
    RecoverAgain(from, start);
    HeaderRoundTrip(from[start], []);
  }

  lemma {:induction false} CrashKeeps(s: State, base: Disk, start: nat)
    requires Inv(s, base, start)
    ensures Recoverable(s.disk, start) && Inv(Effect(s, start, Crash), base, start)
  {
    Durable(s, base, start);
    CrashLeaves(s, base, start);
  }

  lemma {:induction false} CrashLeaves(s: State, base: Disk, start: nat)
    requires |s.disk| == |base| && Fits(s.disk, start) && HistoryOk(s) && |s.lh| <= LOGBLOCKS
    requires forall b <- s.lh :: b in s.mem
    requires Recoverable(s.disk, start) && SameHome(Recovered(s.disk, start), Replay(base, s.committed), start)
    ensures Inv(Step(s, start, Crash), base, start)
  {
    assert RecoveryWrites(s.disk, start)[..0] == [];
  }

  /** The state is one recovery and commit() are defined on; EveryRun shows it always is. */
  ghost predicate Sane(s: State, start: nat) {
    Recoverable(s.disk, start) && |s.lh| <= LOGBLOCKS && forall b <- s.lh :: b in s.mem
  }

  ghost function Next(s: State, start: nat, e: Event): State {
    if Sane(s, start) then Step(s, start, e) else s
  }

  /** Reading and releasing buffers changes nothing on disk or in the log. */
  lemma BuffersOnly(s: State, s': State, base: Disk, start: nat)
    requires Inv(s, base, start) && s' == s.(held := s'.held, busy := s'.busy, wrote := s'.wrote)
    ensures Inv(s', base, start)
  {
    match s.phase
    case Idle => assert Pending(s', s.disk, base, start);
    case Committing(from, ws, k) => assert Pending(s, from, base, start) ==> Pending(s', from, base, start);
    case Recovering(from, ws, k) =>
  }

  lemma WriteKeeps(s: State, s': State, base: Disk, start: nat)
    requires Inv(s, base, start) && s' == AfterDiskWrite(s)
    ensures Inv(s', base, start)
  {
    if s.phase.Committing? {
      CommitWriteKeeps(s, s', base, start);
    } else if s.phase.Recovering? {
      RecoverWriteKeeps(s, s', base, start);
    }
  }

  lemma FinishKeeps(s: State, s': State, base: Disk, start: nat)
    requires Inv(s, base, start) && s' == Effect(s, start, Finish)
    ensures Inv(s', base, start)
  {
    if s' != s {
      if s.phase.Committing? { CommitEnds(s, base, start); } else { RecoveryEnds(s, base, start); }
      QuietIsPending(s, s', base, start);
      NothingOpen(s, s');
    }
  }

  lemma EffectKeeps(s: State, s': State, base: Disk, start: nat, e: Event)
    requires Inv(s, base, start) && Follows(s, start, e) && Sane(s, start) && s' == Effect(s, start, e)
    ensures Inv(s', base, start)
  {
    match e
    case Begin => BeginKeeps(s, s', base, start);
    case Read(_) => BuffersOnly(s, s', base, start);
    case Release(_) => BuffersOnly(s, s', base, start);
    case LogWrite(j, b, data) =>
      if j < |s.ops| { LogWriteKeeps(s, AfterLogWrite(s, j, b, data), base, start, j, b, data); }
    case End(j) => EndKeeps(s, s', base, start, j);
    case Fetch => BuffersOnly(s, s', base, start);
    case DiskWrite => if s' != s { WriteKeeps(s, s', base, start); }
    case Drop => BuffersOnly(s, s', base, start);
    case Finish => FinishKeeps(s, s', base, start);
    case Crash => CrashKeeps(s, base, start);
  }

  lemma NextKeeps(s: State, base: Disk, start: nat, e: Event)
    requires Inv(s, base, start) && Follows(s, start, e)
    ensures Inv(Next(s, start, e), base, start)
  {
    Durable(s, base, start);
    if !(s.panic != Fine && !e.Crash?) && !(NeedsBuffer(s, start, e) && Full(s)) {
      EffectKeeps(s, Next(s, start, e), base, start, e);
    }
  }

  // ---------- Whole runs ----------

  /** The states of a run: each follows from the one before by a client-obeying event. */
  ghost predicate IsRun(run: seq<State>, events: seq<Event>, start: nat) {
    && |run| == |events| + 1
    && forall i | 0 <= i < |events| :: Follows(run[i], start, events[i]) && run[i+1] == Next(run[i], start, events[i])
  }

  lemma {:induction false} RunKeeps(run: seq<State>, events: seq<Event>, base: Disk, start: nat, k: nat)
    requires IsRun(run, events, start) && run[0] == Initial(base) && LogEmpty(base, start) && k < |run|
    ensures Inv(run[k], base, start)
    decreases k
  {
    if k == 0 {
      InitialIsOk(base, start);
    } else {
      RunKeeps(run, events, base, start, k - 1);
      assert run[k] == Next(run[k-1], start, events[k-1]);
      NextKeeps(run[k-1], base, start, events[k-1]);
    }
  }

  lemma InitialIsOk(base: Disk, start: nat)
    requires LogEmpty(base, start)
    ensures Inv(Initial(base), base, start)
  {
  }

  /** In every state of every run: crashing now and recovering yields
      exactly the committed operations, each of which has ended and has all its updates there;
      no log_write can happen during a commit; reserved space is never overdrawn; and an idle
      log with no operation outstanding is empty. */
  lemma EveryRun(run: seq<State>, events: seq<Event>, base: Disk, start: nat, k: nat)
    requires IsRun(run, events, start) && run[0] == Initial(base) && LogEmpty(base, start) && k < |run|
    ensures var s := run[k];
            && Sane(s, start)
            && Recoverable(s.disk, start) && SameHome(Recovered(s.disk, start), Replay(base, s.committed), start)
            && (forall u <- s.committed :: u.op in s.ended && forall v <- s.running :: v.op != u.op)
            && (!s.phase.Idle? ==> s.ops == [])
            && |s.lh| + Unused(s.ops) <= LOGBLOCKS
            && (s.phase.Idle? && s.ops == [] ==> s.lh == [] && s.running == [])
  {
    var s := run[k];
    RunKeeps(run, events, base, start, k);
    Durable(s, base, start);
    forall u <- s.committed ensures u.op in s.ended && forall v <- s.running :: v.op != u.op {
      assert CommittedAt(s.committed, s.ended, u);
      forall v <- s.running ensures v.op != u.op { assert OpsDiffer(s.running, s.committed, v, u); }
    }
  }

  // ---------- Buffers ----------

  /** Clients hold home blocks; commit and recovery hold the first of the buffers they need, or are releasing them. */
  ghost predicate BuffersOk(s: State, start: nat) {
    && (forall b <- s.held :: !InLog(start, b))
    && (if s.wrote then s.busy != [] && !s.phase.Idle? else s.busy <= Needs(s, start))
  }

  lemma NeedsOnlyPhase(s: State, s': State, start: nat)
    requires s'.phase == s.phase && s'.lh == s.lh
    ensures Needs(s', start) == Needs(s, start)
  {
  }

  /** With the log idle before and at most a commit beginning after, nothing is held for a write. */
  lemma QuietBuffers(s: State, s': State, start: nat)
    requires BuffersOk(s, start) && s.phase.Idle? && s'.held == s.held && s'.busy == s.busy && s'.wrote == s.wrote
    ensures BuffersOk(s', start)
  {
    assert Needs(s, start) == [];
  }

  lemma ClientBuffers(s: State, s': State, start: nat, e: Event)
    requires BuffersOk(s, start) && Follows(s, start, e) && (e.Read? || e.Release?)
    requires s' == s.(held := if e.Read? then s.held + {e.blockno} else s.held - {e.blockno})
    ensures BuffersOk(s', start)
  {
    NeedsOnlyPhase(s, s', start);
  }

  lemma FetchBuffers(s: State, s': State, start: nat)
    requires BuffersOk(s, start) && Wants(s, start).Some? && s' == s.(busy := s.busy + [Wants(s, start).value])
    ensures BuffersOk(s', start)
  {
    NeedsOnlyPhase(s, s', start);
  }

  lemma WriteBuffers(s: State, s': State, start: nat)
    requires BuffersOk(s, start) && s.busy != [] && s' == AfterDiskWrite(s)
    ensures BuffersOk(s', start)
  {
  }

  lemma DropBuffers(s: State, s': State, start: nat)
    requires BuffersOk(s, start) && s' == Dropped(s)
    ensures BuffersOk(s', start)
  {
  }

  lemma EffectBuffers(s: State, s': State, start: nat, e: Event)
    requires Sane(s, start) && BuffersOk(s, start) && Follows(s, start, e) && (s.ops != [] ==> s.phase.Idle?)
    requires s' == Effect(s, start, e)
    ensures BuffersOk(s', start)
  {
    match e
    case Begin => if s' != s { QuietBuffers(s, s', start); }
    case Read(_) => ClientBuffers(s, s', start, e);
    case Release(_) => ClientBuffers(s, s', start, e);
    case LogWrite(j, _, _) => if j < |s.ops| { QuietBuffers(s, s', start); }
    case End(j) => if j < |s.ops| { QuietBuffers(s, s', start); }
    case Fetch => if s' != s { FetchBuffers(s, s', start); }
    case DiskWrite => if s' != s { WriteBuffers(s, s', start); }
    case Drop => DropBuffers(s, s', start);
    case Finish =>
    case Crash =>
  }

  lemma StepBuffers(s: State, s': State, start: nat, e: Event)
    requires Sane(s, start) && BuffersOk(s, start) && Follows(s, start, e) && (s.ops != [] ==> s.phase.Idle?)
    requires s' == Step(s, start, e)
    ensures BuffersOk(s', start)
  {
    if s.panic != Fine && !e.Crash? {
    } else if NeedsBuffer(s, start, e) && Full(s) {
      NeedsOnlyPhase(s, s', start);
    } else {
      EffectBuffers(s, s', start, e);
    }
  }

  lemma StepOfRun(run: seq<State>, events: seq<Event>, base: Disk, start: nat, k: nat, next: State)
    requires IsRun(run, events, start) && run[0] == Initial(base) && LogEmpty(base, start) && k < |events|
    requires next == run[k + 1]
    ensures var s, e := run[k], events[k];
            Sane(s, start) && (s.ops != [] ==> s.phase.Idle?) && Follows(s, start, e) && next == Step(s, start, e)
  {
    EveryRun(run, events, base, start, k);
  }

  lemma {:induction false} RunBuffers(run: seq<State>, events: seq<Event>, base: Disk, start: nat, k: nat)
    requires IsRun(run, events, start) && run[0] == Initial(base) && LogEmpty(base, start) && k < |run|
    ensures BuffersOk(run[k], start)
    decreases k
  {
    if k == 0 {
    } else {
      RunBuffers(run, events, base, start, k - 1);
      StepOfRun(run, events, base, start, k - 1, run[k]);
      StepBuffers(run[k-1], run[k], start, events[k-1]);
    }
  }

  /** A commit asks for a buffer that is not referenced yet only at the start of a write, for the log or header block;
      the home blocks it reads are pinned. */
  lemma CommitWants(s: State, base: Disk, start: nat)
    requires Inv(s, base, start) && BuffersOk(s, start) && s.phase.Committing? && Wants(s, start).Some?
    ensures Wants(s, start).value !in InUse(s) <==> s.busy == []
  {
    var Committing(from, ws, k) := s.phase;
    var n := |s.lh|;
    if s.busy == [] {
      assert InLog(start, Wants(s, start).value);
      PinnedAreHome(s, base, start);
    } else if k < n {
      assert s.lh[k] in Elements(s.lh);
    } else {
      assert s.lh[k - n - 1..][0] in Elements(s.lh[k - n - 1..]);
    }
  }

  lemma PinnedAreHome(s: State, base: Disk, start: nat)
    requires Inv(s, base, start) && s.phase.Committing?
    ensures forall b <- PinnedBlocks(s) :: !InLog(start, b)
  {
    var Committing(from, ws, k) := s.phase;
    forall b <- PinnedBlocks(s) ensures !InLog(start, b) {
      assert b in s.lh && Home(from, start, b);
    }
  }

  /** The panics of log_write and end_op are out of reach in every run. The kernel panics exactly when bget is called
      for a block without a referenced buffer while NBUF blocks are in use, and stays so until it is rebooted: a
      read of a block nobody uses, or a commit about to read a log or header block. */
  lemma PanicExactly(run: seq<State>, events: seq<Event>, base: Disk, start: nat, k: nat)
    requires IsRun(run, events, start) && run[0] == Initial(base) && LogEmpty(base, start) && k < |events|
    ensures var s, e, s' := run[k], events[k], run[k + 1];
            && s'.panic in {Fine, NoBuffers}
            && (s'.panic == NoBuffers <==> !e.Crash? && (s.panic == NoBuffers || (NeedsBuffer(s, start, e) && Full(s))))
            && (s.phase.Committing? && e.Fetch? && Wants(s, start).Some? && s.panic == Fine ==>
                  (s'.panic == NoBuffers <==> s.busy == [] && |PinnedBlocks(s) + s.held| >= NBUF))
  {
    var s, e, s' := run[k], events[k], run[k + 1];
    RunKeeps(run, events, base, start, k);
    RunKeeps(run, events, base, start, k + 1);
    RunBuffers(run, events, base, start, k);
    Durable(s, base, start);
    NextPanic(s, start, e, s');
    if s.phase.Committing? && Wants(s, start).Some? {
      CommitWants(s, base, start);
      if s.busy == [] { assert InUse(s) == PinnedBlocks(s) + s.held; }
    }
  }

  lemma NextPanic(s: State, start: nat, e: Event, s': State)
    requires Sane(s, start) && Fits(s.disk, start) && s' == Next(s, start, e)
    requires s.panic in {Fine, NoBuffers} && s'.panic in {Fine, NoBuffers}
    ensures s'.panic == NoBuffers <==> !e.Crash? && (s.panic == NoBuffers || (NeedsBuffer(s, start, e) && Full(s)))
  {
    if e.Crash? || (s.panic == Fine && !(NeedsBuffer(s, start, e) && Full(s))) { EffectPanic(s, start, e); }
  }

  lemma EffectPanic(s: State, start: nat, e: Event)
    requires Sane(s, start) && Fits(s.disk, start) && (s.panic == Fine || e.Crash?)
    ensures Effect(s, start, e).panic != NoBuffers
  {
  }
}
