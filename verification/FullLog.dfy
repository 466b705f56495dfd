/** A log that fills up: three operations within their reservations pin all NBUF buffers, and the commit
    panics. The machine's count of blocks in use is the cache's own of referenced buffers. */
module FullLog {
  import opened Bcache
  import opened RedoLog
  import opened GroupCommit

  // ---------- Referenced buffers and the blocks they are for ----------

  function BlocksInUse(bufs: seq<Buf>, n: nat): set<nat>
    requires n <= |bufs|
  {
    set i | 0 <= i < n && bufs[i].refcnt > 0 :: bufs[i].blockno
  }

  lemma NextInUse(bufs: seq<Buf>, n: nat)
    requires n < |bufs|
    ensures BlocksInUse(bufs, n + 1) == BlocksInUse(bufs, n) + if bufs[n].refcnt > 0 then {bufs[n].blockno} else {}
  {
  }

  lemma NewBlock(bufs: seq<Buf>, disk: Disk, dirty: set<nat>, index: map<nat, nat>, n: nat)
    requires Coherent(bufs, disk, dirty, index) && n < NBUF && bufs[n].refcnt > 0
    ensures bufs[n].blockno !in BlocksInUse(bufs, n)
  {
    assert BufOk(bufs[n], n, disk, dirty, index);
    forall i | 0 <= i < n && bufs[i].refcnt > 0 ensures bufs[i].blockno != bufs[n].blockno {
      assert BufOk(bufs[i], i, disk, dirty, index);
    }
  }

  ghost predicate NewAt(bufs: seq<Buf>, i: nat) {
    i < |bufs| && bufs[i].refcnt > 0 ==> bufs[i].blockno !in BlocksInUse(bufs, i)
  }

  lemma {:induction false} OneBlockEach(bufs: seq<Buf>, n: nat)
    requires n <= |bufs| && forall i: nat {:trigger NewAt(bufs, i)} :: NewAt(bufs, i)
    ensures |BlocksInUse(bufs, n)| <= n
    ensures |BlocksInUse(bufs, n)| == n <==> forall i | 0 <= i < n :: bufs[i].refcnt > 0
  {
    if n == 0 {
      assert BlocksInUse(bufs, 0) == {};
    } else {
      OneBlockEach(bufs, n - 1);
      NextInUse(bufs, n - 1);
      assert NewAt(bufs, n - 1);
    }
  }

  /** bget finds no buffer for a new block exactly when NBUF different blocks are in use. */
  lemma FullIsReferenced(bufs: seq<Buf>, disk: Disk, dirty: set<nat>, index: map<nat, nat>)
    requires Coherent(bufs, disk, dirty, index)
    ensures Referenced(bufs) <==> |BlocksInUse(bufs, NBUF)| >= NBUF
  {
    forall i: nat ensures NewAt(bufs, i) {
      if i < NBUF && bufs[i].refcnt > 0 { NewBlock(bufs, disk, dirty, index, i); }
    }
    OneBlockEach(bufs, NBUF);
  }

  /** The machine panics exactly where the cache's bget does, as long as it has the same blocks in use. */
  lemma PanicIsBget(s: State, b: nat, bufs: seq<Buf>, disk: Disk, dirty: set<nat>, index: map<nat, nat>)
    requires Coherent(bufs, disk, dirty, index) && BlocksInUse(bufs, NBUF) == InUse(s)
    ensures !Cached(bufs, b) && Referenced(bufs) <==> b !in InUse(s) && Full(s)
  {
    FullIsReferenced(bufs, disk, dirty, index);
    if Referenced(bufs) {
      forall i | 0 <= i < NBUF ensures Caches(bufs[i], bufs[i].blockno) && bufs[i].blockno in InUse(s) {
        assert BufOk(bufs[i], i, disk, dirty, index);
        assert bufs[i].refcnt > 0;
      }
    }
  }

  // ---------- Three operations of ten blocks ----------

  ghost predicate Reaches(from: State, start: nat, s: State) {
    exists run, events :: IsRun(run, events, start) && run[0] == from && run[|events|] == s
  }

  lemma ReachSelf(s: State, start: nat)
    ensures Reaches(s, start, s)
  {
    var events: seq<Event> := [];
    assert IsRun([s], events, start) && [s][0] == s && [s][|events|] == s;
  }

  lemma ReachStep(from: State, start: nat, s: State, e: Event, s': State)
    requires Reaches(from, start, s) && Follows(s, start, e) && s' == Next(s, start, e)
    ensures Reaches(from, start, s')
  {
    var run, events :| IsRun(run, events, start) && run[0] == from && run[|events|] == s;
    var run', events' := run + [s'], events + [e];
    forall i | 0 <= i < |events'|
      ensures Follows(run'[i], start, events'[i]) && run'[i+1] == Next(run'[i], start, events'[i])
    {
      if i < |events| { assert run'[i+1] == run[i+1]; }
    }
    assert IsRun(run', events', start);
  }

  lemma ReachInv(base: Disk, start: nat, s: State)
    requires LogEmpty(base, start) && Reaches(Initial(base), start, s)
    ensures Sane(s, start) && Fits(s.disk, start) && |s.disk| == |base|
  {
    var run, events :| IsRun(run, events, start) && run[0] == Initial(base) && run[|events|] == s;
    RunKeeps(run, events, base, start, |events|);
    Durable(s, base, start);
  }

  /** The i-th block after the log. */
  function Nth(start: nat, i: nat): nat { start + LOGBLOCKS + 1 + i }

  function FirstBlocks(start: nat, m: nat): seq<nat> { seq(m, i requires 0 <= i < m => Nth(start, i)) }

  lemma {:induction false} FirstBlocksDiffer(start: nat, m: nat)
    ensures |Elements(FirstBlocks(start, m))| == m
    ensures forall b <- Elements(FirstBlocks(start, m)) :: b < Nth(start, m)
  {
    if m == 0 {
      assert Elements(FirstBlocks(start, 0)) == {};
    } else {
      FirstBlocksDiffer(start, m - 1);
      var s, t := FirstBlocks(start, m - 1), FirstBlocks(start, m);
      assert t == s + [Nth(start, m - 1)];
      assert Elements(t) == Elements(s) + {Nth(start, m - 1)};
    }
  }

  function Clamp(x: int): nat { if x < 0 then 0 else if x > 10 then 10 else x }

  /** Three operations are under way and have logged the first m blocks, ten each in turn. */
  ghost predicate Loaded(s: State, start: nat, m: nat) {
    && s.panic == Fine && s.phase.Idle? && s.held == {} && s.busy == [] && s.lh == FirstBlocks(start, m)
    && !s.wrote && |s.ops| == 3
    && forall j: nat {:trigger Counted(s.ops, start, m, j)} :: Counted(s.ops, start, m, j)
  }

  lemma ReadStep(s: State, start: nat, m: nat)
    requires Loaded(s, start, m) && m < 30 && Sane(s, start) && Fits(s.disk, start)
    ensures Next(s, start, Read(Nth(start, m))) == s.(held := {Nth(start, m)})
  {
    FirstBlocksDiffer(start, m);
    assert InUse(s) == Elements(s.lh);
    assert s.held + {Nth(start, m)} == {Nth(start, m)};
  }

  lemma LogStep(s: State, s': State, start: nat, m: nat, data: Block)
    requires s.held == {Nth(start, m)} && Loaded(s.(held := {}), start, m) && m < 30 && Sane(s, start)
    requires Nth(start, m) < |s.disk| && s' == AfterLogWrite(s, m / 10, Nth(start, m), data)
    ensures var e := LogWrite(m / 10, Nth(start, m), data); Follows(s, start, e) && s' == Next(s, start, e)
    ensures Loaded(s'.(held := {}), start, m + 1)
  {
    FirstBlocksDiffer(start, m);
    var b, j := Nth(start, m), m / 10;
    assert Counted(s.ops, start, m, j) && b !in s.lh;
    assert s'.lh == FirstBlocks(start, m + 1);
    OpsGrow(s.ops, s'.ops, start, m, j);
  }

  ghost predicate Counted(ops: seq<Op>, start: nat, m: nat, j: nat) {
    j < |ops| ==> |ops[j].blocks| == Clamp(m - 10 * j) && forall b <- ops[j].blocks :: b < Nth(start, m)
  }

  lemma OpsGrow(ops: seq<Op>, ops': seq<Op>, start: nat, m: nat, j: nat)
    requires |ops| == 3 && j == m / 10 && m < 30
    requires (forall i: nat {:trigger Counted(ops, start, m, i)} :: Counted(ops, start, m, i))
    requires ops' == ops[j := ops[j].(blocks := ops[j].blocks + {Nth(start, m)})]
    ensures forall i: nat {:trigger Counted(ops', start, m + 1, i)} :: Counted(ops', start, m + 1, i)
  {
    var m' := m + 1;
    assert Counted(ops, start, m, j) && Nth(start, m) !in ops[j].blocks;
    forall i: nat ensures Counted(ops', start, m', i) { assert Counted(ops, start, m, i); }
  }

  /** Read a block, log it, release it. */
  lemma LogOneMore(base: Disk, start: nat, s: State, m: nat) returns (s': State)
    requires LogEmpty(base, start) && Nth(start, 29) < |base| && m < 30
    requires Reaches(Initial(base), start, s) && Loaded(s, start, m)
    ensures Reaches(Initial(base), start, s') && Loaded(s', start, m + 1)
  {
    var b := Nth(start, m);
    ReachInv(base, start, s);
    ReadStep(s, start, m);
    var s1 := s.(held := {b});
    ReachStep(Initial(base), start, s, Read(b), s1);
    assert s1.(held := {}) == s;
    var s2 := LogThen(base, start, s1, m);
    s' := ReleaseThen(base, start, s2, m + 1, b);
  }

  lemma LogThen(base: Disk, start: nat, s: State, m: nat) returns (s': State)
    requires LogEmpty(base, start) && Nth(start, 29) < |base| && m < 30
    requires Reaches(Initial(base), start, s) && s.held == {Nth(start, m)} && Loaded(s.(held := {}), start, m)
    ensures Reaches(Initial(base), start, s') && s'.held == s.held && Loaded(s'.(held := {}), start, m + 1)
  {
    ReachInv(base, start, s);
    assert Counted(s.ops, start, m, m / 10);
    s' := AfterLogWrite(s, m / 10, Nth(start, m), base[0]);
    LogStep(s, s', start, m, base[0]);
    ReachStep(Initial(base), start, s, LogWrite(m / 10, Nth(start, m), base[0]), s');
  }

  lemma ReleaseThen(base: Disk, start: nat, s: State, m: nat, b: nat) returns (s': State)
    requires LogEmpty(base, start) && Reaches(Initial(base), start, s) && s.held == {b}
    requires Loaded(s.(held := {}), start, m)
    ensures Reaches(Initial(base), start, s') && Loaded(s', start, m)
  {
    ReachInv(base, start, s);
    s' := s.(held := {});
    assert s.held - {b} == {};
    ReachStep(Initial(base), start, s, Release(b), s');
  }

  lemma {:induction false} Fill(base: Disk, start: nat, m: nat) returns (s: State)
    requires LogEmpty(base, start) && Nth(start, 29) < |base| && m <= 30
    ensures Reaches(Initial(base), start, s) && Loaded(s, start, m)
  {
    if m == 0 {
      s := BeginThree(base, start);
    } else {
      var before := Fill(base, start, m - 1);
      s := LogOneMore(base, start, before, m - 1);
    }
  }

  lemma BeginThree(base: Disk, start: nat) returns (s: State)
    requires LogEmpty(base, start)
    ensures Reaches(Initial(base), start, s) && Loaded(s, start, 0)
  {
    var s0 := Initial(base);
    ReachSelf(s0, start);
    var s1 := BeginOne(base, start, s0);
    var s2 := BeginOne(base, start, s1);
    s := BeginOne(base, start, s2);
  }

  lemma BeginOne(base: Disk, start: nat, s: State) returns (s': State)
    requires LogEmpty(base, start) && Reaches(Initial(base), start, s)
    requires s.panic == Fine && s.phase.Idle? && s.held == {} && s.lh == [] && |s.ops| < 3
    ensures Reaches(Initial(base), start, s') && s' == s.(ops := s.ops + [Op(s.nextId, {})], nextId := s.nextId + 1)
  {
    ReachInv(base, start, s);
    s' := s.(ops := s.ops + [Op(s.nextId, {})], nextId := s.nextId + 1);
    ReachStep(Initial(base), start, s, Begin, s');
  }

  lemma EndOne(base: Disk, start: nat, s: State) returns (s': State)
    requires LogEmpty(base, start) && Reaches(Initial(base), start, s)
    requires s.panic == Fine && s.phase.Idle? && s.ops != []
    ensures Reaches(Initial(base), start, s') && s'.panic == Fine && s'.lh == s.lh && s'.held == s.held
    ensures s'.ops == s.ops[1..] && s'.mem == s.mem && s'.busy == s.busy && s'.wrote == s.wrote
    ensures if |s.ops| > 1 then s'.phase.Idle?
            else s'.phase.Committing? && s'.phase.k == 0 && (s.lh != [] ==> s'.phase.ws != [])
  {
    ReachInv(base, start, s);
    s' := Next(s, start, End(0));
    assert s.ops[..0] + s.ops[1..] == s.ops[1..];
    ReachStep(Initial(base), start, s, End(0), s');
  }

  /** On any disk with room for thirty home blocks there is a run, by clients that keep to their reservations
      and hold no buffer at the end, in which the commit of thirty blocks panics for want of a buffer. */
  lemma ThreeOperationsPanic(base: Disk, start: nat)
    requires LogEmpty(base, start) && Nth(start, 29) < |base|
    ensures exists s :: Reaches(Initial(base), start, s) && s.panic == NoBuffers && s.held == {} && |s.lh| == LOGBLOCKS
  {
    var s := Fill(base, start, 30);
    s := EndOne(base, start, s);
    s := EndOne(base, start, s);
    s := EndOne(base, start, s);
    ReachInv(base, start, s);
    FirstBlocksDiffer(start, 30);
    assert InUse(s) == Elements(s.lh);
    assert Needs(s, start)[0] == start + 1;
    var s' := s.(panic := NoBuffers);
    ReachStep(Initial(base), start, s, Fetch, s');
  }
}
