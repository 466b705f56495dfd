/** The EEVDF scheduler: weighted virtual time, deadlines, the three-pass pick of
    kernel/proc.c and the timer accounting of kernel/trap.c, on one CPU.
    uint64 fields and the int time_slice wrap explicitly; `ticks` counts timer interrupts
    since boot. */
module Eevdf {

  const NPROC: nat := 64
  const U64: nat := 0x1_0000_0000_0000_0000
  const SLICE: nat := 5120000            // 5000 * 1024
  const TICK: nat := 1024000             // 1000 * 1024
  const MAX_STEP: nat := 68266           // TICK divided by the smallest weight
  const MAX_TICKS: nat := 0x8000_0000_0000

  const WEIGHTS: seq<nat> := [
    88818, 71054, 56843, 45475, 36380, 29104, 23283, 18626, 14901, 11921,
    9537, 7629, 6104, 4883, 3906, 3125, 2500, 2000, 1600, 1280,
    1024, 819, 655, 524, 419, 336, 268, 215, 172, 137,
    110, 88, 70, 56, 45, 36, 29, 23, 18, 15]

  datatype ProcState = Unused | Used | Sleeping | Runnable | Running | Zombie

  datatype Option<+T> = None | Some(value: T)

  /** The fields of struct proc that scheduling reads or writes. */
  datatype Proc = Proc(
    state: ProcState, pid: nat, chan: nat, killed: bool, nice: nat,
    runtime: nat, totalTick: nat, vruntime: nat, vdeadline: nat, timeSlice: int)

  predicate WellTyped(p: Proc) {
    p.nice < 40 && p.vruntime < U64 && p.vdeadline < U64 && -0x8000_0000 <= p.timeSlice < 0x8000_0000
  }

  /** x - 1 in 32 bits: the least int wraps to the greatest. */
  function Dec32(x: int): int { if x == -0x8000_0000 then 0x7fff_ffff else x - 1 }

  /** The process table; its numeric fields hold uint64 values. */
  type Table = t: seq<Proc> | |t| == NPROC && forall i | 0 <= i < NPROC :: WellTyped(t[i])
    witness seq(NPROC, i => Proc(Unused, 0, 0, false, 0, 0, 0, 0, 0, 0))

  /** a * b behind a name, so that sums of products stay linear for the verifier. */
  function Prod(a: nat, b: nat): nat { a * b }

  function Quot(a: nat, b: nat): nat
    requires b > 0
  {
    a / b
  }

  lemma QuotLower(a: nat, b: nat)
    requires b > 0
    ensures Prod(b, Quot(a, b)) <= a
  {
  }

  lemma QuotGreatest(a: nat, b: nat, q: nat)
    requires b > 0 && Prod(b, q) <= a
    ensures q <= Quot(a, b)
  {
    if q > Quot(a, b) { ProdMonotone(Quot(a, b) + 1, q, b); }
  }

  lemma ProdMonotone(a: nat, b: nat, c: nat)
    requires a <= b
    ensures Prod(a, c) <= Prod(b, c)
    ensures Prod(b, c) == Prod(c, b) && Prod(a, c) == Prod(c, a)
  {
    assert (b - a) * c == b * c - a * c;
  }

  lemma ProdSucc(a: nat, b: nat)
    ensures Prod(a + 1, b) == Prod(a, b) + b
  {
  }

  function Add64(x: nat, y: nat): nat { (x + y) % U64 }

  lemma NoWrap(x: nat, y: nat)
    requires x + y < U64
    ensures Add64(x, y) == x + y
  {
  }

  function Weight(p: Proc): (w: nat)
    requires p.nice < 40
    ensures 15 <= w <= 88818
  {
    WEIGHTS[p.nice]
  }

  /** Virtual time charged for one tick, and for a whole slice, at weight w. */
  function StepAt(w: nat): (d: nat)
    requires 15 <= w <= 88818
    ensures d <= MAX_STEP && Prod(w, d) <= TICK
  {
    QuotLower(TICK, w);
    ProdMonotone(15, w, Quot(TICK, w));
    Quot(TICK, w)
  }

  function SliceAt(w: nat): (d: nat)
    requires 15 <= w <= 88818
    ensures 5 * StepAt(w) <= d <= 341333
  {
    QuotLower(SLICE, w);
    ProdMonotone(15, w, Quot(SLICE, w));
    QuotGreatest(SLICE, w, 5 * StepAt(w));
    Quot(SLICE, w)
  }

  function Step(p: Proc): nat
    requires p.nice < 40
  {
    StepAt(Weight(p))
  }

  function Slice(p: Proc): nat
    requires p.nice < 40
  {
    SliceAt(Weight(p))
  }

  predicate Ready(p: Proc) { p.state == Runnable || p.state == Running }

  // ---------- What the three passes of the scheduler compute ----------

  /** Sum of the weights, and of weight times virtual time, over ready entries below n. */
  function TotalWeight(t: Table, n: nat): nat
    requires n <= NPROC
  {
    if n == 0 then 0 else TotalWeight(t, n - 1) + if Ready(t[n-1]) then Weight(t[n-1]) else 0
  }

  function WeightedTime(t: Table, n: nat): nat
    requires n <= NPROC
  {
    if n == 0 then 0 else WeightedTime(t, n - 1) + if Ready(t[n-1]) then Prod(t[n-1].vruntime, Weight(t[n-1])) else 0
  }

  function MinTime(t: Table, n: nat): (m: nat)
    requires n <= NPROC
    ensures m < U64
    ensures forall i | 0 <= i < n && Ready(t[i]) :: m <= t[i].vruntime
    ensures (exists i | 0 <= i < n && Ready(t[i]) :: t[i].vruntime == m)
            || (m == U64 - 1 && forall i | 0 <= i < n :: !Ready(t[i]))
  {
    if n == 0 then U64 - 1 else
    var m := MinTime(t, n - 1);
    if Ready(t[n-1]) && t[n-1].vruntime < m then t[n-1].vruntime else m
  }

  /** The left side accumulated in uint64 arithmetic. */
  function LeftSide(t: Table, min: nat, n: nat): (left: nat)
    requires n <= NPROC
    requires forall i | 0 <= i < NPROC && Ready(t[i]) :: min <= t[i].vruntime
    ensures left < U64
  {
    if n == 0 then 0 else
    var left := LeftSide(t, min, n - 1);
    if Ready(t[n-1]) then (left + Prod(t[n-1].vruntime - min, Weight(t[n-1]))) % U64 else left
  }

  predicate Passes(p: Proc, left: nat, min: nat, wsum: nat)
    requires min <= p.vruntime
  {
    left >= Prod(p.vruntime - min, wsum) % U64
  }

  function Best(t: Table, left: nat, min: nat, wsum: nat, n: nat): (r: (Option<nat>, nat))
    requires n <= NPROC
    requires forall i | 0 <= i < NPROC && Ready(t[i]) :: min <= t[i].vruntime
    ensures r.0.Some? ==> r.0.value < n && t[r.0.value].state == Runnable && r.1 == t[r.0.value].vdeadline
    ensures r.0.None? ==> r.1 == U64 - 1
  {
    if n == 0 then (None, U64 - 1) else
    var r := Best(t, left, min, wsum, n - 1);
    var p := t[n-1];
    if p.state == Runnable && Passes(p, left, min, wsum) && p.vdeadline < r.1 then (Some(n - 1), p.vdeadline) else r
  }

  function Pick(t: Table): (r: Option<nat>)
    ensures r.Some? ==> r.value < NPROC && t[r.value].state == Runnable
  {
    var min := MinTime(t, NPROC);
    Best(t, LeftSide(t, min, NPROC), min, TotalWeight(t, NPROC), NPROC).0
  }

  // ---------- The pick is the earliest-deadline eligible process ----------

  /** vruntime is at most the weighted average of the ready set. */
  predicate Eligible(t: Table, i: nat)
    requires i < NPROC
  {
    Ready(t[i]) && Prod(t[i].vruntime, TotalWeight(t, NPROC)) <= WeightedTime(t, NPROC)
  }

  /** Neither side of the comparison leaves 64 bits, and no deadline is the "none yet" value. */
  ghost predicate Tame(t: Table) {
    var min, w := MinTime(t, NPROC), TotalWeight(t, NPROC);
    && ShiftedSum(t, min, NPROC) < U64
    && forall i | 0 <= i < NPROC && Ready(t[i]) :: Prod(t[i].vruntime - min, w) < U64 && t[i].vdeadline < U64 - 1
  }

  /** The left side over the integers. */
  function ShiftedSum(t: Table, min: nat, n: nat): nat
    requires n <= NPROC
    requires forall i | 0 <= i < NPROC && Ready(t[i]) :: min <= t[i].vruntime
  {
    if n == 0 then 0 else
    ShiftedSum(t, min, n - 1) + if Ready(t[n-1]) then Prod(t[n-1].vruntime - min, Weight(t[n-1])) else 0
  }

  lemma {:induction false} LeftIsShiftedSum(t: Table, min: nat, n: nat)
    requires n <= NPROC
    requires forall i | 0 <= i < NPROC && Ready(t[i]) :: min <= t[i].vruntime
    ensures LeftSide(t, min, n) == ShiftedSum(t, min, n) % U64
  {
    if n == 0 {
    } else {
      LeftIsShiftedSum(t, min, n - 1);
      if Ready(t[n-1]) { ModAdd(ShiftedSum(t, min, n - 1), Prod(t[n-1].vruntime - min, Weight(t[n-1]))); }
    }
  }

  lemma ModAdd(x: nat, y: nat)
    ensures (x % U64 + y) % U64 == (x + y) % U64
  {
  }

  lemma ProdMinus(a: nat, b: nat, c: nat)
    requires b <= a
    ensures Prod(a - b, c) == Prod(a, c) - Prod(b, c)
  {
  }

  lemma ProdPlus(a: nat, b: nat, c: nat)
    ensures Prod(c, a + b) == Prod(c, a) + Prod(c, b)
  {
  }

  lemma {:induction false} ShiftedSumExact(t: Table, min: nat, n: nat)
    requires n <= NPROC
    requires forall i | 0 <= i < NPROC && Ready(t[i]) :: min <= t[i].vruntime
    ensures ShiftedSum(t, min, n) == WeightedTime(t, n) - Prod(min, TotalWeight(t, n))
  {
    if n == 0 {
    } else {
      ShiftedSumExact(t, min, n - 1);
      if Ready(t[n-1]) {
        ProdMinus(t[n-1].vruntime, min, Weight(t[n-1]));
        ProdPlus(TotalWeight(t, n - 1), Weight(t[n-1]), min);
      }
    }
  }

  lemma PassesIsEligible(t: Table, i: nat)
    requires i < NPROC && Ready(t[i]) && Tame(t)
    ensures var min := MinTime(t, NPROC);
            Passes(t[i], LeftSide(t, min, NPROC), min, TotalWeight(t, NPROC)) <==> Eligible(t, i)
  {
    var min, w, v := MinTime(t, NPROC), TotalWeight(t, NPROC), t[i].vruntime;
    LeftIsShiftedSum(t, min, NPROC);
    ShiftedSumExact(t, min, NPROC);
    ProdMinus(v, min, w);
    SmallMod(ShiftedSum(t, min, NPROC));
    SmallMod(Prod(v - min, w));
  }

  lemma SmallMod(x: nat)
    ensures x < U64 ==> x % U64 == x
  {
  }

  ghost predicate Candidate(t: Table, left: nat, min: nat, wsum: nat, i: nat)
    requires i < NPROC && (Ready(t[i]) ==> min <= t[i].vruntime)
  {
    t[i].state == Runnable && Passes(t[i], left, min, wsum) && t[i].vdeadline < U64 - 1
  }

  lemma {:induction false} BestIsFirstMinimum(t: Table, left: nat, min: nat, wsum: nat, n: nat)
    requires n <= NPROC
    requires forall i | 0 <= i < NPROC && Ready(t[i]) :: min <= t[i].vruntime
    ensures var r := Best(t, left, min, wsum, n).0;
            && (r.Some? ==> Candidate(t, left, min, wsum, r.value))
            && forall j | 0 <= j < n && Candidate(t, left, min, wsum, j) ::
                 r.Some? && (t[r.value].vdeadline < t[j].vdeadline
                             || (t[r.value].vdeadline == t[j].vdeadline && r.value <= j))
  {
    if n == 0 {
    } else {
      BestIsFirstMinimum(t, left, min, wsum, n - 1);
    }
  }

  /** The scheduler picks i exactly when i is RUNNABLE and eligible and no eligible
      RUNNABLE process has an earlier deadline, or the same one at a lower index. */
  lemma PickIsEarliestEligible(t: Table, i: nat)
    requires Tame(t) && i < NPROC
    ensures Pick(t) == Some(i) <==>
              && t[i].state == Runnable && Eligible(t, i)
              && forall j | 0 <= j < NPROC && t[j].state == Runnable && Eligible(t, j) ::
                   t[i].vdeadline < t[j].vdeadline || (t[i].vdeadline == t[j].vdeadline && i <= j)
  {
    var min, w := MinTime(t, NPROC), TotalWeight(t, NPROC);
    var left := LeftSide(t, min, NPROC);
    BestIsFirstMinimum(t, left, min, w, NPROC);
    forall j | 0 <= j < NPROC && t[j].state == Runnable
      ensures Candidate(t, left, min, w, j) <==> Eligible(t, j)
    {
      PassesIsEligible(t, j);
    }
  }

  lemma LeastPasses(p: Proc, left: nat, w: nat)
    ensures Passes(p, left, p.vruntime, w)
  {
    assert 0 * w == 0;
  }

  /** With nothing RUNNING, a RUNNABLE process is always picked, whatever the comparison overflows to:
      the process of least virtual time has right side 0. */
  lemma PickNeverStalls(t: Table)
    requires NoneRunning(t)
    requires forall i | 0 <= i < NPROC && Ready(t[i]) :: t[i].vdeadline < U64 - 1
    ensures Pick(t).Some? <==> exists i | 0 <= i < NPROC :: t[i].state == Runnable
  {
    if exists i | 0 <= i < NPROC :: t[i].state == Runnable {
      var k :| 0 <= k < NPROC && t[k].state == Runnable;
      assert Ready(t[k]);
      var min := MinTime(t, NPROC);
      var i :| 0 <= i < NPROC && Ready(t[i]) && t[i].vruntime == min;
      var left, w := LeftSide(t, min, NPROC), TotalWeight(t, NPROC);
      BestIsFirstMinimum(t, left, min, w, NPROC);
      LeastPasses(t[i], left, w);
      assert Candidate(t, left, min, w, i);
    }
  }

  // ---------- Transitions of the process table ----------

  /** One timer interrupt charged to the running process (usertrap and kerneltrap). */
  function Ticked(p: Proc): (q: Proc)
    requires WellTyped(p)
    ensures WellTyped(q) && q.nice == p.nice && (p.state == Running ==> Ready(q))
  {
    var v := Add64(p.vruntime, Step(p));
    var q := p.(runtime := Add64(p.runtime, 1000), totalTick := Add64(p.totalTick, 1000),
                timeSlice := Dec32(p.timeSlice), vruntime := v);
    if q.timeSlice <= 0 then q.(vdeadline := Add64(v, Slice(p)), state := Runnable) else q
  }

  /** A fresh slice and deadline from the current virtual time (wakeup, setnice). */
  function Rearmed(p: Proc): (q: Proc)
    requires WellTyped(p)
    ensures WellTyped(q)
  {
    p.(timeSlice := 5, vdeadline := Add64(p.vruntime, Slice(p)))
  }

  /** The fields allocproc sets in an UNUSED entry. */
  function Allocated(p: Proc, pid: nat): (q: Proc)
    ensures WellTyped(q)
  {
    var q := p.(pid := pid, state := Used, nice := 20, runtime := 0, vruntime := 0, timeSlice := 5, totalTick := 0);
    q.(vdeadline := Slice(q))
  }

  /** kfork's child: allocproc's entry, then nice, virtual time and deadline from the parent. */
  function Forked(child: Proc, parent: Proc, pid: nat): (q: Proc)
    requires WellTyped(parent)
    ensures WellTyped(q)
  {
    var q := Allocated(child, pid).(nice := parent.nice, vruntime := parent.vruntime);
    q.(vdeadline := Add64(q.vruntime, Slice(q)), state := Runnable)
  }

  /** freeproc. */
  function Freed(p: Proc): (q: Proc)
    requires WellTyped(p)
    ensures WellTyped(q)
  {
    p.(state := Unused, pid := 0, chan := 0, killed := false)
  }

  function WokenProc(p: Proc, chan: nat): (q: Proc)
    requires WellTyped(p)
    ensures WellTyped(q)
  {
    if p.state == Sleeping && p.chan == chan then Rearmed(p.(state := Runnable)) else p
  }

  function WokenAt(t: Table, chan: nat, me: Option<nat>, i: nat): (q: Proc)
    requires i < NPROC
    ensures WellTyped(q)
  {
    if Some(i) == me then t[i] else WokenProc(t[i], chan)
  }

  function Woken(t: Table, chan: nat, me: Option<nat>): (r: Table) {
    seq(NPROC, i requires 0 <= i < NPROC => WokenAt(t, chan, me, i))
  }

  /** The lowest index from k on that satisfies f. */
  function First(t: Table, f: Proc -> bool, k: nat): (r: Option<nat>)
    requires k <= NPROC
    ensures r.Some? ==> k <= r.value < NPROC && f(t[r.value]) && forall j | k <= j < r.value :: !f(t[j])
    ensures r.None? ==> forall j | k <= j < NPROC :: !f(t[j])
    decreases NPROC - k
  {
    if k == NPROC then None else if f(t[k]) then Some(k) else First(t, f, k + 1)
  }

  function FirstUnused(t: Table): Option<nat> { First(t, (p: Proc) => p.state == Unused, 0) }

  function Runner(t: Table): Option<nat> { First(t, (p: Proc) => p.state == Running, 0) }

  /** The entry setnice finds. */
  function Found(t: Table, pid: nat): Option<nat> { First(t, (p: Proc) => p.state != Unused && p.pid == pid, 0) }

  function Killed(t: Table, pid: nat): Table {
    match First(t, (p: Proc) => p.pid == pid, 0)
    case None => t
    case Some(i) => t[i := t[i].(killed := true, state := if t[i].state == Sleeping then Runnable else t[i].state)]
  }

  function Reniced(t: Table, pid: nat, value: int): Table {
    if value < 0 || value > 39 then t else
    match Found(t, pid)
    case None => t
    case Some(i) => t[i := Rearmed(t[i].(nice := value))]
  }

  function Dispatched(t: Table): Table {
    match Pick(t)
    case None => t
    case Some(i) => t[i := t[i].(state := Running)]
  }

  // ---------- Runs ----------

  /** `ticks` counts timer interrupts; pids count up from nextpid. */
  datatype System = System(procs: Table, nextpid: nat, ticks: nat)

  /** Everything that can happen to the table. Indices that do not fit the state are no-ops. */
  datatype Event =
    | Create                          // userinit: allocproc, then RUNNABLE
    | Fork(parent: nat, fails: bool)  // fails: memory ran out after allocproc took the entry
    | Dispatch                        // scheduler, when nothing is RUNNING
    | Timer                           // timer interrupt
    | Sleep(who: nat, chan: nat)
    | Wakeup(chan: nat, me: Option<nat>)
    | Kill(pid: nat)
    | SetNice(pid: nat, value: int)
    | Exit(who: nat)
    | Reap(who: nat)

  predicate NoneRunning(t: Table) { forall i | 0 <= i < NPROC :: t[i].state != Running }

  function Next(s: System, e: Event): System {
    var t := s.procs;
    match e
    case Create =>
      (match FirstUnused(t)
       case None => s
       case Some(i) => s.(procs := t[i := Allocated(t[i], s.nextpid).(state := Runnable)], nextpid := s.nextpid + 1))
    case Fork(parent, fails) =>
      (match FirstUnused(t)
       case None => s
       case Some(i) =>
         if parent < NPROC && t[parent].state == Running
         then s.(procs := t[i := if fails then Freed(Allocated(t[i], s.nextpid))
                                 else Forked(t[i], t[parent], s.nextpid)], nextpid := s.nextpid + 1)
         else s)
    case Dispatch => if NoneRunning(t) then s.(procs := Dispatched(t)) else s
    case Timer =>
      (match Runner(t)
       case None => s.(ticks := s.ticks + 1)
       case Some(i) => s.(procs := t[i := Ticked(t[i])], ticks := s.ticks + 1))
    case Sleep(who, chan) =>
      if who < NPROC && t[who].state == Running
      then s.(procs := t[who := t[who].(state := Sleeping, chan := chan)]) else s
    case Wakeup(chan, me) => s.(procs := Woken(t, chan, me))
    case Kill(pid) => s.(procs := Killed(t, pid))
    case SetNice(pid, value) => s.(procs := Reniced(t, pid, value))
    case Exit(who) =>
      if who < NPROC && t[who].state == Running then s.(procs := t[who := t[who].(state := Zombie)]) else s
    case Reap(who) =>
      if who < NPROC && t[who].state == Zombie
      then s.(procs := t[who := Freed(t[who])]) else s
  }

  function Run(s: System, events: seq<Event>): System
    decreases |events|
  {
    if events == [] then s else Next(Run(s, events[..|events|-1]), events[|events|-1])
  }

  // ---------- The kernel's own loops ----------

  ghost predicate AnyRunnable(t: Table, n: nat)
    requires n <= NPROC
  {
    exists j | 0 <= j < n :: t[j].state == Runnable
  }

  lemma RunnableNext(t: Table, n: nat)
    requires n < NPROC
    ensures AnyRunnable(t, n + 1) <==> AnyRunnable(t, n) || t[n].state == Runnable
  {
  }

  class ProcTable {
    var procs: Table
    var nextpid: nat

    /** Pass 1 of scheduler(): least virtual time and total weight of the ready set. */
    method MeasureQueue() returns (minV: nat, wSum: nat, isRunnable: bool)
      ensures minV == MinTime(procs, NPROC) && wSum == TotalWeight(procs, NPROC)
      ensures isRunnable <==> exists j | 0 <= j < NPROC :: procs[j].state == Runnable
    {
      minV, wSum, isRunnable := U64 - 1, 0, false;
      for i := 0 to NPROC
        invariant minV == MinTime(procs, i) && wSum == TotalWeight(procs, i)
        invariant isRunnable <==> AnyRunnable(procs, i)
      {
        var p := procs[i];
        RunnableNext(procs, i);
        if p.state == Runnable || p.state == Running {
          if p.vruntime < minV { minV := p.vruntime; }
          wSum := wSum + Weight(p);
          if p.state == Runnable { isRunnable := true; }
        }
      }
    }

    /** Pass 2: the left side of the eligibility comparison, modulo 2^64. */
    method SumLeft(minV: nat) returns (leftSide: nat)
      requires forall i | 0 <= i < NPROC && Ready(procs[i]) :: minV <= procs[i].vruntime
      ensures leftSide == LeftSide(procs, minV, NPROC)
      ensures leftSide == ShiftedSum(procs, minV, NPROC) % U64
    {
      leftSide := 0;
      for i := 0 to NPROC
        invariant leftSide == LeftSide(procs, minV, i)
      {
        var p := procs[i];
        if p.state == Runnable || p.state == Running {
          leftSide := (leftSide + Prod(p.vruntime - minV, Weight(p))) % U64;
        }
      }
      LeftIsShiftedSum(procs, minV, NPROC);
    }

    /** Pass 3: the first RUNNABLE process of least deadline that passes the comparison. */
    method ChooseBest(leftSide: nat, minV: nat, wSum: nat) returns (best: Option<nat>)
      requires forall i | 0 <= i < NPROC && Ready(procs[i]) :: minV <= procs[i].vruntime
      ensures best == Best(procs, leftSide, minV, wSum, NPROC).0
    {
      best := None;
      var bestDeadline := U64 - 1;
      for i := 0 to NPROC
        invariant (best, bestDeadline) == Best(procs, leftSide, minV, wSum, i)
      {
        var p := procs[i];
        if p.state == Runnable {
          var rightSide := Prod(p.vruntime - minV, wSum) % U64;
          if leftSide >= rightSide && p.vdeadline < bestDeadline {
            best, bestDeadline := Some(i), p.vdeadline;
          }
        }
      }
    }

    /** One round of scheduler(), up to the context switch. */
    method Scheduler() returns (best: Option<nat>)
      modifies this`procs
      ensures best == Pick(old(procs)) && procs == Dispatched(old(procs))
    {
      var minV, wSum, isRunnable := MeasureQueue();
      if !isRunnable { return None; }
      var leftSide := SumLeft(minV);
      best := ChooseBest(leftSide, minV, wSum);
      if best.Some? {
        procs := procs[best.value := procs[best.value].(state := Running)];
      }
    }

    /** The timer branch of usertrap and kerneltrap for the running process i. */
    method TimerInterrupt(i: nat)
      requires i < NPROC && procs[i].state == Running
      modifies this`procs
      ensures procs == old(procs)[i := Ticked(old(procs)[i])]
    {
      var p := procs[i];
      var step, slice := Step(p), Slice(p);
      p := p.(runtime := Add64(p.runtime, 1000), totalTick := Add64(p.totalTick, 1000),
              timeSlice := Dec32(p.timeSlice));
      p := p.(vruntime := Add64(p.vruntime, step));
      if p.timeSlice <= 0 {
        p := p.(vdeadline := Add64(p.vruntime, slice));
        p := p.(state := Runnable);
      }
      procs := procs[i := p];
    }

    method WakeupAll(chan: nat, me: Option<nat>)
      modifies this`procs
      ensures procs == Woken(old(procs), chan, me)
    {
      ghost var t := procs;
      for i := 0 to NPROC
        invariant forall j | 0 <= j < i :: procs[j] == if Some(j) == me then t[j] else WokenProc(t[j], chan)
        invariant forall j | i <= j < NPROC :: procs[j] == t[j]
      {
        if Some(i) != me {
          var p := procs[i];
          if p.state == Sleeping && p.chan == chan {
            procs := procs[i := p.(state := Runnable, timeSlice := 5,
                                   vdeadline := Add64(p.vruntime, Slice(p)))];
          }
        }
      }
    }

    method SetNiceOf(pid: nat, value: int) returns (r: int)
      modifies this`procs
      ensures procs == Reniced(old(procs), pid, value)
      ensures r == 0 <==> && 0 <= value <= 39
                          && exists i | 0 <= i < NPROC :: old(procs)[i].state != Unused && old(procs)[i].pid == pid
      ensures r == 0 || r == -1
    {
      if value < 0 || value > 39 { return -1; }
      for i := 0 to NPROC
        invariant procs == old(procs)
        invariant forall j | 0 <= j < i :: procs[j].state == Unused || procs[j].pid != pid
      {
        var p := procs[i];
        if p.state != Unused && p.pid == pid {
          p := p.(nice := value);
          procs := procs[i := p.(timeSlice := 5, vdeadline := Add64(p.vruntime, Slice(p)))];
          return 0;
        }
      }
      return -1;
    }

    /** kfork's effect on scheduling: the first UNUSED entry becomes a RUNNABLE copy of the parent's pace,
        or is used and freed again when memory runs out. */
    method ForkFrom(parent: nat, fails: bool) returns (pid: int)
      requires parent < NPROC && procs[parent].state == Running
      modifies this
      ensures var s := System(old(procs), old(nextpid), 0);
              procs == Next(s, Fork(parent, fails)).procs && nextpid == Next(s, Fork(parent, fails)).nextpid
      ensures pid == -1 <==> fails || forall i | 0 <= i < NPROC :: old(procs)[i].state != Unused
      ensures pid != -1 ==> pid == old(nextpid)
    {
      var i := 0;
      while i < NPROC && procs[i].state != Unused
        invariant i <= NPROC && forall j | 0 <= j < i :: procs[j].state != Unused
      {
        i := i + 1;
      }
      if i == NPROC { return -1; }
      pid := ForkAt(parent, fails, i);
    }

    /** allocproc and the rest of kfork, once entry i is found. */
    method ForkAt(parent: nat, fails: bool, i: nat) returns (pid: int)
      requires parent < NPROC && i < NPROC && procs[i].state == Unused
      modifies this
      ensures procs == old(procs)[i := if fails then Freed(Allocated(old(procs)[i], old(nextpid)))
                                       else Forked(old(procs)[i], old(procs)[parent], old(nextpid))]
      ensures nextpid == old(nextpid) + 1 && pid == if fails then -1 else old(nextpid)
    {
      var np := procs[i].(pid := nextpid, state := Used, nice := 20, runtime := 0, vruntime := 0, timeSlice := 5,
                          totalTick := 0);
      np := np.(vdeadline := Slice(np));
      nextpid := nextpid + 1;
      if fails {
        procs := procs[i := np.(state := Unused, pid := 0, chan := 0, killed := false)];
        return -1;
      }
      np := np.(nice := procs[parent].nice, vruntime := procs[parent].vruntime);
      np := np.(vdeadline := Add64(np.vruntime, Slice(np)));
      np := np.(state := Runnable);
      procs := procs[i := np];
      pid := np.pid;
    }
  }
}
