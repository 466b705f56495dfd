/** Two processes of the lowest priority: what the wrap of a 32-bit slice and a long sleep do to the lag bound. */
module Twins {
  import opened Eevdf
  import opened Deadlines
  import opened Fairness
  import opened Crowds

  // ---------- Two processes ----------

  /** A process of nice value 39 that has had n ticks since virtual time 0. */
  datatype Twin = Twin(state: ProcState, n: nat, slice: int)

  ghost predicate Is(p: Proc, w: Twin) {
    && p.state == w.state && p.vruntime == 68266 * w.n && p.timeSlice == w.slice && p.nice == 39
    && (w.state == Runnable ==> p.vdeadline == p.vruntime + 341333)
  }

  ghost predicate Are(t: Table, a: Twin, b: Twin) {
    Is(t[0], a) && Is(t[1], b) && forall i | 2 <= i < NPROC :: t[i].state == Unused
  }

  /** Half the table is ready. */
  ghost predicate Both(a: Twin, b: Twin) { a.state in {Runnable, Running} && b.state in {Runnable, Running} }

  lemma {:induction false} TwinSums(t: Table, a: Twin, b: Twin, n: nat)
    requires Are(t, a, b) && Both(a, b) && 2 <= n <= NPROC
    ensures TotalWeight(t, n) == 30 && WeightedTime(t, n) == 1023990 * a.n + 1023990 * b.n
    ensures Others(t, 0, n) == 1 && Others(t, 1, n) == 1
  {
    if n == 2 {
      assert TotalWeight(t, 0) == 0 && TotalWeight(t, 1) == 15 && TotalWeight(t, 2) == 30;
      assert WeightedTime(t, 0) == 0 && WeightedTime(t, 1) == 1023990 * a.n;
      assert WeightedTime(t, 2) == 1023990 * a.n + 1023990 * b.n;
      assert Others(t, 0, 0) == 0 && Others(t, 0, 1) == 0 && Others(t, 0, 2) == 1;
      assert Others(t, 1, 0) == 0 && Others(t, 1, 1) == 1 && Others(t, 1, 2) == 1;
    } else {
      TwinSums(t, a, b, n - 1);
    }
  }

  lemma TwinLead(t: Table, a: Twin, b: Twin)
    requires Are(t, a, b) && Both(a, b)
    ensures TotalWeight(t, NPROC) > 0 && Others(t, 0, NPROC) == 1 && Others(t, 1, NPROC) == 1
    ensures Lead(t[0], Average(t)) == 511995.0 * (a.n - b.n) as real
    ensures Lead(t[1], Average(t)) == 511995.0 * (b.n - a.n) as real
  {
    TwinSums(t, a, b, NPROC);
    assert Average(t) == (1023990.0 * a.n as real + 1023990.0 * b.n as real) / 30.0;
  }

  /** More than ten ticks apart, both halves of the bound are broken. */
  lemma FarApart(t: Table, a: Twin, b: Twin)
    requires Are(t, a, b) && Both(a, b) && (a.n > b.n + 10 || b.n > a.n + 10)
    ensures !LagBounded(t)
  {
    TwinLead(t, a, b);
    assert Ready(t[0]) && Ready(t[1]);
  }

  // ---------- Dispatch and tick ----------

  /** Ticks after which virtual times and deadlines are still far from 2^64. */
  const MANY: nat := 0x2_0000_0000

  lemma TwinTame(t: Table, a: Twin, b: Twin)
    requires Are(t, a, b) && a.state == b.state == Runnable && b.n <= a.n <= b.n + 5 && a.n <= MANY
    ensures Tame(t)
  {
    TwinSums(t, a, b, NPROC);
    var min := MinTime(t, NPROC);
    assert Ready(t[0]) && Ready(t[1]) && min == 68266 * b.n;
    ShiftedSumExact(t, min, NPROC);
    assert Prod(min, 30) == 2047980 * b.n;
    assert Prod(t[0].vruntime - min, 30) == 2047980 * (a.n - b.n) && Prod(0, 30) == 0;
  }

  /** The first goes first when they are level, and the second when it is behind. */
  lemma TwinPick(t: Table, a: Twin, b: Twin)
    requires Are(t, a, b) && a.state == b.state == Runnable && b.n <= a.n <= b.n + 5 && a.n <= MANY
    ensures Pick(t) == Some(if a.n == b.n then 0 else 1)
  {
    TwinTame(t, a, b);
    TwinSums(t, a, b, NPROC);
    assert Prod(t[0].vruntime, 30) == 2047980 * a.n && Prod(t[1].vruntime, 30) == 2047980 * b.n;
    PickIsEarliestEligible(t, if a.n == b.n then 0 else 1);
  }

  lemma TwinDispatch(s: System, s': System, a: Twin, b: Twin)
    requires Are(s.procs, a, b) && a.state == b.state == Runnable && b.n <= a.n <= b.n + 5 && a.n <= MANY
    requires s' == Next(s, Dispatch)
    ensures NoneRunning(s.procs) && s'.ticks == s.ticks
    ensures if a.n == b.n then Are(s'.procs, a.(state := Running), b) else Are(s'.procs, a, b.(state := Running))
  {
    TwinPick(s.procs, a, b);
  }

  /** One tick's accounting. */
  function Tick(w: Twin): Twin {
    Twin(if Dec32(w.slice) <= 0 then Runnable else Running, w.n + 1, Dec32(w.slice))
  }

  lemma TickIs(p: Proc, w: Twin)
    requires WellTyped(p) && Is(p, w) && w.state == Running && w.n <= MANY
    ensures Is(Ticked(p), Tick(w))
  {
    NoWrap(p.vruntime, 68266);
    NoWrap(p.vruntime + 68266, 341333);
  }

  lemma TwinTick(s: System, s': System, a: Twin, b: Twin)
    requires Are(s.procs, a, b) && a.n <= MANY && b.n <= MANY && s' == Next(s, Timer)
    requires (a.state == Running) != (b.state == Running)
    ensures s'.ticks == s.ticks + 1 && Runner(s.procs) == Some(if a.state == Running then 0 else 1)
    ensures if a.state == Running then Are(s'.procs, Tick(a), b) else Are(s'.procs, a, Tick(b))
  {
    if a.state == Running { TickIs(s.procs[0], a); } else { TickIs(s.procs[1], b); }
  }

  // ---------- Round robin ----------

  /** After the first five ticks each and r more rounds of one tick each. */
  ghost predicate Round(p: Trace, r: nat) {
    && Are(p.sys.procs, Twin(Runnable, r + 5, 0 - r), Twin(Runnable, r + 5, 0 - r))
    && p.sys.ticks == 2 * r + 10 && p.plain && p.charged == r + 5
  }

  /** On the way to the first round: a and b are the two processes now. */
  ghost predicate At(p: Trace, a: Twin, b: Twin, ticks: nat, charged: int) {
    Are(p.sys.procs, a, b) && p.sys.ticks == ticks && p.plain && p.charged == charged
  }

  lemma AtDispatch(s: System, es: seq<Event>, p: Trace, a: Twin, b: Twin, ticks: nat, charged: int)
    returns (es': seq<Event>, p': Trace)
    requires Traced(s, es) == p && At(p, a, b, ticks, charged)
    requires a.state == b.state == Runnable && b.n <= a.n <= b.n + 5 && a.n <= MANY
    ensures Traced(s, es') == p'
    ensures if a.n == b.n then At(p', a.(state := Running), b, ticks, charged)
            else At(p', a, b.(state := Running), ticks, charged)
  {
    es', p' := TraceMore(s, es, p, Dispatch);
    TwinDispatch(p.sys, p'.sys, a, b);
  }

  lemma AtTick(s: System, es: seq<Event>, p: Trace, a: Twin, b: Twin, ticks: nat, charged: int)
    returns (es': seq<Event>, p': Trace)
    requires Traced(s, es) == p && At(p, a, b, ticks, charged)
    requires a.n <= MANY && b.n <= MANY && (a.state == Running) != (b.state == Running)
    ensures Traced(s, es') == p'
    ensures if a.state == Running then At(p', Tick(a), b, ticks + 1, charged + 1)
            else At(p', a, Tick(b), ticks + 1, charged)
  {
    es', p' := TraceMore(s, es, p, Timer);
    TwinTick(p.sys, p'.sys, a, b);
  }

  /** k ticks of the first process, which does not yield before the last of them. */
  lemma {:induction false} FirstTicks(s: System, es: seq<Event>, p: Trace, n: nat, b: Twin, ticks: nat, charged: int,
                                      k: nat)
    returns (es': seq<Event>, p': Trace)
    requires Traced(s, es) == p && At(p, Twin(Running, n, 5), b, ticks, charged) && b.state == Runnable
    requires n + k <= MANY && b.n <= MANY && k <= 5
    ensures Traced(s, es') == p'
    ensures At(p', Twin(if k < 5 then Running else Runnable, n + k, 5 - k), b, ticks + k, charged + k)
  {
    if k == 0 {
      es', p' := es, p;
    } else {
      var es1, p1 := FirstTicks(s, es, p, n, b, ticks, charged, k - 1);
      es', p' := AtTick(s, es1, p1, Twin(Running, n + k - 1, 6 - k), b, ticks + k - 1, charged + k - 1);
    }
  }

  lemma {:induction false} SecondTicks(s: System, es: seq<Event>, p: Trace, a: Twin, n: nat, ticks: nat, charged: int,
                                       k: nat)
    returns (es': seq<Event>, p': Trace)
    requires Traced(s, es) == p && At(p, a, Twin(Running, n, 5), ticks, charged) && a.state != Running
    requires a.n <= MANY && n + k <= MANY && k <= 5
    ensures Traced(s, es') == p'
    ensures At(p', a, Twin(if k < 5 then Running else Runnable, n + k, 5 - k), ticks + k, charged)
  {
    if k == 0 {
      es', p' := es, p;
    } else {
      var es1, p1 := SecondTicks(s, es, p, a, n, ticks, charged, k - 1);
      es', p' := AtTick(s, es1, p1, a, Twin(Running, n + k - 1, 6 - k), ticks + k - 1, charged);
    }
  }

  lemma CrowdIsTwins()
    ensures At(Start(Crowd(2)), Twin(Runnable, 0, 5), Twin(Runnable, 0, 5), 0, 0)
  {
  }

  lemma FirstRound() returns (es: seq<Event>, p: Trace)
    ensures Traced(Crowd(2), es) == p && Round(p, 0)
  {
    var s, w := Crowd(2), Twin(Runnable, 0, 5);
    CrowdIsTwins();
    var es1, p1 := AtDispatch(s, [], Start(s), w, w, 0, 0);
    var es2, p2 := FirstTicks(s, es1, p1, 0, w, 0, 0, 5);
    var es3, p3 := AtDispatch(s, es2, p2, Twin(Runnable, 5, 0), w, 5, 5);
    es, p := SecondTicks(s, es3, p3, Twin(Runnable, 5, 0), 0, 5, 5, 5);
  }

  lemma {:induction false} RoundRobin(r: nat) returns (es: seq<Event>, p: Trace)
    requires r <= 0x8000_0000
    ensures Traced(Crowd(2), es) == p && Round(p, r)
  {
    if r == 0 {
      es, p := FirstRound();
    } else {
      var es0, p0 := RoundRobin(r - 1);
      es, p := NextRound(es0, p0, r - 1);
    }
  }

  lemma NextRound(es0: seq<Event>, p0: Trace, r: nat) returns (es: seq<Event>, p: Trace)
    requires Traced(Crowd(2), es0) == p0 && Round(p0, r) && r < 0x8000_0000
    ensures Traced(Crowd(2), es) == p && Round(p, r + 1)
  {
    var s, w, ticks := Crowd(2), Twin(Runnable, r + 5, 0 - r), 2 * r + 10;
    var w' := Twin(Runnable, r + 6, 0 - r - 1);
    var es1, p1 := AtDispatch(s, es0, p0, w, w, ticks, r + 5);
    var es2, p2 := AtTick(s, es1, p1, w.(state := Running), w, ticks, r + 5);
    var es3, p3 := AtDispatch(s, es2, p2, w', w, ticks + 1, r + 6);
    es, p := AtTick(s, es3, p3, w', w.(state := Running), ticks + 1, r + 6);
  }

  // ---------- The slice wraps ----------

  /** k ticks into the dispatch in which process 0's slice has wrapped. */
  ghost predicate Wrapped(p: Trace, k: nat) {
    At(p, Twin(Running, 0x8000_0005 + k, if k == 0 then -0x8000_0000 else 0x8000_0000 - k),
       Twin(Runnable, 0x8000_0005, -0x8000_0000), 0x1_0000_000A + k, LAST_TICK + k)
  }

  lemma {:induction false} WrappedRun(k: nat) returns (es: seq<Event>, p: Trace)
    requires k < 0x8000_0000
    ensures Traced(Crowd(2), es) == p && Wrapped(p, k)
  {
    var b := Twin(Runnable, 0x8000_0005, -0x8000_0000);
    if k == 0 {
      var es0, p0 := RoundRobin(0x8000_0000);
      es, p := AtDispatch(Crowd(2), es0, p0, b, b, 0x1_0000_000A, LAST_TICK);
    } else {
      var es0, p0 := WrappedRun(k - 1);
      var a := Twin(Running, 0x8000_0004 + k, if k == 1 then -0x8000_0000 else 0x8000_0001 - k);
      es, p := AtTick(Crowd(2), es0, p0, a, b, 0x1_0000_0009 + k, LAST_TICK + k - 1);
    }
  }

  /** Dispatches and ticks alone break the bound once a process is charged more than 2^31 + 5 ticks: two processes
      take turns until both have had that many, and the next one keeps the CPU. */
  lemma WrapLeads(k: nat) returns (es: seq<Event>)
    requires 10 < k < 0x8000_0000
    ensures var s := Crowd(2);
            && FairStart(s) && AllDeadlines(s) && Plain(es) && Charged(s, es, 0) == LAST_TICK + k
            && Run(s, es).ticks == 0x1_0000_000A + k && TotalWeight(Run(s, es).procs, NPROC) > 0
            && Lead(Run(s, es).procs[0], Average(Run(s, es).procs)) == 511995.0 * k as real
            && !LagBounded(Run(s, es).procs)
  {
    var p;
    es, p := WrappedRun(k);
    CrowdIsFair(2);
    TraceIs(Crowd(2), es, p);
    var a, b := Twin(Running, 0x8000_0005 + k, 0x8000_0000 - k), Twin(Runnable, 0x8000_0005, -0x8000_0000);
    TwinLead(p.sys.procs, a, b);
    FarApart(p.sys.procs, a, b);
  }

  // ---------- A sleeper ----------

  /** Process 0 sleeps at virtual time 0; process 1 has run alone for k ticks, five and then one at a time. */
  ghost predicate Napping(p: Trace, k: nat) {
    && Are(p.sys.procs, Twin(Sleeping, 0, 5), Twin(if k < 5 then Running else Runnable, k, 5 - k))
    && p.sys.procs[0].chan == 9 && p.sys.ticks == k && p.gentle && p.longest <= 5
    && p.stint == (if k <= 5 then k else 1)
  }

  lemma SleepIsGentle(b: System, b': System, x: Twin, y: Twin)
    requires Are(b.procs, x, y) && x == Twin(Running, 0, 5) && y == Twin(Runnable, 0, 5) && b' == Next(b, Sleep(0, 9))
    ensures Gentle(b, Sleep(0, 9), 0) && Are(b'.procs, x.(state := Sleeping), y) && b'.procs[0].chan == 9
  {
    TwinSums(b.procs, x, y, NPROC);
    assert Prod(0, TotalWeight(b'.procs, NPROC)) == 0;
  }

  lemma AloneDispatch(b: System, b': System, k: nat, y: Twin)
    requires Are(b.procs, Twin(Sleeping, 0, 5), y) && y.state == Runnable && y.n <= MANY && b' == Next(b, Dispatch)
    ensures NoneRunning(b.procs) && Are(b'.procs, Twin(Sleeping, 0, 5), y.(state := Running))
    ensures b'.procs[0].chan == b.procs[0].chan
  {
    OnlyOne(b.procs, 1);
  }

  /** Process 0 has just gone to sleep. */
  ghost predicate Asleep(p: Trace) {
    && Are(p.sys.procs, Twin(Sleeping, 0, 5), Twin(Runnable, 0, 5)) && p.sys.procs[0].chan == 9
    && p.sys.ticks == 0 && p.gentle && p.longest == 0
  }

  lemma FallAsleep(p: Trace, p1: Trace, p2: Trace)
    requires Are(p.sys.procs, Twin(Runnable, 0, 5), Twin(Runnable, 0, 5)) && p.sys.ticks == 0 && p.gentle
    requires p.longest == 0
    requires p1 == Extended(p, Dispatch) && p2 == Extended(p1, Sleep(0, 9))
    ensures Asleep(p2)
  {
    var w := Twin(Runnable, 0, 5);
    TwinDispatch(p.sys, p1.sys, w, w);
    SleepIsGentle(p1.sys, p2.sys, w.(state := Running), w);
  }

  lemma WakeTheOther(p: Trace, p': Trace)
    requires Asleep(p) && p' == Extended(p, Dispatch)
    ensures Napping(p', 0)
  {
    AloneDispatch(p.sys, p'.sys, 0, Twin(Runnable, 0, 5));
  }

  lemma NapStarts() returns (es: seq<Event>, p: Trace)
    ensures Traced(Crowd(2), es) == p && Napping(p, 0)
  {
    var s := Crowd(2);
    var p0 := Start(s);
    CrowdIsTwins();
    var es1, p1 := TraceMore(s, [], p0, Dispatch);
    var es2, p2 := TraceMore(s, es1, p1, Sleep(0, 9));
    FallAsleep(p0, p1, p2);
    es, p := TraceMore(s, es2, p2, Dispatch);
    WakeTheOther(p2, p);
  }

  lemma NapTick(es0: seq<Event>, p0: Trace, k: nat) returns (es: seq<Event>, p: Trace)
    requires Traced(Crowd(2), es0) == p0 && Napping(p0, k) && k < MANY && k < 0x7fff_ffff
    ensures Traced(Crowd(2), es) == p && Napping(p, k + 1)
  {
    var x, y := Twin(Sleeping, 0, 5), Twin(Running, k, 5 - k);
    var es1, p1 := es0, p0;
    if k >= 5 {
      es1, p1 := TraceMore(Crowd(2), es0, p0, Dispatch);
      AloneDispatch(p0.sys, p1.sys, k, y.(state := Runnable));
    }
    es, p := TraceMore(Crowd(2), es1, p1, Timer);
    TwinTick(p1.sys, p.sys, x, y);
  }

  lemma {:induction false} NapRun(k: nat) returns (es: seq<Event>, p: Trace)
    requires k <= 0x7fff_ffff
    ensures Traced(Crowd(2), es) == p && Napping(p, k)
  {
    if k == 0 {
      es, p := NapStarts();
    } else {
      var es0, p0 := NapRun(k - 1);
      es, p := NapTick(es0, p0, k - 1);
    }
  }

  lemma NapEnds(b: System, b': System, k: nat)
    requires Are(b.procs, Twin(Sleeping, 0, 5), Twin(Runnable, k, 5 - k)) && b.procs[0].chan == 9
    requires b' == Next(b, Wakeup(9, None))
    ensures Are(b'.procs, Twin(Runnable, 0, 5), Twin(Runnable, k, 5 - k))
  {
    NoWrap(0, 341333);
  }

  /** A sleeper breaks both halves of the bound: it wakes as far behind as the other has run meanwhile, and pulls V
      down under it. Every event before the wakeup is gentle, and every dispatch lasts at most five ticks. */
  lemma SleeperBreaksLag(k: nat) returns (es: seq<Event>)
    requires 10 < k <= 0x7fff_ffff
    ensures var s, last := Crowd(2), es + [Wakeup(9, None)];
            var t := Run(s, last).procs;
            && FairStart(s) && GentleRun(s, es) && Short(s, last, 5)
            && TotalWeight(t, NPROC) > 0 && Others(t, 0, NPROC) == 1
            && Lead(t[1], Average(t)) == 511995.0 * k as real && Lead(t[0], Average(t)) == -511995.0 * k as real
            && !LagBounded(t)
  {
    var p;
    es, p := NapRun(k);
    var s, last, p' := Crowd(2), es + [Wakeup(9, None)], Extended(p, Wakeup(9, None));
    CrowdIsFair(2);
    TraceIs(s, es, p);
    assert last[..|last|-1] == es;
    TraceIs(s, last, p');
    TraceShort(s, last, 5);
    NapEnds(p.sys, p'.sys, k);
    TwinLead(p'.sys.procs, Twin(Runnable, 0, 5), Twin(Runnable, k, 5 - k));
    FarApart(p'.sys.procs, Twin(Runnable, 0, 5), Twin(Runnable, k, 5 - k));
  }
}
