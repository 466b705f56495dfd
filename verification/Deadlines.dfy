/** Deadlines and dispatch over every run of the scheduler's process table. */
module Deadlines {
  import opened Eevdf

  // ---------- What one event does to one entry ----------

  /** e charges a tick to entry i. */
  predicate Charges(s: System, e: Event, i: nat) { e.Timer? && Runner(s.procs) == Some(i) }

  /** e gives entry i a fresh slice: allocproc, wakeup or setnice. */
  predicate Rearms(s: System, e: Event, i: nat)
    requires i < NPROC
  {
    match e
    case Create => FirstUnused(s.procs) == Some(i)
    case Fork(parent, _) => FirstUnused(s.procs) == Some(i) && parent < NPROC && s.procs[parent].state == Running
    case Wakeup(chan, me) => Some(i) != me && s.procs[i].state == Sleeping && s.procs[i].chan == chan
    case SetNice(pid, value) => 0 <= value <= 39 && Found(s.procs, pid) == Some(i)
    case _ => false
  }

  ghost predicate SamePace(p: Proc, q: Proc) {
    q.nice == p.nice && q.vruntime == p.vruntime && q.vdeadline == p.vdeadline && q.timeSlice == p.timeSlice
  }

  /** A full slice and the deadline one slice away; the virtual time is not new. */
  ghost predicate Fresh(t: Table, p: Proc, q: Proc) {
    && WellTyped(q) && q.timeSlice == 5 && q.vdeadline == Add64(q.vruntime, Slice(q))
    && (q.vruntime == p.vruntime || q.vruntime == 0 || exists j | 0 <= j < NPROC :: q.vruntime == t[j].vruntime)
  }

  lemma EntryStep(s: System, e: Event, i: nat)
    requires i < NPROC
    ensures var p, q := s.procs[i], Next(s, e).procs[i];
            if Charges(s, e, i) then q == Ticked(p)
            else if Rearms(s, e, i) then Fresh(s.procs, p, q)
            else SamePace(p, q)
  {
    if Rearms(s, e, i) {
      RearmedIsFresh(s, e, i);
    } else if !e.Timer? {
      OthersKeepPace(s, e, i);
    }
  }

  lemma RearmedIsFresh(s: System, e: Event, i: nat)
    requires i < NPROC && Rearms(s, e, i)
    ensures Fresh(s.procs, s.procs[i], Next(s, e).procs[i])
  {
    CreatedIsFresh(s.procs, s.procs[i], s.nextpid);
  }

  lemma OthersKeepPace(s: System, e: Event, i: nat)
    requires i < NPROC && !Rearms(s, e, i) && !e.Timer?
    ensures SamePace(s.procs[i], Next(s, e).procs[i])
  {
  }

  lemma CreatedIsFresh(t: Table, p: Proc, pid: nat)
    ensures Fresh(t, p, Allocated(p, pid))
  {
    NoWrap(0, Slice(Allocated(p, pid)));
  }

  // ---------- Virtual time and deadlines stay small, whatever happens ----------

  /** One slice at the smallest weight. */
  const MAX_SLICE: nat := 341333

  ghost predicate Timed(p: Proc, ticks: nat) {
    p.vruntime <= MAX_STEP * ticks && p.vdeadline <= p.vruntime + MAX_SLICE
  }

  ghost predicate AllTimed(s: System) {
    forall i {:trigger Timed(s.procs[i], s.ticks)} | 0 <= i < NPROC :: Timed(s.procs[i], s.ticks)
  }

  lemma TicksGrow(s: System, e: Event)
    ensures Next(s, e).ticks == s.ticks + if e.Timer? then 1 else 0
  {
  }

  lemma TickKeepsTimed(p: Proc, ticks: nat)
    requires WellTyped(p) && Timed(p, ticks) && ticks < MAX_TICKS
    ensures Timed(Ticked(p), ticks + 1) && Ticked(p).vruntime == p.vruntime + Step(p)
  {
    NoWrap(p.vruntime, Step(p));
    NoWrap(p.vruntime + Step(p), Slice(p));
  }

  lemma FreshIsTimed(t: Table, p: Proc, q: Proc, ticks: nat)
    requires Fresh(t, p, q) && ticks <= MAX_TICKS && p.vruntime <= MAX_STEP * ticks
    requires forall j | 0 <= j < NPROC :: t[j].vruntime <= MAX_STEP * ticks
    ensures Timed(q, ticks) && q.vdeadline == q.vruntime + Slice(q)
  {
    NoWrap(q.vruntime, Slice(q));
  }

  lemma EntryKeepsTimed(s: System, e: Event, i: nat)
    requires AllTimed(s) && Next(s, e).ticks <= MAX_TICKS && i < NPROC
    ensures Timed(Next(s, e).procs[i], Next(s, e).ticks)
    ensures !Charges(s, e, i) && Rearms(s, e, i) ==>
              var q := Next(s, e).procs[i]; q.timeSlice == 5 && q.vdeadline == q.vruntime + Slice(q)
  {
    var p, q := s.procs[i], Next(s, e).procs[i];
    EntryStep(s, e, i);
    TicksGrow(s, e);
    assert Timed(p, s.ticks);
    if Charges(s, e, i) {
      TickKeepsTimed(p, s.ticks);
    } else if Rearms(s, e, i) {
      forall j | 0 <= j < NPROC ensures s.procs[j].vruntime <= MAX_STEP * s.ticks { assert Timed(s.procs[j], s.ticks); }
      FreshIsTimed(s.procs, p, q, s.ticks);
    }
  }

  lemma NextKeepsTimed(s: System, e: Event)
    requires AllTimed(s) && Next(s, e).ticks <= MAX_TICKS
    ensures AllTimed(Next(s, e))
  {
    forall i: nat | i < NPROC ensures Timed(Next(s, e).procs[i], Next(s, e).ticks) { EntryKeepsTimed(s, e, i); }
  }

  lemma {:induction false} RunKeepsTimed(s: System, events: seq<Event>)
    requires AllTimed(s) && Run(s, events).ticks <= MAX_TICKS
    ensures AllTimed(Run(s, events))
    decreases |events|
  {
    if events == [] {
    } else {
      var init, e := events[..|events|-1], events[|events|-1];
      TicksGrow(Run(s, init), e);
      RunKeepsTimed(s, init);
      NextKeepsTimed(Run(s, init), e);
    }
  }

  lemma DeadlinesFit(s: System)
    requires AllTimed(s) && s.ticks <= MAX_TICKS
    ensures forall i | 0 <= i < NPROC :: s.procs[i].vdeadline < U64 - 1
  {
    forall i | 0 <= i < NPROC ensures s.procs[i].vdeadline < U64 - 1 {
      assert Timed(s.procs[i], s.ticks);
    }
  }

  /** The process table at boot is zeroed. */
  const BOOT: System := System(seq(NPROC, i => Proc(Unused, 0, 0, false, 0, 0, 0, 0, 0, 0)), 1, 0)

  /** The scheduler never idles over a RUNNABLE process: after any events from boot, up to 2^47 ticks,
      one is dispatched exactly when there is one and the CPU is free. */
  lemma AlwaysDispatched(events: seq<Event>)
    requires Run(BOOT, events).ticks <= MAX_TICKS && NoneRunning(Run(BOOT, events).procs)
    ensures var t, t' := Run(BOOT, events).procs, Run(BOOT, events + [Dispatch]).procs;
            (exists i | 0 <= i < NPROC :: t[i].state == Runnable)
              <==> exists i | 0 <= i < NPROC :: t'[i].state == Running
  {
    var s, longer := Run(BOOT, events), events + [Dispatch];
    assert longer[..|longer|-1] == events;
    BootIsSound();
    RunKeepsTimed(BOOT, events);
    DeadlinesFit(s);
    PickNeverStalls(s.procs);
    if Pick(s.procs).Some? { assert Run(BOOT, longer).procs[Pick(s.procs).value].state == Running; }
  }

  // ---------- The deadline invariant and the 32-bit slice ----------

  /** vruntime + max(0, time_slice) * step <= vdeadline <= vruntime + slice */
  predicate DeadlineOk(p: Proc)
    requires p.nice < 40
  {
    && p.vruntime + (if p.timeSlice <= 0 then 0 else Prod(p.timeSlice, Step(p))) <= p.vdeadline
    && p.vdeadline <= p.vruntime + Slice(p)
  }

  lemma QuotUpper(a: nat, b: nat)
    requires b > 0
    ensures a < Prod(b, Quot(a, b) + 1)
  {
  }

  /** A slice is five steps, and less than a step more. */
  lemma SliceIsFiveSteps(w: nat)
    requires 15 <= w <= 88818
    ensures StepAt(w) >= 11 && SliceAt(w) <= 5 * StepAt(w) + 4
  {
    var q, s := StepAt(w), SliceAt(w);
    ProdMonotone(w, 88818, 11);
    QuotGreatest(TICK, w, 11);
    QuotUpper(TICK, w);
    QuotLower(SLICE, w);
    assert Prod(w, 5 * q + 5) == 5 * Prod(w, q + 1);
    if s >= 5 * q + 5 { ProdMonotone(5 * q + 5, s, w); }
  }

  /** The two bounds leave room for five ticks at most. */
  lemma SliceAtMostFive(p: Proc)
    requires p.nice < 40 && DeadlineOk(p)
    ensures p.timeSlice <= 5
  {
    SliceIsFiveSteps(Weight(p));
    assert Prod(6, Step(p)) == 6 * Step(p);
    if p.timeSlice > 5 { ProdMonotone(6, p.timeSlice, Step(p)); }
  }

  ghost predicate AllDeadlines(s: System) {
    forall i {:trigger DeadlineOk(s.procs[i])} | 0 <= i < NPROC :: DeadlineOk(s.procs[i])
  }

  /** Ticks charged to i since its last allocproc, wakeup or setnice; what it had used of its slice at the start
      counts. */
  function Charged(s: System, events: seq<Event>, i: nat): int
    requires i < NPROC
    decreases |events|
  {
    if events == [] then 5 - s.procs[i].timeSlice else
    var init, e := events[..|events|-1], events[|events|-1];
    if Charges(Run(s, init), e, i) then Charged(s, init, i) + 1
    else if Rearms(Run(s, init), e, i) then 0 else Charged(s, init, i)
  }

  /** 2^31 + 5: the ticks after which the int has counted down from 5 to its least value. */
  const LAST_TICK: int := 0x8000_0005

  ghost predicate Within(s: System, events: seq<Event>) {
    forall i: nat {:trigger Charged(s, events, i)} | i < NPROC :: Charged(s, events, i) <= LAST_TICK
  }

  /** After every prefix of the events. */
  ghost predicate AlwaysWithin(s: System, events: seq<Event>)
    decreases |events|
  {
    Within(s, events) && (events == [] || AlwaysWithin(s, events[..|events|-1]))
  }

  ghost predicate AlwaysDeadlines(s: System, events: seq<Event>)
    decreases |events|
  {
    AllDeadlines(Run(s, events)) && (events == [] || AlwaysDeadlines(s, events[..|events|-1]))
  }

  ghost predicate SliceCounts(s: System, events: seq<Event>) {
    forall i: nat {:trigger Charged(s, events, i)} | i < NPROC ::
             Run(s, events).procs[i].timeSlice == 5 - Charged(s, events, i)
  }

  /** A tick keeps the invariant exactly when the slice does not wrap. */
  lemma TickKeepsDeadline(p: Proc, ticks: nat)
    requires WellTyped(p) && Timed(p, ticks) && ticks < MAX_TICKS && DeadlineOk(p)
    ensures DeadlineOk(Ticked(p)) <==> p.timeSlice != -0x8000_0000
  {
    var d := Step(p);
    NoWrap(p.vruntime, d);
    NoWrap(p.vruntime + d, Slice(p));
    if p.timeSlice == -0x8000_0000 {
      if DeadlineOk(Ticked(p)) { SliceAtMostFive(Ticked(p)); }
    } else if p.timeSlice > 1 {
      ProdSucc(p.timeSlice - 1, d);
    }
  }

  lemma EntryDeadline(s: System, events: seq<Event>, e: Event, i: nat)
    requires i < NPROC && AllTimed(Run(s, events)) && Run(s, events + [e]).ticks <= MAX_TICKS
    requires AllDeadlines(Run(s, events)) && SliceCounts(s, events)
    ensures var q, c := Run(s, events + [e]).procs[i], Charged(s, events + [e], i);
            (DeadlineOk(q) <==> c <= LAST_TICK) && (c <= LAST_TICK ==> q.timeSlice == 5 - c)
  {
    var b, longer := Run(s, events), events + [e];
    assert longer[..|longer|-1] == events;
    var p, q := b.procs[i], Next(b, e).procs[i];
    EntryStep(b, e, i);
    EntryKeepsTimed(b, e, i);
    TicksGrow(b, e);
    assert Timed(p, b.ticks) && DeadlineOk(p) && p.timeSlice == 5 - Charged(s, events, i);
    if Charges(b, e, i) {
      TickKeepsDeadline(p, b.ticks);
    } else if Rearms(b, e, i) {
      assert Prod(5, Step(q)) == 5 * Step(q);
    }
  }

  lemma TickDeadlines(s: System, events: seq<Event>, e: Event)
    requires AllTimed(Run(s, events)) && Run(s, events + [e]).ticks <= MAX_TICKS
    requires AllDeadlines(Run(s, events)) && SliceCounts(s, events)
    ensures AllDeadlines(Run(s, events + [e])) <==> Within(s, events + [e])
    ensures Within(s, events + [e]) ==> SliceCounts(s, events + [e])
  {
    var longer := events + [e];
    var t := Run(s, longer).procs;
    forall i: nat | i < NPROC
      ensures (DeadlineOk(t[i]) <==> Charged(s, longer, i) <= LAST_TICK)
      ensures Charged(s, longer, i) <= LAST_TICK ==> t[i].timeSlice == 5 - Charged(s, longer, i)
    {
      EntryDeadline(s, events, e, i);
    }
  }

  /** Over every sequence of events up to 2^47 ticks: every entry keeps the deadline invariant throughout
      if and only if no process is ever charged more than 2^31 + 5 ticks without a fresh slice. */
  lemma {:induction false} DeadlinesHold(s: System, events: seq<Event>)
    requires AllTimed(s) && AllDeadlines(s) && Run(s, events).ticks <= MAX_TICKS
    ensures AlwaysDeadlines(s, events) <==> AlwaysWithin(s, events)
    ensures AlwaysWithin(s, events) ==> SliceCounts(s, events)
    decreases |events|
  {
    if events == [] {
    } else {
      var init, e := events[..|events|-1], events[|events|-1];
      assert events == init + [e];
      TicksGrow(Run(s, init), e);
      DeadlinesHold(s, init);
      if AlwaysDeadlines(s, init) {
        RunKeepsTimed(s, init);
        TickDeadlines(s, init, e);
      }
    }
  }

  lemma BootIsSound()
    ensures AllTimed(BOOT) && AllDeadlines(BOOT)
  {
    forall i | 0 <= i < NPROC ensures Timed(BOOT.procs[i], BOOT.ticks) && DeadlineOk(BOOT.procs[i]) {}
  }

  function Ticks(p: Proc, n: nat): (q: Proc)
    requires WellTyped(p)
    ensures WellTyped(q)
  {
    if n == 0 then p else Ticked(Ticks(p, n - 1))
  }

  /** The process whose int has reached its least value does not yield for the next 2^31 - 1 ticks. */
  lemma {:induction false} WrappedNeverYields(p: Proc, n: nat)
    requires WellTyped(p) && p.state == Running && p.timeSlice == -0x8000_0000 && 0 < n < 0x8000_0000
    ensures Ticks(p, n).state == Running && Ticks(p, n).timeSlice == 0x8000_0000 - n
    ensures n < 0x7fff_fffb ==> !DeadlineOk(Ticks(p, n))
  {
    if n == 1 {
    } else {
      WrappedNeverYields(p, n - 1);
    }
    if n < 0x7fff_fffb && DeadlineOk(Ticks(p, n)) { SliceAtMostFive(Ticks(p, n)); }
  }
}
