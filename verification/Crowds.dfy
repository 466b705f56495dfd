/** Processes of the lowest priority, forked by the first one, and what a sequence of events does to them. */
module Crowds {
  import opened Eevdf
  import opened Deadlines
  import opened Fairness

  // ---------- n level processes, from boot ----------

  function Nobody(): Proc { Proc(Unused, 0, 0, false, 0, 0, 0, 0, 0, 0) }

  /** A process of nice value 39 with a full slice at virtual time 0; the first has slept on channel 7. */
  function Member(i: nat): Proc { Proc(Runnable, i + 1, if i == 0 then 7 else 0, false, 39, 0, 0, 0, 341333, 5) }

  function CrowdEntry(n: nat, i: nat): Proc { if i < n then Member(i) else Nobody() }

  function Crowd(n: nat): System { System(seq(NPROC, i requires 0 <= i < NPROC => CrowdEntry(n, i)), n + 1, 0) }

  /** Userinit's process runs, has set its nice value and has forked m times. */
  function YoungEntry(m: nat, i: nat): Proc {
    if i == 0 then Proc(Running, 1, 0, false, 39, 0, 0, 0, 341333, 5) else CrowdEntry(m + 1, i)
  }

  ghost predicate IsYoung(b: System, m: nat) {
    b.nextpid == m + 2 && b.ticks == 0
      && forall i: nat {:trigger YoungEntry(m, i)} | i < NPROC :: b.procs[i] == YoungEntry(m, i)
  }

  lemma RunMore(s: System, events: seq<Event>, b: System, e: Event) returns (longer: seq<Event>, b': System)
    requires Run(s, events) == b
    ensures longer == events + [e] && b' == Next(b, e) && Run(s, longer) == b'
  {
    longer, b' := events + [e], Next(b, e);
    assert longer[..|longer|-1] == events;
  }

  lemma UnusedIs(t: Table, k: nat)
    requires k < NPROC && t[k].state == Unused && forall j | 0 <= j < k :: t[j].state != Unused
    ensures FirstUnused(t) == Some(k)
  {
  }

  /** The only RUNNABLE process is picked. */
  lemma OnlyOne(t: Table, k: nat)
    requires NoneRunning(t) && k < NPROC && t[k].state == Runnable && t[k].vdeadline < U64 - 1
    requires forall j | 0 <= j < NPROC && j != k :: t[j].state != Runnable
    ensures Pick(t) == Some(k)
  {
    PickNeverStalls(t);
  }

  /** Userinit's process before it has set its nice value. */
  ghost predicate IsBorn(b: System, state: ProcState) {
    && b.nextpid == 2 && b.ticks == 0 && b.procs[0] == Proc(state, 1, 0, false, 20, 0, 0, 0, 5000, 5)
    && forall i | 1 <= i < NPROC :: b.procs[i] == Nobody()
  }

  lemma BornFromBoot(b: System)
    requires b == Next(BOOT, Create)
    ensures IsBorn(b, Runnable)
  {
    UnusedIs(BOOT.procs, 0);
  }

  lemma BornDispatched(b: System, b': System)
    requires IsBorn(b, Runnable) && b' == Next(b, Dispatch)
    ensures IsBorn(b', Running)
  {
    OnlyOne(b.procs, 0);
  }

  lemma BornReniced(b: System, b': System)
    requires IsBorn(b, Running) && b' == Next(b, SetNice(1, 39))
    ensures IsYoung(b', 0)
  {
    assert Found(b.procs, 1) == Some(0);
    NoWrap(0, 341333);
    forall i: nat | i < NPROC ensures b'.procs[i] == YoungEntry(0, i) {}
  }

  lemma ForkStep(b: System, b': System, m: nat)
    requires IsYoung(b, m) && m + 1 < NPROC && b' == Next(b, Fork(0, false))
    ensures IsYoung(b', m + 1)
  {
    var t, k := b.procs, m + 1;
    forall i: nat | i < NPROC ensures t[i] == YoungEntry(m, i) {}
    assert t[k] == Nobody() && t[0] == YoungEntry(m, 0);
    UnusedIs(t, k);
    NoWrap(0, 341333);
    assert Forked(Nobody(), t[0], m + 2) == Member(k);
    forall i: nat | i < NPROC ensures b'.procs[i] == YoungEntry(k, i) { assert t[i] == YoungEntry(m, i); }
  }

  lemma BootRun() returns (es: seq<Event>, b: System)
    ensures Run(BOOT, es) == b && IsYoung(b, 0)
  {
    var es1, b1 := RunMore(BOOT, [], BOOT, Create);
    BornFromBoot(b1);
    var es2, b2 := RunMore(BOOT, es1, b1, Dispatch);
    BornDispatched(b1, b2);
    es, b := RunMore(BOOT, es2, b2, SetNice(1, 39));
    BornReniced(b2, b);
  }

  lemma {:induction false} ForksRun(m: nat) returns (es: seq<Event>, b: System)
    requires m < NPROC
    ensures Run(BOOT, es) == b && IsYoung(b, m)
  {
    if m == 0 {
      es, b := BootRun();
    } else {
      var es0, b0 := ForksRun(m - 1);
      es, b := RunMore(BOOT, es0, b0, Fork(0, false));
      ForkStep(b0, b, m - 1);
    }
  }

  lemma NapTaken(b: System, b1: System, b2: System, n: nat)
    requires 0 < n <= NPROC && IsYoung(b, n - 1) && b1 == Next(b, Sleep(0, 7)) && b2 == Next(b1, Wakeup(7, None))
    ensures b2 == Crowd(n)
  {
    var t, m := b1.procs, n - 1;
    NoWrap(0, 341333);
    forall i: nat | i < NPROC ensures WokenAt(t, 7, None, i) == CrowdEntry(n, i) {
      assert b.procs[i] == YoungEntry(m, i) && b.procs[0] == YoungEntry(m, 0);
    }
    assert b2.procs == Crowd(n).procs;
  }

  /** The first process can bring up any number of level ones: it sets its nice value, forks, sleeps and is woken. */
  lemma CrowdFromBoot(n: nat) returns (es: seq<Event>)
    requires 0 < n <= NPROC
    ensures Run(BOOT, es) == Crowd(n)
  {
    var es0, b0 := ForksRun(n - 1);
    var es1, b1 := RunMore(BOOT, es0, b0, Sleep(0, 7));
    var b;
    es, b := RunMore(BOOT, es1, b1, Wakeup(7, None));
    NapTaken(b0, b1, b, n);
  }

  lemma CrowdIsFair(n: nat)
    requires 0 < n <= NPROC
    ensures FairStart(Crowd(n)) && AllDeadlines(Crowd(n))
  {
    var s := Crowd(n);
    forall i | 0 <= i < NPROC ensures Timed(s.procs[i], s.ticks) && DeadlineOk(s.procs[i]) {}
  }

  /** Among level processes with the same deadline the first is picked. */
  lemma CrowdStarts(n: nat)
    requires 0 < n <= NPROC
    ensures Next(Crowd(n), Dispatch) == Crowd(n).(procs := Crowd(n).procs[0 := Member(0).(state := Running)])
  {
    var s := Crowd(n);
    CrowdIsFair(n);
    LevelIsPaced(s.procs, 0);
    assert Ready(s.procs[0]);
    DeadlinesFit(s);
    PacedIsTame(s.procs, 0);
    EqualTimes(s.procs, 0, NPROC);
    PickIsEarliestEligible(s.procs, 0);
  }

  // ---------- Traces ----------

  /** A state on a run, with the length of the current and the longest dispatch, whether every event so far was
      gentle, or even a dispatch or a tick, and the ticks charged to process 0 since its last fresh slice. */
  datatype Trace = Trace(sys: System, stint: nat, longest: nat, gentle: bool, plain: bool, charged: int)

  ghost function Extended(p: Trace, e: Event): Trace {
    var stint := if e.Dispatch? && NoneRunning(p.sys.procs) then 0
                 else p.stint + if e.Timer? && Runner(p.sys.procs).Some? then 1 else 0;
    var plain := e.Dispatch? || e.Timer?;
    Trace(Next(p.sys, e), stint, if stint > p.longest then stint else p.longest,
          p.gentle && (plain || Gentle(p.sys, e, p.stint)), p.plain && plain,
          if Charges(p.sys, e, 0) then p.charged + 1 else if Rearms(p.sys, e, 0) then 0 else p.charged)
  }

  ghost function Start(s: System): Trace { Trace(s, 0, 0, true, true, 5 - s.procs[0].timeSlice) }

  ghost function Traced(s: System, events: seq<Event>): Trace
    decreases |events|
  {
    if events == [] then Start(s) else Extended(Traced(s, events[..|events|-1]), events[|events|-1])
  }

  lemma TraceMore(s: System, events: seq<Event>, p: Trace, e: Event) returns (longer: seq<Event>, p': Trace)
    requires Traced(s, events) == p
    ensures p' == Extended(p, e) && Traced(s, longer) == p'
  {
    longer, p' := events + [e], Extended(p, e);
    assert longer[..|longer|-1] == events;
  }

  lemma {:induction false} TraceRuns(s: System, events: seq<Event>)
    ensures Traced(s, events).sys == Run(s, events) && Traced(s, events).stint == Stint(s, events)
    decreases |events|
  {
    if events == [] {
    } else {
      TraceRuns(s, events[..|events|-1]);
    }
  }

  lemma {:induction false} TraceCharged(s: System, events: seq<Event>)
    ensures Traced(s, events).charged == Charged(s, events, 0)
    decreases |events|
  {
    if events == [] {
    } else {
      TraceRuns(s, events[..|events|-1]);
      TraceCharged(s, events[..|events|-1]);
    }
  }

  lemma {:induction false} TraceGentle(s: System, events: seq<Event>)
    ensures Traced(s, events).gentle <==> GentleRun(s, events)
    decreases |events|
  {
    if events == [] {
    } else {
      TraceRuns(s, events[..|events|-1]);
      TraceGentle(s, events[..|events|-1]);
    }
  }

  lemma PlainMore(events: seq<Event>, e: Event, longer: seq<Event>)
    requires longer == events + [e]
    ensures Plain(longer) <==> Plain(events) && (e.Dispatch? || e.Timer?)
  {
  }

  lemma {:induction false} TracePlain(s: System, events: seq<Event>)
    ensures Traced(s, events).plain <==> Plain(events)
    decreases |events|
  {
    if events == [] {
    } else {
      var init, e := events[..|events|-1], events[|events|-1];
      TracePlain(s, init);
      PlainMore(init, e, events);
    }
  }

  /** The trace says what the run is. */
  lemma TraceIs(s: System, events: seq<Event>, p: Trace)
    requires Traced(s, events) == p
    ensures p.sys == Run(s, events) && p.stint == Stint(s, events) && p.charged == Charged(s, events, 0)
    ensures p.gentle <==> GentleRun(s, events)
    ensures p.plain <==> Plain(events)
  {
    TraceRuns(s, events);
    TraceCharged(s, events);
    TraceGentle(s, events);
    TracePlain(s, events);
  }

  lemma {:induction false} TraceShort(s: System, events: seq<Event>, n: nat)
    ensures Short(s, events, n) <==> Traced(s, events).longest <= n
    decreases |events|
  {
    TraceRuns(s, events);
    if events == [] {
    } else {
      TraceShort(s, events[..|events|-1], n);
    }
  }
}
