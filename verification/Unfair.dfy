/** Why the lag bound needs its five ticks: a process that renews its slice with setnice. */
module Unfair {
  import opened Eevdf
  import opened Deadlines
  import opened Fairness
  import opened Crowds

  /** Process 0 runs, k ticks after all were level. */
  ghost predicate Leads(t: Table, k: nat) {
    && t[0].state == Running && t[0].vruntime == 68266 * k && t[0].nice == 39 && t[0].pid == 1
    && forall i | 1 <= i < NPROC :: t[i].state == Runnable && t[i].vruntime == 0 && t[i].nice == 39
  }

  lemma {:induction false} CrowdSums(t: Table, k: nat, n: nat)
    requires Leads(t, k) && n <= NPROC
    ensures TotalWeight(t, n) == 15 * n && WeightedTime(t, n) == if n == 0 then 0 else 1023990 * k
  {
    if n == 0 {
    } else {
      CrowdSums(t, k, n - 1);
    }
  }

  lemma CrowdLead(t: Table, k: nat)
    requires Leads(t, k)
    ensures TotalWeight(t, NPROC) > 0 && Lead(t[0], Average(t)) >= 1007990.0 * k as real
  {
    CrowdSums(t, k, NPROC);
    assert Average(t) == 1023990.0 * k as real / 960.0;
  }

  lemma LeaderTicks(b: System, b': System, k: nat)
    requires Leads(b.procs, k) && k < MAX_TICKS && b.procs[0].timeSlice > 1 && b' == Next(b, Timer)
    ensures Runner(b.procs) == Some(0) && Leads(b'.procs, k + 1) && b'.ticks == b.ticks + 1
  {
    NoWrap(b.procs[0].vruntime, 68266);
  }

  lemma LeaderRenews(b: System, b': System, k: nat, j: nat)
    requires Leads(b.procs, k) && b' == Next(b, SetNice(1, 39))
    ensures Leads(b'.procs, k) && b'.procs[0].timeSlice == 5 && b'.ticks == b.ticks
    ensures Gentle(b, SetNice(1, 39), j)
  {
    assert Found(b.procs, 1) == Some(0);
    SameNiceIsGentle(b, 1, 39, j);
  }

  /** One dispatch so far, k ticks long, of process 0. */
  ghost predicate Renewed(p: Trace, k: nat) {
    Leads(p.sys.procs, k) && p.sys.ticks == k && p.stint == k == p.longest && p.gentle
  }

  lemma RenewStep(p: Trace, p1: Trace, p2: Trace, k: nat)
    requires Renewed(p, k) && k < MAX_TICKS && p1 == Extended(p, SetNice(1, 39)) && p2 == Extended(p1, Timer)
    ensures Renewed(p2, k + 1)
  {
    LeaderRenews(p.sys, p1.sys, k, p.stint);
    LeaderTicks(p1.sys, p2.sys, k);
  }

  /** Dispatch, then setnice(own pid, own nice) before every tick. */
  lemma {:induction false} RenewingRun(k: nat) returns (es: seq<Event>, p: Trace)
    requires k <= MAX_TICKS
    ensures Traced(Crowd(NPROC), es) == p && Renewed(p, k)
  {
    if k == 0 {
      CrowdStarts(NPROC);
      es, p := TraceMore(Crowd(NPROC), [], Start(Crowd(NPROC)), Dispatch);
    } else {
      var es0, p0 := RenewingRun(k - 1);
      var es1, p1 := TraceMore(Crowd(NPROC), es0, p0, SetNice(1, 39));
      es, p := TraceMore(Crowd(NPROC), es1, p1, Timer);
      RenewStep(p0, p1, p, k - 1);
    }
  }

  /** For every k there is a run of gentle events from sixty-four level processes, with one dispatch of k ticks, after
      which the running process is ahead by nearly k ticks: past five, beyond the bound and without limit. */
  lemma RenewingLeads(k: nat) returns (es: seq<Event>)
    requires k <= MAX_TICKS
    ensures var s := Crowd(NPROC);
            && FairStart(s) && GentleRun(s, es) && Stint(s, es) == k && Short(s, es, k) && Run(s, es).ticks == k
            && TotalWeight(Run(s, es).procs, NPROC) > 0
            && Lead(Run(s, es).procs[0], Average(Run(s, es).procs)) >= 1007990.0 * k as real
            && (k > 5 ==> !LagBounded(Run(s, es).procs))
  {
    var p;
    es, p := RenewingRun(k);
    CrowdIsFair(NPROC);
    TraceIs(Crowd(NPROC), es, p);
    TraceShort(Crowd(NPROC), es, k);
    CrowdLead(p.sys.procs, k);
    assert Ready(p.sys.procs[0]);
  }

  lemma {:induction false} ShortMore(s: System, events: seq<Event>, m: nat, n: nat)
    requires Short(s, events, m) && m <= n
    ensures Short(s, events, n)
    decreases |events|
  {
    if events == [] {
    } else {
      ShortMore(s, events[..|events|-1], m, n);
    }
  }

  ghost predicate BoundHolds(s: System, events: seq<Event>, n: nat) {
    FairStart(s) && GentleRun(s, events) && Short(s, events, n) && Run(s, events).ticks <= MAX_TICKS
    ==> LagBounded(Run(s, events).procs)
  }

  /** The lag bound holds in every gentle run from a level start whose dispatches last at most n ticks
      if and only if n is at most five. */
  lemma FiveIsExact(n: nat)
    ensures (forall s, events :: BoundHolds(s, events, n)) <==> n <= 5
  {
    if n <= 5 {
      forall s, events ensures BoundHolds(s, events, n) {
        if FairStart(s) && GentleRun(s, events) && Short(s, events, n) && Run(s, events).ticks <= MAX_TICKS {
          ShortMore(s, events, n, 5);
          LagBound(s, events);
        }
      }
    } else {
      var es := RenewingLeads(6);
      ShortMore(Crowd(NPROC), es, 6, n);
      assert !BoundHolds(Crowd(NPROC), es, n);
    }
  }
}
