/** Fairness: how far a process runs ahead of, and falls behind, the weighted average virtual time
    V of the ready set, over every run of the scheduler. */
module Fairness {
  import opened Eevdf
  import opened Deadlines

  /** weight * (vruntime - V) <= c, multiplied through by the total weight w; s is w * V. */
  ghost predicate AheadBy(p: Proc, w: nat, s: nat, c: nat)
    requires p.nice < 40
  {
    Prod(Weight(p), Prod(p.vruntime, w)) <= Prod(Weight(p), s) + Prod(c, w)
  }

  /** weight * (V - vruntime) <= c, multiplied through by the total weight. */
  ghost predicate BehindBy(p: Proc, w: nat, s: nat, c: nat)
    requires p.nice < 40
  {
    Prod(Weight(p), s) <= Prod(Weight(p), Prod(p.vruntime, w)) + Prod(c, w)
  }

  /** How far ahead a ready process may be, k ticks into the current dispatch: one slice when
      waiting, the ticks used when running. */
  function Allowance(p: Proc, k: nat): nat { if p.state == Running then k * TICK else 5 * TICK }

  ghost predicate PacedAt(t: Table, w: nat, s: nat, k: nat, i: nat)
    requires i < NPROC
  {
    Ready(t[i]) ==> AheadBy(t[i], w, s, Allowance(t[i], k))
  }

  ghost predicate OneRuns(t: Table) {
    forall i, j | 0 <= i < NPROC && 0 <= j < NPROC && t[i].state == Running && t[j].state == Running :: i == j
  }

  ghost predicate PacedBy(t: Table, w: nat, s: nat, k: nat) {
    forall i: nat {:trigger PacedAt(t, w, s, k, i)} | i < NPROC :: PacedAt(t, w, s, k, i)
  }

  ghost predicate Paced(t: Table, k: nat) {
    OneRuns(t) && PacedBy(t, TotalWeight(t, NPROC), WeightedTime(t, NPROC), k)
  }

  lemma {:induction false} UpdateSums(t: Table, i: nat, p: Proc, n: nat)
    requires i < NPROC && n <= NPROC && WellTyped(p) && Ready(p) && Ready(t[i])
    requires p.nice == t[i].nice && p.vruntime >= t[i].vruntime
    ensures TotalWeight(t[i := p], n) == TotalWeight(t, n)
    ensures WeightedTime(t[i := p], n)
         == WeightedTime(t, n) + if i < n then Prod(p.vruntime - t[i].vruntime, Weight(p)) else 0
  {
    if n == 0 {
    } else {
      UpdateSums(t, i, p, n - 1);
      ProdMinus(p.vruntime, t[i].vruntime, Weight(p));
    }
  }

  lemma ProdPlusLeft(a: nat, b: nat, c: nat)
    ensures Prod(a + b, c) == Prod(a, c) + Prod(b, c)
  {
  }

  lemma ProdAssoc(a: nat, b: nat, c: nat)
    ensures Prod(a, Prod(b, c)) == Prod(Prod(a, b), c)
  {
  }

  lemma TickArithmetic(x: nat, v: nat, d: nat, w: nat, s: nat, c: nat)
    requires Prod(x, Prod(v, w)) <= Prod(x, s) + Prod(c, w) && Prod(x, d) <= TICK
    ensures Prod(x, Prod(v + d, w)) <= Prod(x, s + Prod(d, x)) + Prod(c + TICK, w)
  {
    ProdPlusLeft(v, d, w);
    ProdPlus(Prod(v, w), Prod(d, w), x);
    ProdAssoc(x, d, w);
    ProdMonotone(Prod(x, d), TICK, w);
    ProdPlusLeft(c, TICK, w);
    ProdPlus(s, Prod(d, x), x);
  }

  /** A tick moves the ticking process ahead by at most TICK and nobody else ahead. */
  lemma TickAhead(p: Proc, d: nat, w: nat, s: nat, c: nat)
    requires p.nice < 40 && AheadBy(p, w, s, c) && Prod(Weight(p), d) <= TICK
    ensures AheadBy(p.(vruntime := p.vruntime + d), w, s + Prod(d, Weight(p)), c + TICK)
  {
    TickArithmetic(Weight(p), p.vruntime, d, w, s, c);
  }

  lemma OthersFallBack(p: Proc, w: nat, s: nat, s': nat, c: nat)
    requires p.nice < 40 && AheadBy(p, w, s, c) && s <= s'
    ensures AheadBy(p, w, s', c)
  {
    ProdMonotone(s, s', Weight(p));
  }

  lemma EligibleIsNotAhead(t: Table, i: nat)
    requires i < NPROC && Eligible(t, i)
    ensures AheadBy(t[i], TotalWeight(t, NPROC), WeightedTime(t, NPROC), 0)
  {
    ProdMonotone(Prod(t[i].vruntime, TotalWeight(t, NPROC)), WeightedTime(t, NPROC), Weight(t[i]));
  }

  lemma AllowMore(p: Proc, w: nat, s: nat, c: nat, c': nat)
    requires p.nice < 40 && AheadBy(p, w, s, c) && c <= c'
    ensures AheadBy(p, w, s, c')
  {
    ProdMonotone(c, c', w);
  }

  // ---------- Dispatch and tick ----------

  lemma StartKeepsPace(t: Table, i: nat, k: nat)
    requires Paced(t, k) && NoneRunning(t) && i < NPROC && t[i].state == Runnable && Eligible(t, i)
    ensures Paced(t[i := t[i].(state := Running)], 0)
  {
    var p := t[i].(state := Running);
    var t', w, s := t[i := p], TotalWeight(t, NPROC), WeightedTime(t, NPROC);
    UpdateSums(t, i, p, NPROC);
    EligibleIsNotAhead(t, i);
    forall j: nat | j < NPROC ensures PacedAt(t', w, s, 0, j) {
      assert PacedAt(t, w, s, k, j);
      StartAt(t, i, p, k, w, s, j);
    }
  }

  /** Until the first tick the started process has to be no further ahead than V, which is what eligible means. */
  lemma StartAt(t: Table, i: nat, p: Proc, k: nat, w: nat, s: nat, j: nat)
    requires i < NPROC && j < NPROC && p == t[i].(state := Running) && WellTyped(p) && NoneRunning(t)
    requires AheadBy(t[i], w, s, 0) && PacedAt(t, w, s, k, j)
    ensures PacedAt(t[i := p], w, s, 0, j)
  {
    if j == i { assert Allowance(p, 0) == 0; }
  }

  lemma DispatchKeepsPace(t: Table, k: nat)
    requires Paced(t, k) && k <= 5 && NoneRunning(t)
    requires forall i | 0 <= i < NPROC :: t[i].vdeadline < U64 - 1
    ensures Paced(Dispatched(t), 0)
  {
    if Pick(t).Some? {
      assert Ready(t[Pick(t).value]);
      PacedIsTame(t, k);
      PickIsEarliestEligible(t, Pick(t).value);
      StartKeepsPace(t, Pick(t).value, k);
    } else {
      forall j: nat | j < NPROC ensures PacedAt(t, TotalWeight(t, NPROC), WeightedTime(t, NPROC), 0, j) {
        assert PacedAt(t, TotalWeight(t, NPROC), WeightedTime(t, NPROC), k, j);
      }
    }
  }

  lemma TickKeepsPace(t: Table, i: nat, k: nat)
    requires Paced(t, k) && i < NPROC && t[i].state == Running && k < 5
    requires Ticked(t[i]).vruntime == t[i].vruntime + Step(t[i])
    ensures Paced(t[i := Ticked(t[i])], k + 1)
  {
    var t', w, s, d := t[i := Ticked(t[i])], TotalWeight(t, NPROC), WeightedTime(t, NPROC), Step(t[i]);
    assert PacedAt(t, w, s, k, i);
    TickAhead(t[i], d, w, s, k * TICK);
    UpdateSums(t, i, t'[i], NPROC);
    var k', s' := k + 1, s + Prod(d, Weight(t[i]));
    AllowMore(t[i].(vruntime := t[i].vruntime + d), w, s', k' * TICK, Allowance(t'[i], k'));
    forall j: nat | j < NPROC ensures PacedAt(t', w, s', k', j) {
      if j != i {
        assert t'[j] == t[j] && PacedAt(t, w, s, k, j);
        if Ready(t[j]) { OthersFallBack(t[j], w, s, s', Allowance(t[j], k)); }
      }
    }
  }

  // ---------- From "nobody far ahead" to "nobody far behind" ----------

  function Others(t: Table, p: nat, n: nat): (c: nat)
    requires n <= NPROC
    ensures c <= n && (p < n ==> c < n)
  {
    if n == 0 then 0 else Others(t, p, n - 1) + if Ready(t[n-1]) && n - 1 != p then 1 else 0
  }

  /** Leaving p out, the weighted times exceed the weighted averages by at most c per process. */
  lemma ShareOf(a: nat, b: nat, v: nat, x: nat, w: nat, s: nat)
    ensures Prod(a + Prod(v, x), w) == Prod(a, w) + Prod(x, Prod(v, w))
    ensures Prod(b + x, s) == Prod(b, s) + Prod(x, s)
  {
    ProdPlusLeft(a, Prod(v, x), w);
    ProdPlusLeft(b, x, s);
    ProdAssoc(x, v, w);
    ProdMonotone(x, x, v);
  }

  lemma {:induction false} OthersAhead(t: Table, p: nat, n: nat, w: nat, s: nat, c: nat)
    requires p < NPROC && n <= NPROC && Ready(t[p])
    requires forall i | 0 <= i < NPROC && Ready(t[i]) :: AheadBy(t[i], w, s, c)
    ensures var mine := p < n; var x := Weight(t[p]);
            Prod(WeightedTime(t, n), w) + (if mine then Prod(x, s) else 0)
            <= Prod(TotalWeight(t, n), s) + (if mine then Prod(x, Prod(t[p].vruntime, w)) else 0)
               + Prod(Others(t, p, n), Prod(c, w))
  {
    if n == 0 {
    } else {
      var q := t[n-1];
      OthersAhead(t, p, n - 1, w, s, c);
      if Ready(q) {
        ShareOf(WeightedTime(t, n - 1), TotalWeight(t, n - 1), q.vruntime, Weight(q), w, s);
        ProdSucc(Others(t, p, n - 1), Prod(c, w));
      }
    }
  }

  lemma NoneFarBehind(t: Table, p: nat, c: nat)
    requires p < NPROC && Ready(t[p])
    requires forall i | 0 <= i < NPROC && Ready(t[i]) :: AheadBy(t[i], TotalWeight(t, NPROC), WeightedTime(t, NPROC), c)
    ensures BehindBy(t[p], TotalWeight(t, NPROC), WeightedTime(t, NPROC), Prod(Others(t, p, NPROC), c))
  {
    var w, s := TotalWeight(t, NPROC), WeightedTime(t, NPROC);
    OthersAhead(t, p, NPROC, w, s, c);
    ProdMonotone(w, w, s);
    ProdAssoc(Others(t, p, NPROC), c, w);
  }

  lemma {:induction false} WeightCap(t: Table, n: nat)
    requires n <= NPROC
    ensures TotalWeight(t, n) <= 88818 * n
    ensures (exists i | 0 <= i < n :: Ready(t[i])) ==> TotalWeight(t, n) > 0
  {
    if n == 0 {
    } else {
      WeightCap(t, n - 1);
    }
  }

  /** 15 <= weight, and the whole table weighs at most 5684352. */
  lemma DivideOut(x: nat, y: nat, k: nat, w: nat)
    requires 15 <= x && w <= 5684352 && Prod(x, y) <= Prod(k, w)
    ensures 15 * y <= 5684352 * k
  {
    ProdMonotone(15, x, y);
    ProdMonotone(w, 5684352, k);
  }

  lemma MinIsClose(t: Table, m: nat)
    requires m < NPROC && Ready(t[m]) && t[m].vruntime == MinTime(t, NPROC)
    requires forall i | 0 <= i < NPROC && Ready(t[i]) ::
               AheadBy(t[i], TotalWeight(t, NPROC), WeightedTime(t, NPROC), SLICE)
    ensures ShiftedSum(t, t[m].vruntime, NPROC) <= 122240000000000
  {
    var w, s, v, x := TotalWeight(t, NPROC), WeightedTime(t, NPROC), t[m].vruntime, Weight(t[m]);
    var y := ShiftedSum(t, v, NPROC);
    NoneFarBehind(t, m, SLICE);
    ShiftedSumExact(t, v, NPROC);
    ProdPlus(y, Prod(v, w), x);
    ProdMonotone(Others(t, m, NPROC), 63, SLICE);
    WeightCap(t, NPROC);
    DivideOut(x, y, Prod(Others(t, m, NPROC), SLICE), w);
  }

  lemma LeadIsSmall(t: Table, i: nat, min: nat)
    requires i < NPROC && Ready(t[i])
    requires forall j | 0 <= j < NPROC && Ready(t[j]) :: min <= t[j].vruntime
    requires AheadBy(t[i], TotalWeight(t, NPROC), WeightedTime(t, NPROC), SLICE)
    ensures Prod(t[i].vruntime - min, TotalWeight(t, NPROC)) <= ShiftedSum(t, min, NPROC) + 1940260000000
  {
    var w, s, x := TotalWeight(t, NPROC), WeightedTime(t, NPROC), Weight(t[i]);
    var z := Prod(t[i].vruntime, w);
    ShiftedSumExact(t, min, NPROC);
    ProdMinus(t[i].vruntime, min, w);
    WeightCap(t, NPROC);
    if z > s {
      ProdPlus(z - s, s, x);
      DivideOut(x, z - s, SLICE, w);
    }
  }

  /** The lag bound keeps both sides of the eligibility comparison inside 64 bits. */
  lemma PacedIsTame(t: Table, k: nat)
    requires Paced(t, k) && k <= 5 && exists i | 0 <= i < NPROC :: Ready(t[i])
    requires forall i | 0 <= i < NPROC :: t[i].vdeadline < U64 - 1
    ensures Tame(t)
  {
    var w, s, min := TotalWeight(t, NPROC), WeightedTime(t, NPROC), MinTime(t, NPROC);
    SliceAhead(t, k);
    var m :| 0 <= m < NPROC && Ready(t[m]) && t[m].vruntime == min;
    MinIsClose(t, m);
    forall i | 0 <= i < NPROC && Ready(t[i]) ensures Prod(t[i].vruntime - min, w) < U64 {
      LeadIsSmall(t, i, min);
    }
  }

  lemma SliceAhead(t: Table, k: nat)
    requires Paced(t, k) && k <= 5
    ensures forall i | 0 <= i < NPROC && Ready(t[i]) ::
              AheadBy(t[i], TotalWeight(t, NPROC), WeightedTime(t, NPROC), SLICE)
  {
    var w, s := TotalWeight(t, NPROC), WeightedTime(t, NPROC);
    forall i | 0 <= i < NPROC && Ready(t[i]) ensures AheadBy(t[i], w, s, SLICE) {
      assert PacedAt(t, w, s, k, i);
      AllowMore(t[i], w, s, Allowance(t[i], k), SLICE);
    }
  }

  // ---------- Every other event ----------

  lemma HigherAverage(p: Proc, w: nat, s: nat, w': nat, s': nat, c: nat)
    requires p.nice < 40 && w > 0 && AheadBy(p, w, s, c) && Prod(s, w') <= Prod(s', w)
    ensures AheadBy(p, w', s', c)
  {
    CrossMultiply(Weight(p), p.vruntime, w, s, w', s', c);
  }

  lemma CrossMultiply(x: nat, v: nat, w: nat, s: nat, w': nat, s': nat, c: nat)
    requires w > 0 && Prod(x, Prod(v, w)) <= Prod(x, s) + Prod(c, w) && Prod(s, w') <= Prod(s', w)
    ensures Prod(x, Prod(v, w')) <= Prod(x, s') + Prod(c, w')
  {
    var l, r := Prod(x, Prod(v, w')), Prod(x, s') + Prod(c, w');
    ProdMonotone(Prod(x, Prod(v, w)), Prod(x, s) + Prod(c, w), w');
    ProdMonotone(Prod(s, w'), Prod(s', w), x);
    assert Prod(Prod(x, Prod(v, w)), w') == Prod(l, w) by { Rearrange(x, v, w, w'); }
    assert Prod(Prod(x, s) + Prod(c, w), w') == Prod(x, Prod(s, w')) + Prod(c, Prod(w, w')) by {
      ProdPlusLeft(Prod(x, s), Prod(c, w), w');
      ProdAssoc(x, s, w');
      ProdAssoc(c, w, w');
    }
    assert Prod(r, w) == Prod(x, Prod(s', w)) + Prod(c, Prod(w, w')) by {
      ProdPlusLeft(Prod(x, s'), Prod(c, w'), w);
      ProdAssoc(x, s', w);
      ProdAssoc(c, w', w);
      ProdMonotone(w, w, w');
    }
    if l > r { ProdMonotone(r + 1, l, w); ProdSucc(r, w); }
  }

  lemma Rearrange(x: nat, v: nat, w: nat, w': nat)
    ensures Prod(Prod(x, Prod(v, w)), w') == Prod(Prod(x, Prod(v, w')), w)
  {
    ProdAssoc(x, Prod(v, w), w');
    ProdAssoc(v, w, w');
    ProdAssoc(x, Prod(v, w'), w);
    ProdAssoc(v, w', w);
    ProdMonotone(w, w, w');
  }

  /** An event other than a dispatch or a tick that cannot push anybody ahead: V does not fall, and
      whoever becomes ready or changes weight is not too far ahead of V. With nobody ready before,
      those who become ready are level. k is the number of ticks into the current dispatch. */
  ghost predicate Gentle(b: System, e: Event, k: nat) {
    var t, t' := b.procs, Next(b, e).procs;
    var w, s := TotalWeight(t, NPROC), WeightedTime(t, NPROC);
    if w == 0 then Level(t')
    else Prod(s, TotalWeight(t', NPROC)) <= Prod(WeightedTime(t', NPROC), w) && NewcomersOk(t, t', w, s, k)
  }

  ghost predicate NewcomersOk(t: Table, t': Table, w: nat, s: nat, k: nat) {
    forall i: nat {:trigger NewcomerOk(t, t', w, s, k, i)} | i < NPROC :: NewcomerOk(t, t', w, s, k, i)
  }

  ghost predicate NewcomerOk(t: Table, t': Table, w: nat, s: nat, k: nat, i: nat)
    requires i < NPROC
  {
    Ready(t'[i]) && !(Ready(t[i]) && t[i].nice == t'[i].nice) ==> AheadBy(t'[i], w, s, Allowance(t'[i], k))
  }

  ghost predicate Level(t: Table) {
    forall i, j | 0 <= i < NPROC && 0 <= j < NPROC && Ready(t[i]) && Ready(t[j]) :: t[i].vruntime == t[j].vruntime
  }

  lemma StaysReady(b: System, e: Event, i: nat)
    requires i < NPROC && !e.Timer? && !e.Dispatch?
    ensures var p, q := b.procs[i], Next(b, e).procs[i];
            && (Ready(p) && Ready(q) ==> q.state == p.state && q.vruntime == p.vruntime)
            && (q.state == Running ==> p.state == Running)
  {
  }

  lemma {:induction false} EqualTimes(t: Table, v: nat, n: nat)
    requires n <= NPROC && forall i | 0 <= i < NPROC && Ready(t[i]) :: t[i].vruntime == v
    ensures WeightedTime(t, n) == Prod(v, TotalWeight(t, n))
  {
    if n == 0 {
    } else {
      EqualTimes(t, v, n - 1);
      if Ready(t[n-1]) { ProdPlus(TotalWeight(t, n - 1), Weight(t[n-1]), v); }
    }
  }

  lemma LevelIsPaced(t: Table, k: nat)
    requires Level(t) && NoneRunning(t)
    ensures Paced(t, k)
  {
    var w, s := TotalWeight(t, NPROC), WeightedTime(t, NPROC);
    forall i: nat | i < NPROC ensures PacedAt(t, w, s, k, i) {
      if Ready(t[i]) {
        EqualTimes(t, t[i].vruntime, NPROC);
        EligibleIsNotAhead(t, i);
        AllowMore(t[i], w, s, 0, Allowance(t[i], k));
      }
    }
  }

  lemma {:induction false} NoWeight(t: Table, n: nat)
    requires n <= NPROC && TotalWeight(t, n) == 0
    ensures forall i | 0 <= i < n :: !Ready(t[i])
  {
    if n == 0 {
    } else {
      NoWeight(t, n - 1);
    }
  }

  lemma OtherKeepsPace(b: System, e: Event, k: nat)
    requires Paced(b.procs, k) && Gentle(b, e, k) && !e.Timer? && !e.Dispatch?
    ensures Paced(Next(b, e).procs, k)
  {
    var t, t' := b.procs, Next(b, e).procs;
    var w, s, w', s' := TotalWeight(t, NPROC), WeightedTime(t, NPROC), TotalWeight(t', NPROC), WeightedTime(t', NPROC);
    if w == 0 {
      NoWeight(t, NPROC);
      forall i | 0 <= i < NPROC ensures t'[i].state != Running { StaysReady(b, e, i); }
      LevelIsPaced(t', k);
    } else {
      forall i | 0 <= i < NPROC && t'[i].state == Running ensures t[i].state == Running { StaysReady(b, e, i); }
      forall i: nat | i < NPROC ensures PacedAt(t', w', s', k, i) {
        StaysReady(b, e, i);
        assert PacedAt(t, w, s, k, i) && NewcomerOk(t, t', w, s, k, i);
        if Ready(t'[i]) { HigherAverage(t'[i], w, s, w', s', Allowance(t'[i], k)); }
      }
    }
  }

  // ---------- The fairness theorem ----------

  /** Ready processes at equal virtual time, none dispatched yet. */
  ghost predicate FairStart(s: System) { AllTimed(s) && NoneRunning(s.procs) && Level(s.procs) }

  /** Ticks charged since the last dispatch. */
  function Stint(s: System, events: seq<Event>): nat
    decreases |events|
  {
    if events == [] then 0 else
    var init, e := events[..|events|-1], events[|events|-1];
    if e.Dispatch? && NoneRunning(Run(s, init).procs) then 0
    else Stint(s, init) + if e.Timer? && Runner(Run(s, init).procs).Some? then 1 else 0
  }

  /** Every dispatch lasts at most n ticks. */
  ghost predicate Short(s: System, events: seq<Event>, n: nat)
    decreases |events|
  {
    Stint(s, events) <= n && (events == [] || Short(s, events[..|events|-1], n))
  }

  /** Every event that is not a dispatch or a tick is gentle. */
  ghost predicate GentleRun(s: System, events: seq<Event>)
    decreases |events|
  {
    events == [] ||
      var init, e := events[..|events|-1], events[|events|-1];
      GentleRun(s, init) && (e.Dispatch? || e.Timer? || Gentle(Run(s, init), e, Stint(s, init)))
  }

  lemma StepKeepsPace(b: System, e: Event, k: nat, k': nat)
    requires AllTimed(b) && Paced(b.procs, k) && k <= 5 && k' <= 5 && Next(b, e).ticks <= MAX_TICKS
    requires e.Dispatch? || e.Timer? || Gentle(b, e, k)
    requires k' == if e.Dispatch? && NoneRunning(b.procs) then 0
                   else k + if e.Timer? && Runner(b.procs).Some? then 1 else 0
    ensures Paced(Next(b, e).procs, k')
  {
    TicksGrow(b, e);
    if e.Dispatch? {
      DeadlinesFit(b);
      if NoneRunning(b.procs) { DispatchKeepsPace(b.procs, k); }
    } else if e.Timer? {
      if Runner(b.procs).Some? {
        var i := Runner(b.procs).value;
        assert Timed(b.procs[i], b.ticks);
        TickKeepsTimed(b.procs[i], b.ticks);
        TickKeepsPace(b.procs, i, k);
      }
    } else {
      OtherKeepsPace(b, e, k);
    }
  }

  lemma {:induction false} RunKeepsPace(s: System, events: seq<Event>)
    requires FairStart(s) && Short(s, events, 5) && GentleRun(s, events) && Run(s, events).ticks <= MAX_TICKS
    ensures AllTimed(Run(s, events)) && Stint(s, events) <= 5 && Paced(Run(s, events).procs, Stint(s, events))
    decreases |events|
  {
    if events == [] {
      LevelIsPaced(s.procs, 0);
    } else {
      var init, e := events[..|events|-1], events[|events|-1];
      TicksGrow(Run(s, init), e);
      RunKeepsPace(s, init);
      NextKeepsTimed(Run(s, init), e);
      StepKeepsPace(Run(s, init), e, Stint(s, init), Stint(s, events));
    }
  }

  /** The weighted average virtual time V of the ready set. */
  ghost function Average(t: Table): real
    requires TotalWeight(t, NPROC) > 0
  {
    WeightedTime(t, NPROC) as real / TotalWeight(t, NPROC) as real
  }

  function Scale(a: real, b: real): real { a * b }

  /** weight * (vruntime - V): how far p is ahead of the average, in weighted units. */
  ghost function Lead(p: Proc, average: real): real
    requires p.nice < 40
  {
    Scale(Weight(p) as real, p.vruntime as real - average)
  }

  lemma Cancel(x: real, v: real, a: real, c: real, w: real)
    requires w > 0.0
    ensures Scale(x, Scale(v, w)) <= Scale(x, Scale(a, w)) + Scale(c, w) ==> Scale(x, v - a) <= c
    ensures Scale(x, Scale(a, w)) <= Scale(x, Scale(v, w)) + Scale(c, w) ==> Scale(x, v - a) >= -c
  {
    assert (x * (v - a) - c) * w == x * (v * w) - x * (a * w) - c * w;
    assert (x * (v - a) + c) * w == x * (v * w) - x * (a * w) + c * w;
  }

  lemma ProdReal(a: nat, b: nat)
    ensures Prod(a, b) as real == Scale(a as real, b as real)
  {
  }

  lemma QuotReal(a: real, b: real)
    requires b > 0.0
    ensures Scale(a / b, b) == a
  {
  }

  lemma ScaleDown(p: Proc, w: nat, s: nat, c: nat)
    requires w > 0 && p.nice < 40
    ensures AheadBy(p, w, s, c) ==> Lead(p, s as real / w as real) <= c as real
    ensures BehindBy(p, w, s, c) ==> Lead(p, s as real / w as real) >= -(c as real)
  {
    var a := s as real / w as real;
    QuotReal(s as real, w as real);
    ProdReal(Weight(p), s);
    ProdReal(p.vruntime, w);
    ProdReal(Weight(p), Prod(p.vruntime, w));
    ProdReal(c, w);
    Cancel(Weight(p) as real, p.vruntime as real, a, c as real, w as real);
  }

  lemma LagOf(t: Table, i: nat, k: nat)
    requires Paced(t, k) && k <= 5 && i < NPROC && Ready(t[i]) && TotalWeight(t, NPROC) > 0
    ensures -(Prod(Others(t, i, NPROC), SLICE) as real) <= Lead(t[i], Average(t)) <= SLICE as real
  {
    var w, s := TotalWeight(t, NPROC), WeightedTime(t, NPROC);
    SliceAhead(t, k);
    NoneFarBehind(t, i, SLICE);
    ScaleDown(t[i], w, s, SLICE);
    ScaleDown(t[i], w, s, Prod(Others(t, i, NPROC), SLICE));
  }

  /** Nobody is ahead of V by more than one slice, and nobody behind it by more than one slice per other process. */
  ghost predicate LagBounded(t: Table) {
    forall i | 0 <= i < NPROC && Ready(t[i]) ::
      && TotalWeight(t, NPROC) > 0
      && -(Prod(Others(t, i, NPROC), SLICE) as real) <= Lead(t[i], Average(t)) <= SLICE as real
  }

  /** In every run from a level start whose dispatches last at most five ticks and whose other events are
      gentle, the lag bound holds, and the scheduler's 64-bit comparison is exact whenever somebody is ready. */
  lemma LagBound(s: System, events: seq<Event>)
    requires FairStart(s) && Short(s, events, 5) && GentleRun(s, events) && Run(s, events).ticks <= MAX_TICKS
    ensures var t := Run(s, events).procs;
            LagBounded(t) && ((exists i | 0 <= i < NPROC :: Ready(t[i])) ==> Tame(t))
  {
    var r, k := Run(s, events), Stint(s, events);
    RunKeepsPace(s, events);
    DeadlinesFit(r);
    WeightCap(r.procs, NPROC);
    forall i | 0 <= i < NPROC && Ready(r.procs[i])
      ensures TotalWeight(r.procs, NPROC) > 0 && Tame(r.procs)
      ensures -(Prod(Others(r.procs, i, NPROC), SLICE) as real) <= Lead(r.procs[i], Average(r.procs)) <= SLICE as real
    {
      PacedIsTame(r.procs, k);
      LagOf(r.procs, i, k);
    }
  }

  // ---------- Runs that meet the condition ----------

  ghost predicate InSlice(p: Proc, k: nat) {
    p.state == Running ==> p.timeSlice + k <= 5 && (k > 0 ==> p.timeSlice > 0)
  }

  ghost predicate AllInSlice(t: Table, k: nat) {
    forall i: nat {:trigger InSlice(t[i], k)} | i < NPROC :: InSlice(t[i], k)
  }

  lemma StepInSlice(b: System, e: Event, k: nat)
    requires (e.Dispatch? || e.Timer?) && AllInSlice(b.procs, k) && AllDeadlines(b) && AllDeadlines(Next(b, e))
    requires OneRuns(b.procs) && k <= 5
    ensures var k' := if e.Dispatch? && NoneRunning(b.procs) then 0
                      else k + if e.Timer? && Runner(b.procs).Some? then 1 else 0;
            k' <= 5 && AllInSlice(Next(b, e).procs, k') && OneRuns(Next(b, e).procs)
  {
    var k' := if e.Dispatch? && NoneRunning(b.procs) then 0
              else k + if e.Timer? && Runner(b.procs).Some? then 1 else 0;
    if e.Timer? && Runner(b.procs).Some? {
      assert InSlice(b.procs[Runner(b.procs).value], k);
    }
    forall i: nat | i < NPROC ensures InSlice(Next(b, e).procs[i], k') {
      assert InSlice(b.procs[i], k) && DeadlineOk(b.procs[i]) && DeadlineOk(Next(b, e).procs[i]);
      SliceAtMostFive(b.procs[i]);
      SliceAtMostFive(Next(b, e).procs[i]);
    }
  }

  ghost predicate Plain(events: seq<Event>) { forall e <- events :: e.Dispatch? || e.Timer? }

  lemma {:induction false} PlainInSlice(s: System, events: seq<Event>)
    requires FairStart(s) && AllDeadlines(s) && Plain(events) && AlwaysDeadlines(s, events)
    ensures Short(s, events, 5) && GentleRun(s, events)
    ensures AllInSlice(Run(s, events).procs, Stint(s, events)) && OneRuns(Run(s, events).procs)
    decreases |events|
  {
    if events == [] {
    } else {
      var init, e := events[..|events|-1], events[|events|-1];
      PlainInSlice(s, init);
      StepInSlice(Run(s, init), e, Stint(s, init));
    }
  }

  /** Dispatches and ticks alone: the bound holds as long as no process is charged more than 2^31 + 5 ticks
      without a fresh slice. */
  lemma PlainLagBound(s: System, events: seq<Event>)
    requires FairStart(s) && AllDeadlines(s) && Plain(events) && Run(s, events).ticks <= MAX_TICKS
    requires AlwaysWithin(s, events)
    ensures LagBounded(Run(s, events).procs)
  {
    DeadlinesHold(s, events);
    PlainInSlice(s, events);
    LagBound(s, events);
  }

  lemma {:induction false} SameSums(t: Table, t': Table, n: nat)
    requires n <= NPROC
    requires forall i | 0 <= i < NPROC :: Ready(t[i]) == Ready(t'[i])
    requires forall i | 0 <= i < NPROC && Ready(t[i]) :: t[i].nice == t'[i].nice && t[i].vruntime == t'[i].vruntime
    ensures TotalWeight(t, n) == TotalWeight(t', n) && WeightedTime(t, n) == WeightedTime(t', n)
  {
    if n == 0 {
    } else {
      SameSums(t, t', n - 1);
    }
  }

  /** setnice to the value a process has, or of a process that is not ready, is gentle. */
  lemma SameNiceIsGentle(b: System, pid: nat, value: int, k: nat)
    requires var f := Found(b.procs, pid); f.Some? ==> b.procs[f.value].nice == value || !Ready(b.procs[f.value])
    ensures Gentle(b, SetNice(pid, value), k)
  {
    var t, t' := b.procs, Next(b, SetNice(pid, value)).procs;
    SameSums(t, t', NPROC);
    ProdMonotone(TotalWeight(t, NPROC), TotalWeight(t, NPROC), WeightedTime(t, NPROC));
    if TotalWeight(t, NPROC) == 0 { NoWeight(t, NPROC); }
  }

  // ---------- Short uptimes ----------

  lemma {:induction false} ShiftedSumCap(t: Table, min: nat, n: nat, b: nat)
    requires n <= NPROC
    requires forall i | 0 <= i < NPROC && Ready(t[i]) :: min <= t[i].vruntime <= b
    ensures ShiftedSum(t, min, n) <= Prod(b, TotalWeight(t, n))
  {
    if n == 0 {
    } else {
      ShiftedSumCap(t, min, n - 1, b);
      if Ready(t[n-1]) {
        ProdPlus(TotalWeight(t, n - 1), Weight(t[n-1]), b);
        ProdMonotone(t[n-1].vruntime - min, b, Weight(t[n-1]));
      }
    }
  }

  /** Whatever processes do, sleepers included, the comparison is exact for the first 47 million ticks. */
  lemma ShortUptimeIsTame(s: System)
    requires AllTimed(s) && s.ticks <= 47_000_000
    ensures Tame(s.procs)
  {
    var t, b := s.procs, MAX_STEP * s.ticks;
    var min, w := MinTime(t, NPROC), TotalWeight(t, NPROC);
    forall i | 0 <= i < NPROC && Ready(t[i]) ensures min <= t[i].vruntime <= b { assert Timed(t[i], s.ticks); }
    DeadlinesFit(s);
    WeightCap(t, NPROC);
    ShiftedSumCap(t, min, NPROC, b);
    ProdMonotone(w, 5684352, b);
    ProdMonotone(b, 3208502000000, 5684352);
    forall i | 0 <= i < NPROC && Ready(t[i]) ensures Prod(t[i].vruntime - min, w) < U64 {
      ProdMonotone(t[i].vruntime - min, b, w);
    }
  }
}
