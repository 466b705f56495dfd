/** What holds in every reachable state of fork, exit, wait, waitpid, sleep, wakeup and kill. */
module WaitRuns {
  import opened WaitExit

  /** userinit: one process, runnable. */
  function Start(n: nat): State
    requires n > 0
  {
    State(seq(n, i => if i == INIT then Runnable else Unused), seq(n, i => None),
          seq(n, i => if i == INIT then 1 else 0), seq(n, i => NoChan),
          seq(n, i => false), seq(n, i => None), seq(n, i => if i == INIT then User else Idle), None, 2, map[1 := INIT],
          {}, {})
  }

  ghost predicate Step(ss: seq<State>, es: seq<Event>, k: nat) {
    k < |es| && k + 1 < |ss| && Enabled(ss[k], es[k]) && ss[k + 1] == Next(ss[k], es[k])
  }

  /** The states ss of a run of the events es from boot, with n slots in the table. */
  ghost predicate Run(n: nat, ss: seq<State>, es: seq<Event>) {
    && n > 0 && |ss| == |es| + 1 && ss[0] == Start(n)
    && forall k: nat {:trigger Step(ss, es, k)} | k < |es| :: Step(ss, es, k)
  }

  ghost predicate Reachable(s: State) {
    exists n, ss, es :: Run(n, ss, es) && ss[|es|] == s
  }

  lemma StepKeeps(s: State, e: Event)
    requires Inv(s) && Enabled(s, e)
    ensures Inv(Next(s, e))
  {
    match e
    case Sched(v) => KeepsSched(s, v);
    case Fork(v) => KeepsFork(s, v);
    case Exit(v) => KeepsExit(s, v);
    case Wait(v) => if v.ScanStep? { KeepsScan(s, v); } else { KeepsWait(s, v); }
  }

  lemma {:induction false} RunKeeps(n: nat, ss: seq<State>, es: seq<Event>, k: nat)
    requires Run(n, ss, es) && k < |ss|
    ensures Inv(ss[k])
  {
    if k == 0 {
      StartIsFine(n);
    } else {
      RunKeeps(n, ss, es, k - 1);
      assert Step(ss, es, k - 1);
      StepKeeps(ss[k - 1], es[k - 1]);
    }
  }

  lemma EveryRun(s: State)
    requires Reachable(s)
    ensures Inv(s)
  {
    var n, ss, es :| Run(n, ss, es) && ss[|es|] == s;
    RunKeeps(n, ss, es, |es|);
  }

  lemma StartIsFine(n: nat)
    requires n > 0
    ensures Inv(Start(n))
  {
    var s := Start(n);
    forall i: nat ensures ProcOk(s, i) && IdOk(s, i) && PidOk(s, i) {}
    forall i: nat, j: nat ensures MakerOk(s, i, j) && SleepOk(s, i, j) && ScanOk(s, i, j) {}
  }

  /** No lost wakeup: in every reachable state in which wait_lock is free, nobody sleeps in kwait
      with a zombie child, or in waitpid(pid) with that child a zombie. */
  lemma NoLostWakeup(s: State, q: nat, c: nat)
    requires Reachable(s) && s.waitLock == None && Has(s, q) && Has(s, c)
    requires s.st[q] == Sleeping && s.pc[q].Asleep?
    ensures !(s.parent[c] == Some(q) && s.st[c] == Zombie && Matches(s.pc[q].t, s.pid[c]))
  {
    EveryRun(s);
    assert SleepOk(s, q, c);
  }

  /** A pid joins the reaped ones only by its parent finding it a zombie, which it then no longer is. */
  lemma ReapedOnce(s: State, e: Event, pid: nat)
    requires Reachable(s) && Enabled(s, e) && pid in Next(s, e).reaped && pid !in s.reaped
    ensures e.Wait? && e.w.ScanStep? && s.pc[e.w.i].Scan?
    ensures var k := s.pc[e.w.i].k;
            Has(s, k) && s.st[k] == Zombie && s.pid[k] == pid && s.parent[k] == Some(e.w.i)
              && Next(s, e).st[k] == Unused && pid in s.exited
  {
    EveryRun(s);
    OnlyScanReaps(s, e, pid);
    assert IdOk(s, s.pc[e.w.i].k);
  }

  /** A zombie leaves the table only by being reaped, and its pid had not been reaped before. */
  lemma ZombieIsReaped(s: State, e: Event, k: nat)
    requires Reachable(s) && Enabled(s, e) && Has(s, k)
    requires s.st[k] == Zombie && StatusAfter(s, e, k) != Zombie
    ensures StatusAfter(s, e, k) == Unused && s.pid[k] !in s.reaped && s.pid[k] in Next(s, e).reaped
  {
    EveryRun(s);
    if e.Fork? { ForkKeepsZombies(s, e.f, k); } else { OnlyScanFrees(s, e, k); }
    assert IdOk(s, k);
  }

  function StatusAfter(s: State, e: Event, k: nat): Status
    requires Enabled(s, e) && Has(s, k)
  {
    SameSlots(s, e);
    Next(s, e).st[k]
  }

  lemma SameSlots(s: State, e: Event)
    requires Enabled(s, e)
    ensures |Next(s, e).st| == |s.st|
  {
    match e
    case Sched(v) => SchedSlots(s, v);
    case Fork(v) => ForkSlots(s, v);
    case Exit(v) => ExitSlots(s, v);
    case Wait(v) => WaitSlots(s, v);
  }

  lemma SchedSlots(s: State, e: SchedEvent)
    requires CanSched(s, e)
    ensures |DoSched(s, e).st| == |s.st|
  {
  }

  lemma ForkSlots(s: State, e: ForkEvent)
    requires CanFork(s, e)
    ensures |DoFork(s, e).st| == |s.st|
  {
  }

  lemma ExitSlots(s: State, e: ExitEvent)
    requires CanExit(s, e)
    ensures |DoExit(s, e).st| == |s.st|
  {
  }

  lemma WaitSlots(s: State, e: WaitEvent)
    requires CanWait(s, e)
    ensures |DoWait(s, e).st| == |s.st|
  {
  }

  lemma OnlyScanFrees(s: State, e: Event, k: nat)
    requires Enabled(s, e) && Has(s, k) && s.st[k] == Zombie && !e.Fork? && StatusAfter(s, e, k) != Zombie
    ensures StatusAfter(s, e, k) == Unused && s.pid[k] in Next(s, e).reaped
  {
  }

  lemma ForkKeepsZombies(s: State, e: ForkEvent, k: nat)
    requires Inv(s) && CanFork(s, e) && Has(s, k) && s.st[k] == Zombie
    ensures DoFork(s, e).st[k] == Zombie
  {
    assert MakerOk(s, e.i, e.i);
  }

  lemma OnlyScanReaps(s: State, e: Event, pid: nat)
    requires Enabled(s, e) && pid in Next(s, e).reaped && pid !in s.reaped
    ensures e.Wait? && e.w.ScanStep? && s.pc[e.w.i].Scan?
    ensures var k := s.pc[e.w.i].k;
            Has(s, k) && s.st[k] == Zombie && s.pid[k] == pid && s.parent[k] == Some(e.w.i)
              && (k != e.w.i ==> Next(s, e).st[k] == Unused)
  {
  }

  /** What has exited and has not been reaped is exactly the zombies in the table. */
  lemma ExitedIsReapedOrZombie(s: State, pid: nat)
    requires Reachable(s)
    ensures pid in s.exited && pid !in s.reaped <==> exists k: nat :: Has(s, k) && s.st[k] == Zombie && s.pid[k] == pid
    ensures s.reaped <= s.exited
  {
    EveryRun(s);
    assert PidOk(s, pid);
    forall p <- s.reaped ensures p in s.exited { assert PidOk(s, p); }
    if k: nat :| Has(s, k) && s.st[k] == Zombie && s.pid[k] == pid { assert IdOk(s, k); }
  }

  /** kwait gives up with "no children" only when there are none, and waitpid(pid) only when no child has that pid. */
  lemma NoChildrenIsRight(s: State, i: nat, c: nat)
    requires Reachable(s) && CanWait(s, ScanEnd(i)) && !(s.pc[i].t == Any && s.pc[i].kids) && Has(s, c)
    ensures !(s.parent[c] == Some(i) && Matches(s.pc[i].t, s.pid[c]))
  {
    EveryRun(s);
    assert ScanOk(s, i, c);
  }
}
