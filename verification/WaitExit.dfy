/** fork, exit, wait, waitpid, sleep, wakeup and kill of kernel/proc.c as a machine whose steps
    are the critical sections of the code: `acquire` blocks, and what happens under one lock
    between two blocking points is one step. Any number of processes run at once. */
module WaitExit {
  const INIT: nat := 0                       // initproc

  datatype Option<+T> = None | Some(value: T)

  datatype Status = Unused | Used | Sleeping | Runnable | Running | Zombie

  /** Sleep channels: a process (wait) or anything else (pipes, the log, the disk). */
  datatype Chan = NoChan | Proc_(p: nat) | Other(c: nat)

  /** What a call waits for: any child (kwait) or the child with this pid (waitpid). */
  datatype Target = Any | Pid(pid: nat)

  /** Where a process is in the kernel. */
  datatype Pc =
    | Idle                                   // an unused slot
    | User
    | Reparenting(k: nat)                    // kexit: wait_lock held from here
    | WakeInit(k: nat, m: nat)               //   wakeup(initproc) inside reparent
    | WakeParent(m: nat)                     //   wakeup(p->parent)
    | Exiting                                //   about to acquire p->lock
    | Dead
    | WaitStart(t: Target)                   // kwait, waitpid: about to acquire wait_lock
    | Scan(t: Target, k: nat, kids: bool)    //   wait_lock held
    | SleepLock(t: Target)                   //   sleep: about to acquire p->lock
    | SleepRelease(t: Target)                //   both locks held
    | SleepSet(t: Target)                    //   only p->lock held
    | Asleep(t: Target)
    | ForkHold(k: nat)                       // kfork: np->lock held
    | ForkLink(k: nat)                       //   about to set np->parent under wait_lock
    | ForkReady(k: nat)                      //   about to make the child runnable

  /** The proc table by field, wait_lock's holder, the next pid, and the history: where each pid
      lived, which pids have exited and which have been reaped. */
  datatype State = State(st: seq<Status>, parent: seq<Option<nat>>, pid: seq<nat>, chan: seq<Chan>, killed: seq<bool>,
                         lock: seq<Option<nat>>, pc: seq<Pc>, waitLock: Option<nat>, nextPid: nat,
                         slot: map<nat, nat>, exited: set<nat>, reaped: set<nat>)

  predicate Sized(s: State) {
    |s.st| == |s.parent| == |s.pid| == |s.chan| == |s.killed| == |s.lock| == |s.pc|
  }

  predicate Has(s: State, i: nat) { Sized(s) && i < |s.st| }

  function At(s: State, i: nat, pc: Pc): State
    requires Has(s, i)
  {
    s.(pc := s.pc[i := pc])
  }

  function Become(s: State, i: nat, st: Status): State
    requires Has(s, i)
  {
    s.(st := s.st[i := st])
  }

  function Lock(s: State, i: nat, holder: Option<nat>): State
    requires Has(s, i)
  {
    s.(lock := s.lock[i := holder])
  }

  /** freeproc, with p->lock released. */
  function Freed(s: State, k: nat): State
    requires Has(s, k)
  {
    s.(st := s.st[k := Unused], parent := s.parent[k := None], pid := s.pid[k := 0], chan := s.chan[k := NoChan],
       killed := s.killed[k := false], lock := s.lock[k := None], pc := s.pc[k := Idle])
  }

  /** The body of wakeup's loop for process m. */
  function Wake(s: State, m: nat, chan: Chan): State
    requires Has(s, m)
  {
    if s.st[m] == Sleeping && s.chan[m] == chan then Become(s, m, Runnable) else s
  }

  predicate Matches(t: Target, pid: nat) { t == Any || t == Pid(pid) }

  predicate ChildOf(s: State, c: nat, i: nat)
    requires Has(s, c)
  {
    s.parent[c] == Some(i)
  }

  // ---------- Steps ----------

  predicate Runs(s: State, i: nat) { Has(s, i) && s.st[i] == Running }

  /** Interrupts are on, so a timer tick may take the CPU away. */
  predicate Preemptible(pc: Pc) { pc == User || pc.WaitStart? || pc.ForkLink? || pc.ForkReady? }

  /** The scheduler, sleeps on other channels, wakeups of those, and kkill. `Switch` is the
      scheduler releasing p->lock after a process has called sched. */
  datatype SchedEvent =
    | Dispatch(i: nat) | Yield(i: nat) | SleepOn(i: nat, c: nat) | WakeOn(i: nat, c: nat)
    | Kill(i: nat) | Switch(i: nat)

  predicate CanSched(s: State, e: SchedEvent) {
    && Has(s, e.i)
    && match e
       case Dispatch(i) => s.st[i] == Runnable && s.lock[i] == None
       case Yield(i) => s.st[i] == Running && Preemptible(s.pc[i]) && s.lock[i] == None
       case SleepOn(i, c) => s.st[i] == Running && s.pc[i] == User && s.lock[i] == None
       case WakeOn(i, c) => s.lock[i] == None
       case Kill(i) => s.lock[i] == None
       case Switch(i) => s.lock[i] == Some(i) && (s.pc[i].Asleep? || s.pc[i] == Dead)
  }

  function DoSched(s: State, e: SchedEvent): State
    requires CanSched(s, e)
  {
    match e
    case Dispatch(i) =>
      At(Become(s, i, Running).(chan := s.chan[i := NoChan]), i,
         if s.pc[i].Asleep? then WaitStart(s.pc[i].t) else s.pc[i])
    case Yield(i) => Become(s, i, Runnable)
    case SleepOn(i, c) => Become(s, i, Sleeping).(chan := s.chan[i := Other(c)])
    case WakeOn(i, c) => Wake(s, i, Other(c))
    case Kill(i) => Become(s, i, if s.st[i] == Sleeping then Runnable else s.st[i]).(killed := s.killed[i := true])
    case Switch(i) => Lock(s, i, None)
  }

  /** kfork: allocproc (which may fail later), setting the parent, making the child runnable. */
  datatype ForkEvent =
    | Alloc(i: nat, k: nat) | AllocFails(i: nat) | AllocDone(i: nat) | Link(i: nat) | MakeRunnable(i: nat)

  predicate CanFork(s: State, e: ForkEvent) {
    && Runs(s, e.i)
    && match e
       case Alloc(i, k) => s.pc[i] == User && Has(s, k) && s.st[k] == Unused && s.lock[k] == None
       case AllocFails(i) => s.pc[i].ForkHold? && Has(s, s.pc[i].k)
       case AllocDone(i) => s.pc[i].ForkHold? && Has(s, s.pc[i].k)
       case Link(i) => s.pc[i].ForkLink? && Has(s, s.pc[i].k) && s.waitLock == None
       case MakeRunnable(i) => s.pc[i].ForkReady? && Has(s, s.pc[i].k) && s.lock[s.pc[i].k] == None
  }

  function DoFork(s: State, e: ForkEvent): State
    requires CanFork(s, e)
  {
    var pc := s.pc[e.i];
    match e
    case Alloc(i, k) =>
      At(Lock(Become(s, k, Used), k, Some(i)), i, ForkHold(k))
        .(pid := s.pid[k := s.nextPid], nextPid := s.nextPid + 1, slot := s.slot[s.nextPid := k])
    case AllocFails(i) => At(Freed(s, pc.k), i, User)
    case AllocDone(i) => At(Lock(s, pc.k, None), i, ForkLink(pc.k))
    case Link(i) => At(s, i, ForkReady(pc.k)).(parent := s.parent[pc.k := Some(i)])
    case MakeRunnable(i) => At(At(Become(s, pc.k, Runnable), pc.k, User), i, User)
  }

  /** kexit from acquire(&wait_lock) on; WakeStep is one turn of a wakeup loop. */
  datatype ExitEvent = ExitStart(i: nat) | Reparent(i: nat) | WakeStep(i: nat) | Die(i: nat)

  predicate CanExit(s: State, e: ExitEvent) {
    && Runs(s, e.i)
    && match e
       case ExitStart(i) => i != INIT && s.pc[i] == User && s.waitLock == None
       case Reparent(i) => s.pc[i].Reparenting?
       case WakeStep(i) => (s.pc[i].WakeInit? || s.pc[i].WakeParent?)
                             && (Has(s, s.pc[i].m) && s.pc[i].m != i ==> s.lock[s.pc[i].m] == None)
       case Die(i) => s.pc[i] == Exiting && s.lock[i] == None
  }

  function DoExit(s: State, e: ExitEvent): State
    requires CanExit(s, e)
  {
    var pc := s.pc[e.i];
    match e
    case ExitStart(i) => At(s, i, Reparenting(0)).(waitLock := Some(i))
    case Reparent(i) =>
      if !Has(s, pc.k) then At(s, i, WakeParent(0))
      else if ChildOf(s, pc.k, i) then At(s, i, WakeInit(pc.k, 0)).(parent := s.parent[pc.k := Some(INIT)])
      else At(s, i, Reparenting(pc.k + 1))
    case WakeStep(i) =>
      if !Has(s, pc.m) then At(s, i, if pc.WakeInit? then Reparenting(pc.k + 1) else Exiting)
      else At(if pc.m == i then s else Wake(s, pc.m, WakeChan(s, i)), i, pc.(m := pc.m + 1))
    case Die(i) => At(Lock(Become(s, i, Zombie), i, Some(i)), i, Dead).(waitLock := None,
                       exited := s.exited + {s.pid[i]})
  }

  function WakeChan(s: State, i: nat): Chan
    requires Has(s, i)
  {
    if s.pc[i].WakeInit? then Proc_(INIT) else if s.parent[i] == None then NoChan else Proc_(s.parent[i].value)
  }

  /** kwait and waitpid with the sleep inside them. */
  datatype WaitEvent =
    | CallWait(i: nat, t: Target) | WaitLock(i: nat) | ScanStep(i: nat, copyFails: bool) | ScanEnd(i: nat)
    | LockSelf(i: nat) | ReleaseWait(i: nat) | GoToSleep(i: nat)

  predicate CanWait(s: State, e: WaitEvent) {
    && Runs(s, e.i)
    && match e
       case CallWait(i, t) => s.pc[i] == User
       case WaitLock(i) => s.pc[i].WaitStart? && s.waitLock == None
       case ScanStep(i, _) => s.pc[i].Scan? && Has(s, s.pc[i].k) && (Seen(s, i) ==> s.lock[s.pc[i].k] == None)
       case ScanEnd(i) => s.pc[i].Scan? && !Has(s, s.pc[i].k) && s.lock[i] == None
       case LockSelf(i) => s.pc[i].SleepLock? && s.lock[i] == None
       case ReleaseWait(i) => s.pc[i].SleepRelease?
       case GoToSleep(i) => s.pc[i].SleepSet?
  }

  /** The scan is at a child the caller waits for. */
  predicate Seen(s: State, i: nat)
    requires Has(s, i) && s.pc[i].Scan? && Has(s, s.pc[i].k)
  {
    ChildOf(s, s.pc[i].k, i) && Matches(s.pc[i].t, s.pid[s.pc[i].k])
  }

  function DoWait(s: State, e: WaitEvent): State
    requires CanWait(s, e)
  {
    var pc := s.pc[e.i];
    match e
    case CallWait(i, t) => At(s, i, WaitStart(t))
    case WaitLock(i) => At(s, i, Scan(pc.t, 0, false)).(waitLock := Some(i))
    case ScanStep(i, copyFails) =>
      if !Seen(s, i) then At(s, i, pc.(k := pc.k + 1))
      else if s.st[pc.k] == Zombie then
        if copyFails && pc.t == Any then Return(s, i)
        else Return(Freed(s, pc.k), i).(reaped := s.reaped + {s.pid[pc.k]})
      else if pc.t == Any then At(s, i, Scan(Any, pc.k + 1, true))
      else if s.killed[i] then Return(s, i) else At(s, i, SleepLock(pc.t))
    case ScanEnd(i) => if pc.t != Any || !pc.kids || s.killed[i] then Return(s, i) else At(s, i, SleepLock(Any))
    case LockSelf(i) => At(Lock(s, i, Some(i)), i, SleepRelease(pc.t))
    case ReleaseWait(i) => At(s, i, SleepSet(pc.t)).(waitLock := None)
    case GoToSleep(i) => At(Become(s, i, Sleeping), i, Asleep(pc.t)).(chan := s.chan[i := Proc_(i)])
  }

  /** Release wait_lock and return to the caller. */
  function Return(s: State, i: nat): State
    requires Has(s, i)
  {
    At(s, i, User).(waitLock := None)
  }

  datatype Event = Sched(s: SchedEvent) | Fork(f: ForkEvent) | Exit(x: ExitEvent) | Wait(w: WaitEvent)

  predicate Enabled(s: State, e: Event) {
    match e
    case Sched(v) => CanSched(s, v)
    case Fork(v) => CanFork(s, v)
    case Exit(v) => CanExit(s, v)
    case Wait(v) => CanWait(s, v)
  }

  function Next(s: State, e: Event): State
    requires Enabled(s, e)
  {
    match e
    case Sched(v) => DoSched(s, v)
    case Fork(v) => DoFork(s, v)
    case Exit(v) => DoExit(s, v)
    case Wait(v) => DoWait(s, v)
  }

  // ---------- The invariant ----------

  predicate HoldsWait(pc: Pc) { Exits(pc) || pc.Scan? || pc.SleepLock? || pc.SleepRelease? }

  predicate Exits(pc: Pc) { pc.Reparenting? || pc.WakeInit? || pc.WakeParent? || pc.Exiting? }

  predicate Forks(pc: Pc) { pc.ForkHold? || pc.ForkLink? || pc.ForkReady? }

  /** Committed to sleeping in a wait, without wait_lock. */
  predicate InSleep(s: State, i: nat)
    requires Has(s, i)
  {
    s.pc[i].SleepSet? || (s.pc[i].Asleep? && s.st[i] == Sleeping)
  }

  /** How each process's position, status and locks fit together. */
  ghost predicate ProcOk(s: State, i: nat) {
    Has(s, i) ==>
      var pc := s.pc[i];
      && (HoldsWait(pc) <==> s.waitLock == Some(i)) && (HoldsWait(pc) || pc.SleepSet? ==> s.st[i] == Running)
      && (pc.SleepRelease? || pc.SleepSet? ==> s.lock[i] == Some(i))
      && (pc.Asleep? ==> s.st[i] == Runnable || (s.st[i] == Sleeping && s.chan[i] == Proc_(i)))
      && (pc == Dead <==> s.st[i] == Zombie) && (pc == Idle <==> s.st[i] in {Unused, Used})
      && (Exits(pc) ==> i != INIT) && (s.st[i] == Unused ==> s.parent[i] == None)
  }

  /** A process being made is Used, and by one maker only. */
  ghost predicate MakerOk(s: State, i: nat, j: nat) {
    Has(s, i) && Forks(s.pc[i]) ==>
      && Has(s, s.pc[i].k) && s.st[s.pc[i].k] == Used
      && (Has(s, j) && Forks(s.pc[j]) && s.pc[j].k == s.pc[i].k ==> i == j)
  }

  /** A process in use has a pid of its own; a zombie's has exited and not been reaped. */
  ghost predicate IdOk(s: State, i: nat) {
    Has(s, i) ==>
      && (s.st[i] != Unused ==> 0 < s.pid[i] < s.nextPid && s.pid[i] in s.slot && s.slot[s.pid[i]] == i)
      && (s.st[i] == Zombie ==> s.pid[i] in s.exited && s.pid[i] !in s.reaped)
      && (s.st[i] != Unused && s.st[i] != Zombie ==> s.pid[i] !in s.exited)
  }

  /** Every pid that has exited is either a zombie still in its slot or has been reaped. */
  ghost predicate PidOk(s: State, pid: nat) {
    && (pid in s.reaped ==> pid in s.exited) && (pid in s.exited ==> pid < s.nextPid)
    && (pid in s.exited && pid !in s.reaped ==>
          pid in s.slot && Has(s, s.slot[pid]) && s.st[s.slot[pid]] == Zombie && s.pid[s.slot[pid]] == pid)
  }

  /** c is a zombie child that a wait of q for t would find. */
  predicate Reapable(s: State, q: nat, t: Target, c: nat) {
    Has(s, c) && ChildOf(s, c, q) && s.st[c] == Zombie && Matches(t, s.pid[c])
  }

  /** The one moment at which init may lie asleep over a zombie: reparent has just handed it over
      and the wakeup scan has not come to init yet. */
  predicate Excused(s: State, q: nat) {
    && q == INIT && s.waitLock.Some? && Has(s, s.waitLock.value)
    && s.pc[s.waitLock.value].WakeInit? && s.pc[s.waitLock.value].m <= INIT
  }

  /** A process asleep in a wait, or on the way there, has no child c it should have found; and a
      wakeup scan that has passed it has found it. */
  ghost predicate SleepOk(s: State, q: nat, c: nat) {
    Has(s, q) && Has(s, c) && InSleep(s, q) ==>
      && (Reapable(s, q, s.pc[q].t, c) ==> Excused(s, q))
      && (s.pc[c].WakeParent? && ChildOf(s, c, q) ==> s.pc[c].m <= q) && !(s.pc[c].Exiting? && ChildOf(s, c, q))
      && (s.pc[c].WakeInit? && q == INIT ==> s.pc[c].m <= q)
  }

  /** A scan holding wait_lock has missed nothing so far. */
  ghost predicate ScanOk(s: State, q: nat, c: nat) {
    Has(s, q) && Has(s, c) ==>
      && (s.pc[q].Scan? && c < s.pc[q].k ==>
           !Reapable(s, q, s.pc[q].t, c)
             && (ChildOf(s, c, q) ==> if s.pc[q].t == Any then s.pc[q].kids else s.pid[c] != s.pc[q].t.pid))
      && (s.pc[q].SleepLock? || s.pc[q].SleepRelease? ==> !Reapable(s, q, s.pc[q].t, c))
  }

  ghost predicate Inv(s: State) {
    && Has(s, INIT) && 0 < s.nextPid
    && (forall i: nat {:trigger ProcOk(s, i)} :: ProcOk(s, i))
    && (forall i: nat {:trigger IdOk(s, i)} :: IdOk(s, i))
    && (forall i: nat, j: nat {:trigger MakerOk(s, i, j)} :: MakerOk(s, i, j))
    && (forall q: nat, c: nat {:trigger SleepOk(s, q, c)} :: SleepOk(s, q, c))
    && (forall q: nat, c: nat {:trigger ScanOk(s, q, c)} :: ScanOk(s, q, c))
    && (forall p: nat {:trigger PidOk(s, p)} :: PidOk(s, p))
  }

  lemma ProcSched(s: State, e: SchedEvent, i: nat)
    requires Inv(s) && CanSched(s, e)
    ensures ProcOk(DoSched(s, e), i)
  {
    assert ProcOk(s, i) && ProcOk(s, e.i);
  }

  lemma IdSched(s: State, e: SchedEvent, i: nat)
    requires Inv(s) && CanSched(s, e)
    ensures IdOk(DoSched(s, e), i)
  {
    assert IdOk(s, i) && IdOk(s, e.i) && PidOk(s, s.nextPid) && PidOk(s, s.pid[e.i]);
  }

  lemma PidSched(s: State, e: SchedEvent, p: nat)
    requires Inv(s) && CanSched(s, e)
    ensures PidOk(DoSched(s, e), p)
  {
    assert PidOk(s, p) && IdOk(s, e.i);
  }

  lemma MakerSched(s: State, e: SchedEvent, i: nat, j: nat)
    requires Inv(s) && CanSched(s, e)
    ensures MakerOk(DoSched(s, e), i, j)
  {
    assert MakerOk(s, i, j) && MakerOk(s, i, e.i) && MakerOk(s, e.i, j) && MakerOk(s, j, i) && ProcOk(s, e.i);
  }

  lemma SleepSched(s: State, e: SchedEvent, q: nat, c: nat)
    requires Inv(s) && CanSched(s, e)
    ensures SleepOk(DoSched(s, e), q, c)
  {
    assert SleepOk(s, q, c) && ProcOk(s, q) && ProcOk(s, c) && ProcOk(s, e.i);
  }

  lemma ScanSched(s: State, e: SchedEvent, q: nat, c: nat)
    requires Inv(s) && CanSched(s, e)
    ensures ScanOk(DoSched(s, e), q, c)
  {
    assert ScanOk(s, q, c) && ProcOk(s, q) && ProcOk(s, c) && ProcOk(s, e.i) && IdOk(s, c);
  }

  lemma ProcFork(s: State, e: ForkEvent, i: nat)
    requires Inv(s) && CanFork(s, e)
    ensures ProcOk(DoFork(s, e), i)
  {
    assert MakerOk(s, e.i, e.i) && (Forks(s.pc[e.i]) ==> ProcOk(s, s.pc[e.i].k) && IdOk(s, s.pc[e.i].k));
    assert ProcOk(s, i) && ProcOk(s, e.i);
  }

  lemma IdFork(s: State, e: ForkEvent, i: nat)
    requires Inv(s) && CanFork(s, e)
    ensures IdOk(DoFork(s, e), i)
  {
    assert MakerOk(s, e.i, e.i) && (Forks(s.pc[e.i]) ==> ProcOk(s, s.pc[e.i].k) && IdOk(s, s.pc[e.i].k));
    assert IdOk(s, i) && IdOk(s, e.i) && PidOk(s, s.nextPid) && PidOk(s, s.pid[e.i]);
  }

  lemma PidFork(s: State, e: ForkEvent, p: nat)
    requires Inv(s) && CanFork(s, e)
    ensures PidOk(DoFork(s, e), p)
  {
    assert MakerOk(s, e.i, e.i) && (Forks(s.pc[e.i]) ==> ProcOk(s, s.pc[e.i].k) && IdOk(s, s.pc[e.i].k));
    assert PidOk(s, p) && IdOk(s, e.i);
  }

  lemma MakerFork(s: State, e: ForkEvent, i: nat, j: nat)
    requires Inv(s) && CanFork(s, e)
    ensures MakerOk(DoFork(s, e), i, j)
  {
    assert MakerOk(s, e.i, e.i) && (Forks(s.pc[e.i]) ==> ProcOk(s, s.pc[e.i].k) && IdOk(s, s.pc[e.i].k));
    assert MakerOk(s, i, j) && MakerOk(s, i, e.i) && MakerOk(s, e.i, j) && MakerOk(s, j, i) && ProcOk(s, e.i);
  }

  lemma SleepFork(s: State, e: ForkEvent, q: nat, c: nat)
    requires Inv(s) && CanFork(s, e) && !(e.Alloc? || e.AllocFails?)
    ensures SleepOk(DoFork(s, e), q, c)
  {
    assert MakerOk(s, e.i, e.i) && (Forks(s.pc[e.i]) ==> ProcOk(s, s.pc[e.i].k) && IdOk(s, s.pc[e.i].k));
    assert SleepOk(s, q, c) && ProcOk(s, q) && ProcOk(s, c) && ProcOk(s, e.i);
  }

  lemma SleepAlloc(s: State, e: ForkEvent, q: nat, c: nat)
    requires Inv(s) && CanFork(s, e) && (e.Alloc? || e.AllocFails?)
    ensures SleepOk(DoFork(s, e), q, c)
  {
    assert MakerOk(s, e.i, e.i) && (Forks(s.pc[e.i]) ==> ProcOk(s, s.pc[e.i].k) && IdOk(s, s.pc[e.i].k));
    assert SleepOk(s, q, c) && ProcOk(s, q) && ProcOk(s, c) && ProcOk(s, e.i);
  }

  lemma ScanFork(s: State, e: ForkEvent, q: nat, c: nat)
    requires Inv(s) && CanFork(s, e)
    ensures ScanOk(DoFork(s, e), q, c)
  {
    assert MakerOk(s, e.i, e.i) && (Forks(s.pc[e.i]) ==> ProcOk(s, s.pc[e.i].k) && IdOk(s, s.pc[e.i].k));
    assert ScanOk(s, q, c) && ProcOk(s, q) && ProcOk(s, c) && ProcOk(s, e.i) && IdOk(s, c);
  }

  lemma ProcExit(s: State, e: ExitEvent, i: nat)
    requires Inv(s) && CanExit(s, e)
    ensures ProcOk(DoExit(s, e), i)
  {
    assert ProcOk(s, i) && ProcOk(s, e.i);
  }

  lemma IdExit(s: State, e: ExitEvent, i: nat)
    requires Inv(s) && CanExit(s, e)
    ensures IdOk(DoExit(s, e), i)
  {
    assert IdOk(s, i) && IdOk(s, e.i) && PidOk(s, s.nextPid) && PidOk(s, s.pid[e.i]);
  }

  lemma PidExit(s: State, e: ExitEvent, p: nat)
    requires Inv(s) && CanExit(s, e)
    ensures PidOk(DoExit(s, e), p)
  {
    assert PidOk(s, p) && IdOk(s, e.i);
  }

  lemma MakerExit(s: State, e: ExitEvent, i: nat, j: nat)
    requires Inv(s) && CanExit(s, e) && !e.WakeStep?
    ensures MakerOk(DoExit(s, e), i, j)
  {
    assert MakerOk(s, i, j) && MakerOk(s, i, e.i) && MakerOk(s, e.i, j) && MakerOk(s, j, i) && ProcOk(s, e.i);
  }

  lemma MakerWakeup(s: State, e: ExitEvent, i: nat, j: nat)
    requires Inv(s) && CanExit(s, e) && e.WakeStep?
    ensures MakerOk(DoExit(s, e), i, j)
  {
    assert MakerOk(s, i, j) && MakerOk(s, i, e.i) && MakerOk(s, e.i, j) && MakerOk(s, j, i) && ProcOk(s, e.i);
  }

  lemma SleepExit(s: State, e: ExitEvent, q: nat, c: nat)
    requires Inv(s) && CanExit(s, e) && !(e.WakeStep?)
    ensures SleepOk(DoExit(s, e), q, c)
  {
    assert SleepOk(s, q, c) && ProcOk(s, q) && ProcOk(s, c) && ProcOk(s, e.i);
  }

  lemma SleepWakeup(s: State, e: ExitEvent, q: nat, c: nat)
    requires Inv(s) && CanExit(s, e) && (e.WakeStep?)
    ensures SleepOk(DoExit(s, e), q, c)
  {
    assert SleepOk(s, q, c) && ProcOk(s, q) && ProcOk(s, c) && ProcOk(s, e.i);
  }

  lemma ScanExit(s: State, e: ExitEvent, q: nat, c: nat)
    requires Inv(s) && CanExit(s, e)
    ensures ScanOk(DoExit(s, e), q, c)
  {
    assert ScanOk(s, q, c) && ProcOk(s, q) && ProcOk(s, c) && ProcOk(s, e.i) && IdOk(s, c);
  }

  lemma ProcWait(s: State, e: WaitEvent, i: nat)
    requires Inv(s) && CanWait(s, e) && !e.ScanStep?
    ensures ProcOk(DoWait(s, e), i)
  {
    assert ProcOk(s, i) && ProcOk(s, e.i);
  }

  lemma IdWait(s: State, e: WaitEvent, i: nat)
    requires Inv(s) && CanWait(s, e) && !e.ScanStep?
    ensures IdOk(DoWait(s, e), i)
  {
    assert IdOk(s, i) && IdOk(s, e.i) && PidOk(s, s.nextPid) && PidOk(s, s.pid[e.i]);
  }

  lemma PidWait(s: State, e: WaitEvent, p: nat)
    requires Inv(s) && CanWait(s, e) && !e.ScanStep?
    ensures PidOk(DoWait(s, e), p)
  {
    assert PidOk(s, p) && IdOk(s, e.i);
  }

  lemma MakerWait(s: State, e: WaitEvent, i: nat, j: nat)
    requires Inv(s) && CanWait(s, e) && !e.ScanStep?
    ensures MakerOk(DoWait(s, e), i, j)
  {
    assert MakerOk(s, i, j) && MakerOk(s, i, e.i) && MakerOk(s, e.i, j) && MakerOk(s, j, i) && ProcOk(s, e.i);
  }

  lemma SleepWait(s: State, e: WaitEvent, q: nat, c: nat)
    requires Inv(s) && CanWait(s, e) && !e.ScanStep? && !e.ReleaseWait? && !e.GoToSleep?
    ensures SleepOk(DoWait(s, e), q, c)
  {
    assert SleepOk(s, q, c) && ProcOk(s, q) && ProcOk(s, c) && ProcOk(s, e.i);
  }

  /** wait_lock goes and the process sleeps: its scan has found nothing to reap. */
  lemma SleepGoes(s: State, e: WaitEvent, q: nat, c: nat)
    requires Inv(s) && CanWait(s, e) && (e.ReleaseWait? || e.GoToSleep?)
    ensures SleepOk(DoWait(s, e), q, c)
  {
    assert SleepOk(s, q, c) && ProcOk(s, q) && ProcOk(s, c) && ProcOk(s, e.i) && ScanOk(s, q, c);
  }

  lemma ScanWait(s: State, e: WaitEvent, q: nat, c: nat)
    requires Inv(s) && CanWait(s, e) && !e.ScanStep?
    ensures ScanOk(DoWait(s, e), q, c)
  {
    assert ScanOk(s, q, c) && ProcOk(s, q) && ProcOk(s, c) && ProcOk(s, e.i) && IdOk(s, c);
  }

  lemma ProcScan(s: State, e: WaitEvent, i: nat)
    requires Inv(s) && CanWait(s, e) && e.ScanStep?
    ensures ProcOk(DoWait(s, e), i)
  {
    assert s.pc[e.i].Scan? ==> ProcOk(s, s.pc[e.i].k) && IdOk(s, s.pc[e.i].k);
    assert ProcOk(s, i) && ProcOk(s, e.i);
  }

  lemma IdScan(s: State, e: WaitEvent, i: nat)
    requires Inv(s) && CanWait(s, e) && e.ScanStep?
    ensures IdOk(DoWait(s, e), i)
  {
    assert s.pc[e.i].Scan? ==> ProcOk(s, s.pc[e.i].k) && IdOk(s, s.pc[e.i].k);
    assert IdOk(s, i) && IdOk(s, e.i) && PidOk(s, s.nextPid) && PidOk(s, s.pid[e.i]);
  }

  lemma PidScan(s: State, e: WaitEvent, p: nat)
    requires Inv(s) && CanWait(s, e) && e.ScanStep?
    ensures PidOk(DoWait(s, e), p)
  {
    assert s.pc[e.i].Scan? ==> ProcOk(s, s.pc[e.i].k) && IdOk(s, s.pc[e.i].k);
    assert PidOk(s, p) && IdOk(s, e.i);
  }

  lemma MakerScan(s: State, e: WaitEvent, i: nat, j: nat)
    requires Inv(s) && CanWait(s, e) && e.ScanStep?
    ensures MakerOk(DoWait(s, e), i, j)
  {
    assert s.pc[e.i].Scan? ==> ProcOk(s, s.pc[e.i].k) && IdOk(s, s.pc[e.i].k);
    assert MakerOk(s, i, j) && MakerOk(s, i, e.i) && MakerOk(s, e.i, j) && MakerOk(s, j, i) && ProcOk(s, e.i);
  }

  lemma SleepScan(s: State, e: WaitEvent, q: nat, c: nat)
    requires Inv(s) && CanWait(s, e) && e.ScanStep?
    ensures SleepOk(DoWait(s, e), q, c)
  {
    assert s.pc[e.i].Scan? ==> ProcOk(s, s.pc[e.i].k) && IdOk(s, s.pc[e.i].k);
    assert SleepOk(s, q, c) && ProcOk(s, q) && ProcOk(s, c) && ProcOk(s, e.i);
  }

  lemma ScanScan(s: State, e: WaitEvent, q: nat, c: nat)
    requires Inv(s) && CanWait(s, e) && e.ScanStep?
    ensures ScanOk(DoWait(s, e), q, c)
  {
    assert s.pc[e.i].Scan? ==> ProcOk(s, s.pc[e.i].k) && IdOk(s, s.pc[e.i].k);
    assert ScanOk(s, q, c) && ProcOk(s, q) && ProcOk(s, c) && ProcOk(s, e.i) && IdOk(s, c);
  }

  lemma KeepsSched(s: State, e: SchedEvent)
    requires Inv(s) && CanSched(s, e)
    ensures Inv(DoSched(s, e))
  {
    var n := DoSched(s, e);
    forall i: nat ensures ProcOk(n, i) { ProcSched(s, e, i); }
    forall i: nat ensures IdOk(n, i) { IdSched(s, e, i); }
    forall p: nat ensures PidOk(n, p) { PidSched(s, e, p); }
    forall i: nat, j: nat ensures MakerOk(n, i, j) { MakerSched(s, e, i, j); }
    forall q: nat, c: nat ensures SleepOk(n, q, c) { SleepSched(s, e, q, c); }
    forall q: nat, c: nat ensures ScanOk(n, q, c) { ScanSched(s, e, q, c); }
  }

  lemma KeepsFork(s: State, e: ForkEvent)
    requires Inv(s) && CanFork(s, e)
    ensures Inv(DoFork(s, e))
  {
    var n := DoFork(s, e);
    forall i: nat ensures ProcOk(n, i) { ProcFork(s, e, i); }
    forall i: nat ensures IdOk(n, i) { IdFork(s, e, i); }
    forall p: nat ensures PidOk(n, p) { PidFork(s, e, p); }
    forall i: nat, j: nat ensures MakerOk(n, i, j) { MakerFork(s, e, i, j); }
    forall q: nat, c: nat ensures SleepOk(n, q, c) {
      if e.Alloc? || e.AllocFails? { SleepAlloc(s, e, q, c); } else { SleepFork(s, e, q, c); }
    }
    forall q: nat, c: nat ensures ScanOk(n, q, c) { ScanFork(s, e, q, c); }
  }

  lemma KeepsExit(s: State, e: ExitEvent)
    requires Inv(s) && CanExit(s, e)
    ensures Inv(DoExit(s, e))
  {
    var n := DoExit(s, e);
    forall i: nat ensures ProcOk(n, i) { ProcExit(s, e, i); }
    forall i: nat ensures IdOk(n, i) { IdExit(s, e, i); }
    forall p: nat ensures PidOk(n, p) { PidExit(s, e, p); }
    forall i: nat, j: nat
      ensures MakerOk(n, i, j) { if e.WakeStep? { MakerWakeup(s, e, i, j); } else { MakerExit(s, e, i, j); } }
    forall q: nat, c: nat
      ensures SleepOk(n, q, c) { if e.WakeStep? { SleepWakeup(s, e, q, c); } else { SleepExit(s, e, q, c); } }
    forall q: nat, c: nat ensures ScanOk(n, q, c) { ScanExit(s, e, q, c); }
  }

  lemma KeepsScan(s: State, e: WaitEvent)
    requires Inv(s) && CanWait(s, e) && e.ScanStep?
    ensures Inv(DoWait(s, e))
  {
    var n := DoWait(s, e);
    forall i: nat ensures ProcOk(n, i) { ProcScan(s, e, i); }
    forall i: nat ensures IdOk(n, i) { IdScan(s, e, i); }
    forall p: nat ensures PidOk(n, p) { PidScan(s, e, p); }
    forall i: nat, j: nat ensures MakerOk(n, i, j) { MakerScan(s, e, i, j); }
    forall q: nat, c: nat ensures SleepOk(n, q, c) { SleepScan(s, e, q, c); }
    forall q: nat, c: nat ensures ScanOk(n, q, c) { ScanScan(s, e, q, c); }
  }

  lemma KeepsWait(s: State, e: WaitEvent)
    requires Inv(s) && CanWait(s, e) && !e.ScanStep?
    ensures Inv(DoWait(s, e))
  {
    var n := DoWait(s, e);
    forall i: nat ensures ProcOk(n, i) { ProcWait(s, e, i); }
    forall i: nat ensures IdOk(n, i) { IdWait(s, e, i); }
    forall p: nat ensures PidOk(n, p) { PidWait(s, e, p); }
    forall i: nat, j: nat ensures MakerOk(n, i, j) { MakerWait(s, e, i, j); }
    forall q: nat, c: nat ensures SleepOk(n, q, c) {
      if e.ReleaseWait? || e.GoToSleep? { SleepGoes(s, e, q, c); } else { SleepWait(s, e, q, c); }
    }
    forall q: nat, c: nat ensures ScanOk(n, q, c) { ScanWait(s, e, q, c); }
  }
}
