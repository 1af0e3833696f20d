/**
 fork, exit, wait, kill and the scheduler of kernel/proc.c, as a state machine over every
 interleaving of any number of processes and CPUs.

 Parent links change under wait_lock; a process's state changes under its own p->lock. A process
 that switches away leaves its p->lock to the scheduler of its CPU, which forgets the process and
 releases the lock. A visit to another process under that process's p->lock is one step, possible
 when the lock is free.
 */
module WaitExit {
  import opened Common

  /** initproc's place in the process table. */
  const INIT: nat := 0

  datatype RunState = UNUSED | USED | RUNNABLE | RUNNING | SLEEPING | ZOMBIE

  datatype Holder = Own | Scheduler

  /** What exit does when a wakeup is over: go on reparenting after process k, or become a zombie. */
  datatype Then = Reparent(k: nat) | BecomeZombie

  datatype Pc =
    | User
    | ForkParent(np: nat)                    // about to set np's parent under wait_lock
    | ForkRun(np: nat)                       // about to make np runnable
    | ExitReparent(k: nat)                   // holds wait_lock, next child to look at is k
    | Waking(after: Then, chan: nat, k: nat) // wakeup(chan), holds wait_lock: next is process k
    | ExitSpin                               // holds wait_lock, spinning on its p->lock
    | ExitGone                               // a zombie that has not switched away yet
    | Dead
    | WaitScan(k: nat, havekids: bool)       // holds wait_lock, next is process k
    | WaitResolved                           // holds wait_lock, has found children and itself not killed
    | Going                                  // sleep: has released wait_lock, holds its p->lock
    | Asleep                                 // sleep: inside sched
    | Reacquire                              // sleep: spinning on wait_lock again
    | Leaving                                // sleep on another channel: holds its p->lock
    | Away                                   // sleep on another channel: inside sched

  /** `maker` is the process that is creating this one in fork. `cpu` is what mycpu() returns. `status` is the argument
      of exit, on the kernel stack, and `xstate` where wait finds it. */
  datatype Proc = Proc(state: RunState, parent: Option<nat>, killed: bool, pc: Pc, lock: Option<Holder>,
      maker: Option<nat>, cpu: Option<nat>, status: int, xstate: int)

  /** cpus[c] is c->proc. */
  datatype State = State(procs: seq<Proc>, cpus: seq<Option<nat>>, waitLock: Option<nat>)

  datatype Step =
    | AllocProc(np: nat) | ForkFails(np: nat) | ForkSetParent | ForkMakeRunnable
    | CallExit(status: int) | ReparentSkip | ReparentOne | ReparentDone
    | WakeSkip | WakeOne | WakeDone | SetZombie | ExitSwitch
    | CallWait | WaitNext | WaitAlive | Reap | ReapFails | WaitGiveUp | WaitResolve | WaitSleep | SwitchOut | Woken
    | SleepElsewhere | WokenElsewhere | Kill(victim: nat)
    | Yield | YieldReturn | Pick(c: nat) | Release

  /** A timer interrupt may make the process yield: it holds no spin lock. */
  predicate Interruptible(pc: Pc) {
    pc.User? || pc.ForkParent? || pc.ForkRun? || pc.Reacquire?
  }

  /** Inside sleep, before its p->lock is released again. */
  predicate Sleeps(pc: Pc) {
    pc.Going? || pc.Asleep? || pc.Leaving? || pc.Away?
  }

  predicate HasWaitLock(pc: Pc) {
    pc.ExitReparent? || pc.Waking? || pc.ExitSpin? || pc.WaitScan? || pc.WaitResolved?
  }

  /** Process i executes its own code: it is on a CPU and does not find its p->lock held for it. */
  predicate Runs(s: State, i: nat) {
    i < |s.procs| && s.procs[i].state == RUNNING && s.procs[i].lock == None
  }

  /** Process i may visit process k under k's lock. */
  predicate CanVisit(s: State, i: nat, k: nat) {
    k < |s.procs| && k != i && s.procs[k].lock == None
  }

  /** The steps of fork, of exit, and of wait with its sleep; the others are those of kill, of sleeping elsewhere, of
      timer interrupts and of the scheduler. */
  predicate OfFork(step: Step) {
    step.AllocProc? || step.ForkFails? || step.ForkSetParent? || step.ForkMakeRunnable?
  }

  predicate OfExit(step: Step) {
    || step.CallExit? || step.ReparentSkip? || step.ReparentOne? || step.ReparentDone? || step.WakeSkip?
      || step.WakeOne?
    || step.WakeDone? || step.SetZombie? || step.ExitSwitch?
  }

  predicate OfWait(step: Step) {
    || step.CallWait? || step.WaitNext? || step.WaitAlive? || step.Reap? || step.ReapFails? || step.WaitGiveUp?
    || step.WaitResolve? || step.WaitSleep? || step.SwitchOut? || step.Woken?
  }

  predicate CanFork(s: State, i: nat, step: Step)
    requires i < |s.procs|
  {
    var p, n := s.procs[i], |s.procs|;
    match step
    case AllocProc(np) => Runs(s, i) && p.pc == User && CanVisit(s, i, np) && s.procs[np].state == UNUSED
    case ForkFails(np) => Runs(s, i) && p.pc == User && CanVisit(s, i, np) && s.procs[np].state == UNUSED
    case ForkSetParent => Runs(s, i) && p.pc.ForkParent? && p.pc.np < n && p.pc.np != i && s.waitLock == None
    case ForkMakeRunnable => Runs(s, i) && p.pc.ForkRun? && CanVisit(s, i, p.pc.np)
    case _ => false
  }

  predicate CanExit(s: State, i: nat, step: Step)
    requires i < |s.procs|
  {
    var p, n := s.procs[i], |s.procs|;
    match step
    case CallExit(_) => Runs(s, i) && p.pc == User && i != INIT && s.waitLock == None
    case ReparentSkip => Runs(s, i) && p.pc.ExitReparent? && p.pc.k < n && s.procs[p.pc.k].parent != Some(i)
    case ReparentOne =>
      Runs(s, i) && p.pc.ExitReparent? && p.pc.k < n && p.pc.k != i && s.procs[p.pc.k].parent == Some(i)
    case ReparentDone => Runs(s, i) && p.pc.ExitReparent? && p.pc.k == n && p.parent.Some?
    case WakeSkip => Runs(s, i) && p.pc.Waking? && p.pc.k == i
    case WakeOne => Runs(s, i) && p.pc.Waking? && CanVisit(s, i, p.pc.k)
    case WakeDone => Runs(s, i) && p.pc.Waking? && p.pc.k == n
    case SetZombie => Runs(s, i) && p.pc == ExitSpin
    case ExitSwitch => p.state == ZOMBIE && p.lock == Some(Own)
    case _ => false
  }

  predicate CanWait(s: State, i: nat, step: Step)
    requires i < |s.procs|
  {
    var p, n := s.procs[i], |s.procs|;
    match step
    case CallWait => Runs(s, i) && (p.pc == User || p.pc == Reacquire) && s.waitLock == None
    case WaitNext => Runs(s, i) && p.pc.WaitScan? && p.pc.k < n && s.procs[p.pc.k].parent != Some(i)
    case WaitAlive =>
      Runs(s, i) && p.pc.WaitScan? && CanVisit(s, i, p.pc.k) && s.procs[p.pc.k].parent == Some(i) &&
      s.procs[p.pc.k].state != ZOMBIE
    case Reap =>
      Runs(s, i) && p.pc.WaitScan? && CanVisit(s, i, p.pc.k) && s.procs[p.pc.k].parent == Some(i) &&
      s.procs[p.pc.k].state == ZOMBIE
    case ReapFails =>
      Runs(s, i) && p.pc.WaitScan? && CanVisit(s, i, p.pc.k) && s.procs[p.pc.k].parent == Some(i) &&
      s.procs[p.pc.k].state == ZOMBIE
    case WaitGiveUp => Runs(s, i) && p.pc.WaitScan? && p.pc.k == n && (!p.pc.havekids || p.killed)
    case WaitResolve => Runs(s, i) && p.pc.WaitScan? && p.pc.k == n && p.pc.havekids && !p.killed
    case WaitSleep => Runs(s, i) && p.pc.WaitResolved?
    case SwitchOut => p.state == RUNNING && p.lock == Some(Own) && (p.pc == Going || p.pc == Leaving)
    case Woken => p.state == RUNNING && p.lock == Some(Own) && (p.pc == Asleep || p.pc == Away)
    case _ => false
  }

  predicate CanOther(s: State, i: nat, step: Step)
    requires i < |s.procs|
  {
    var p, n := s.procs[i], |s.procs|;
    match step
    case SleepElsewhere => Runs(s, i) && p.pc == User
    case WokenElsewhere => p.state == SLEEPING && p.lock == None && p.pc == Away
    case Kill(v) => Runs(s, i) && p.pc == User && v < n && s.procs[v].lock == None
    case Yield => Runs(s, i) && Interruptible(p.pc)
    case YieldReturn => p.state == RUNNING && p.lock == Some(Own) && Interruptible(p.pc)
    case Pick(c) => p.lock == None && p.state == RUNNABLE && c < |s.cpus| && s.cpus[c] == None
    case Release => p.lock == Some(Scheduler) && p.cpu.Some? && p.cpu.value < |s.cpus|
    case _ => false
  }

  predicate Enabled(s: State, i: nat, step: Step) {
    i < |s.procs| &&
    if OfFork(step) then CanFork(s, i, step)
    else if OfExit(step) then CanExit(s, i, step)
    else if OfWait(step) then CanWait(s, i, step)
    else CanOther(s, i, step)
  }

  /** Process i moves to pc, then process k becomes q. */
  function Both(s: State, i: nat, pc: Pc, k: nat, q: Proc): State
    requires i < |s.procs| && k < |s.procs|
  {
    s.(procs := s.procs[i := s.procs[i].(pc := pc)][k := q])
  }

  function Move(s: State, i: nat, pc: Pc): State
    requires i < |s.procs|
  {
    s.(procs := s.procs[i := s.procs[i].(pc := pc)])
  }

  function Put(s: State, i: nat, p: Proc): State
    requires i < |s.procs|
  {
    s.(procs := s.procs[i := p])
  }

  function Wake(p: Proc): Proc {
    if p.state == SLEEPING then p.(state := RUNNABLE) else p
  }

  /** wakeup on the address of p: wait is the sleep on the sleeper's own address. */
  function WakeInWait(p: Proc): Proc {
    if p.pc == Asleep then Wake(p) else p
  }

  function NextFork(s: State, i: nat, step: Step): State
    requires i < |s.procs| && CanFork(s, i, step)
  {
    var p := s.procs[i];
    match step
    case AllocProc(np) => Both(s, i, ForkParent(np), np, s.procs[np].(state := USED, maker := Some(i), pc := User))
    case ForkFails(np) => Put(s, np, s.procs[np].(parent := None, killed := false, xstate := 0))
    case ForkSetParent => Both(s, i, ForkRun(p.pc.np), p.pc.np, s.procs[p.pc.np].(parent := Some(i)))
    case ForkMakeRunnable => Both(s, i, User, p.pc.np, s.procs[p.pc.np].(state := RUNNABLE, maker := None))
  }

  function NextExit(s: State, i: nat, step: Step): State
    requires i < |s.procs| && CanExit(s, i, step)
  {
    var p := s.procs[i];
    match step
    case CallExit(status) => Put(s, i, p.(pc := ExitReparent(0), status := status)).(waitLock := Some(i))
    case ReparentSkip => Move(s, i, ExitReparent(p.pc.k + 1))
    case ReparentOne => Both(s, i, Waking(Reparent(p.pc.k), INIT, 0), p.pc.k, s.procs[p.pc.k].(parent := Some(INIT)))
    case ReparentDone => Move(s, i, Waking(BecomeZombie, p.parent.value, 0))
    case WakeSkip => Move(s, i, Waking(p.pc.after, p.pc.chan, i + 1))
    case WakeOne =>
      Both(s, i, Waking(p.pc.after, p.pc.chan, p.pc.k + 1), p.pc.k, if p.pc.k == p.pc.chan
        then WakeInWait(s.procs[p.pc.k]) else s.procs[p.pc.k])
    case WakeDone => Move(s, i, if p.pc.after.Reparent? then ExitReparent(p.pc.after.k + 1) else ExitSpin)
    case SetZombie =>
      Put(s, i, p.(pc := ExitGone, state := ZOMBIE, lock := Some(Own), xstate := p.status)).(waitLock := None)
    case ExitSwitch => Put(s, i, p.(pc := Dead, lock := Some(Scheduler)))
  }

  function NextWait(s: State, i: nat, step: Step): State
    requires i < |s.procs| && CanWait(s, i, step)
  {
    var p := s.procs[i];
    match step
    case CallWait => Move(s, i, WaitScan(0, false)).(waitLock := Some(i))
    case WaitNext => Move(s, i, WaitScan(p.pc.k + 1, p.pc.havekids))
    case WaitAlive => Move(s, i, WaitScan(p.pc.k + 1, true))
    case Reap =>
      Both(s, i, User, p.pc.k, s.procs[p.pc.k].(state := UNUSED, parent := None, killed := false, xstate := 0))
        .(waitLock := None)
    case ReapFails => Move(s, i, User).(waitLock := None)
    case WaitGiveUp => Move(s, i, User).(waitLock := None)
    case WaitResolve => Move(s, i, WaitResolved)
    case WaitSleep => Put(s, i, p.(pc := Going, lock := Some(Own))).(waitLock := None)
    case SwitchOut =>
      Put(s, i, p.(state := SLEEPING, lock := Some(Scheduler), pc := if p.pc == Going then Asleep else Away))
    case Woken => Put(s, i, p.(lock := None, pc := if p.pc == Asleep then Reacquire else User))
  }

  function NextOther(s: State, i: nat, step: Step): State
    requires i < |s.procs| && CanOther(s, i, step)
  {
    var p := s.procs[i];
    match step
    case SleepElsewhere => Put(s, i, p.(pc := Leaving, lock := Some(Own)))
    case WokenElsewhere => Put(s, i, p.(state := RUNNABLE))
    case Kill(v) => Put(s, v, Wake(s.procs[v]).(killed := true))
    case Yield => Put(s, i, p.(state := RUNNABLE, lock := Some(Scheduler)))
    case YieldReturn => Put(s, i, p.(lock := None))
    case Pick(c) => Put(s, i, p.(state := RUNNING, lock := Some(Own), cpu := Some(c))).(cpus := s.cpus[c := Some(i)])
    case Release => Put(s, i, p.(lock := None, cpu := None)).(cpus := s.cpus[p.cpu.value := None])
  }

  function Next(s: State, i: nat, step: Step): State
    requires Enabled(s, i, step)
  {
    if OfFork(step) then NextFork(s, i, step)
    else if OfExit(step) then NextExit(s, i, step)
    else if OfWait(step) then NextWait(s, i, step)
    else NextOther(s, i, step)
  }

  /** At boot only initproc exists. */
  ghost predicate Initial(s: State) {
    && INIT < |s.procs| && s.waitLock == None
    && (forall i | 0 <= i < |s.procs| ::
          s.procs[i] == Proc(if i == INIT then RUNNABLE else UNUSED, None, false, User, None, None, None, 0, 0))
    && (forall c | 0 <= c < |s.cpus| :: s.cpus[c] == None)
  }

  // The invariant, one process at a time and then two at a time.

  predicate Live(p: Proc) {
    p.state == RUNNABLE || p.state == RUNNING || p.state == SLEEPING
  }

  /** In wait, and on its way into SLEEPING or there. */
  predicate Pending(p: Proc) {
    p.pc == Going || (p.state == SLEEPING && p.pc == Asleep)
  }

  predicate ZombieOf(p: Proc, parent: nat) {
    p.state == ZOMBIE && p.parent == Some(parent)
  }

  predicate Exiting(pc: Pc) {
    pc.ExitReparent? || pc.Waking? || pc.ExitSpin? || pc.ExitGone? || pc.Dead?
  }

  /** The places a process may be in, in each of its states, and who may hold its lock there. */
  predicate Local(p: Proc) {
    && (p.state == USED <==> p.maker.Some?) && (p.state == ZOMBIE ==> p.xstate == p.status)
    && match p.state
       case UNUSED => (p.pc == User || p.pc == Dead) && p.parent == None && p.lock == None
       case USED => p.pc == User && p.lock == None
       case RUNNABLE => (p.pc == Asleep || p.pc == Away || Interruptible(p.pc)) && p.lock != Some(Own)
       case SLEEPING => (p.pc == Asleep || p.pc == Away) && p.lock != Some(Own)
       case ZOMBIE => if p.lock == Some(Own) then p.pc == ExitGone else p.pc == Dead
       case RUNNING =>
         if p.lock == Some(Own) then Sleeps(p.pc) || Interruptible(p.pc)
         else p.lock == None && !Sleeps(p.pc) && p.pc != ExitGone && p.pc != Dead
  }

  /** A process occupies a CPU while it runs, and until the scheduler has released its lock. */
  predicate CpuOk(s: State, i: nat)
    requires i < |s.procs|
  {
    var p := s.procs[i];
    && (p.cpu.Some? <==> p.state == RUNNING || p.lock.Some?)
    && (p.cpu.Some? ==> p.cpu.value < |s.cpus| && s.cpus[p.cpu.value] == Some(i))
  }

  /** exit wakes init for a child it gave away, and its own parent before it becomes a zombie. */
  predicate WakeOk(p: Proc, n: nat)
    requires p.pc.Waking?
  {
    && p.pc.k <= n
    && match p.pc.after
       case Reparent(k) => p.pc.chan == INIT && k < n
       case BecomeZombie => p.parent == Some(p.pc.chan)
  }

  predicate RangeOk(s: State, i: nat)
    requires i < |s.procs|
  {
    var p, n := s.procs[i], |s.procs|;
    && (HasWaitLock(p.pc) <==> s.waitLock == Some(i))
    && (p.parent.Some? ==> p.parent.value < n && p.parent.value != i)
    && (p.pc.ForkParent? || p.pc.ForkRun? ==> p.pc.np < n && p.pc.np != i)
    && (p.pc.ExitReparent? || p.pc.WaitScan? ==> p.pc.k <= n)
    && (p.pc.Waking? ==> WakeOk(p, n))
    && (if i == INIT then Live(p) && p.parent == None && !Exiting(p.pc) else Live(p) || p.state == ZOMBIE ==>
      p.parent.Some?)
  }

  predicate ProcOk(s: State, i: nat)
    requires i < |s.procs|
  {
    Local(s.procs[i]) && CpuOk(s, i) && RangeOk(s, i)
  }

  /** Children below this index no longer have the exiting process as parent. */
  function Reparented(pc: Pc, n: nat): nat {
    match pc
    case ExitReparent(k) => k
    case Waking(after, _, _) => if after.Reparent? then after.k + 1 else n
    case ExitSpin => n
    case _ => 0
  }

  /** A process that is being created has one maker, and that maker as parent once it has one. */
  predicate MakerOk(s: State, i: nat, k: nat)
    requires i < |s.procs| && k < |s.procs|
  {
    var p, q := s.procs[i], s.procs[k];
    && (q.maker == Some(i) <==> p.pc == ForkParent(k) || p.pc == ForkRun(k))
    && (p.pc == ForkParent(k) ==> q.parent == None)
    && (p.pc == ForkRun(k) ==> q.parent == Some(i))
  }

  /** A parent is alive, and stays so until its last child has been given to init. */
  predicate ParentOk(s: State, i: nat, k: nat)
    requires i < |s.procs| && k < |s.procs|
  {
    var p, q := s.procs[i], s.procs[k];
    && (q.parent == Some(i) ==> Live(p))
    && (k < Reparented(p.pc, |s.procs|) ==> q.parent != Some(i))
  }

  /** The zombie that an exiting process has just given to init, before its wakeup reached init. */
  predicate Excused(s: State, i: nat, k: nat) {
    && i == INIT && s.waitLock.Some? && s.waitLock.value < |s.procs|
    && s.procs[s.waitLock.value].pc == Waking(Reparent(k), INIT, INIT)
  }

  /** Process p, about to become a zombie or having given a child away, has already woken process k. */
  predicate HasWoken(p: Proc, k: nat) {
    (p.pc.Waking? && p.pc.chan == k && p.pc.k > k) || (p.pc == ExitSpin && p.parent == Some(k))
  }

  /** No process sleeps, or is about to, while it has a zombie child. */
  predicate SleeperOk(s: State, i: nat, k: nat)
    requires i < |s.procs| && k < |s.procs|
  {
    Pending(s.procs[i]) && ZombieOf(s.procs[k], i) ==> Excused(s, i, k)
  }

  /** How much of the process table wait has scanned. */
  function Scanned(pc: Pc, n: nat): nat {
    match pc
    case WaitScan(k, _) => k
    case WaitResolved => n
    case _ => 0
  }

  predicate FoundKids(pc: Pc) {
    pc.WaitResolved? || (pc.WaitScan? && pc.havekids)
  }

  /** wait has found no zombie child in the part it has scanned, and any other child there it has seen. */
  predicate ScanOk(s: State, i: nat, k: nat)
    requires i < |s.procs| && k < |s.procs|
  {
    var p := s.procs[i];
    k < Scanned(p.pc, |s.procs|) && s.procs[k].parent == Some(i) ==> s.procs[k].state != ZOMBIE && FoundKids(p.pc)
  }

  /** wait has seen a child only if there is one in the part it has scanned. */
  ghost predicate KidsOk(s: State, i: nat)
    requires i < |s.procs|
  {
    FoundKids(s.procs[i].pc) ==>
      exists k: nat :: k < |s.procs| && k < Scanned(s.procs[i].pc, |s.procs|) && s.procs[k].parent == Some(i)
  }

  /** exit's wakeup has passed process k, or is over. */
  predicate WokenOk(s: State, i: nat, k: nat)
    requires i < |s.procs| && k < |s.procs|
  {
    HasWoken(s.procs[i], k) ==> !Pending(s.procs[k])
  }

  predicate PairOk(s: State, i: nat, k: nat)
    requires i < |s.procs| && k < |s.procs|
  {
    MakerOk(s, i, k) && ParentOk(s, i, k) && SleeperOk(s, i, k) && ScanOk(s, i, k) && WokenOk(s, i, k)
  }

  ghost predicate CpusOk(s: State) {
    forall c | 0 <= c < |s.cpus| && s.cpus[c].Some? ::
      s.cpus[c].value < |s.procs| && s.procs[s.cpus[c].value].cpu == Some(c)
  }

  ghost predicate Inv(s: State) {
    && INIT < |s.procs|
    && (s.waitLock.Some? ==> s.waitLock.value < |s.procs|)
    && CpusOk(s)
    && (forall i: nat | i < |s.procs| :: ProcOk(s, i) && KidsOk(s, i))
    && (forall i: nat, k: nat | i < |s.procs| && k < |s.procs| :: PairOk(s, i, k))
  }

  lemma InitialInv(s: State)
    requires Initial(s)
    ensures Inv(s)
  {
  }

  lemma Fetch(s: State, i: nat, k: nat)
    requires Inv(s) && i < |s.procs| && k < |s.procs|
    ensures ProcOk(s, i) && ProcOk(s, k) && PairOk(s, i, k) && PairOk(s, k, i)
  {
    hide ProcOk, PairOk, KidsOk;
  }

  lemma FetchKids(s: State, i: nat)
    requires Inv(s) && i < |s.procs|
    ensures KidsOk(s, i)
  {
    hide ProcOk, PairOk, KidsOk;
  }

  lemma FetchGlobal(s: State)
    requires Inv(s)
    ensures CpusOk(s) && (s.waitLock.Some? ==> s.waitLock.value < |s.procs|)
  {
  }

  /** The step changes process i only. */
  predicate Alone(step: Step) {
    !OfFork(step) && !(step.ReparentOne? || step.WakeOne? || step.Reap? || step.Kill?)
  }

  lemma LocalAlone(s: State, i: nat, step: Step, j: nat)
    requires Inv(s) && Enabled(s, i, step) && j < |s.procs| && Alone(step)
    ensures |Next(s, i, step).procs| == |s.procs| && Local(Next(s, i, step).procs[j])
  {
    hide Inv, CpuOk, ParentOk, RangeOk, ScanOk, SleeperOk, WokenOk, MakerOk, CanFork, NextFork;
    Fetch(s, i, j);
  }

  lemma LocalOthers(s: State, i: nat, step: Step, j: nat)
    requires Inv(s) && Enabled(s, i, step) && j < |s.procs| && !Alone(step)
    ensures |Next(s, i, step).procs| == |s.procs| && Local(Next(s, i, step).procs[j])
  {
    hide Inv, CpuOk, ParentOk, RangeOk, ScanOk, SleeperOk, WokenOk;
    Fetch(s, i, j);
  }

  lemma CpuAlone(s: State, i: nat, step: Step, j: nat)
    requires Inv(s) && Enabled(s, i, step) && j < |s.procs| && Alone(step)
    ensures |Next(s, i, step).procs| == |s.procs| && CpuOk(Next(s, i, step), j)
  {
    hide Inv, ParentOk, RangeOk, ScanOk, SleeperOk, WokenOk, MakerOk, CanFork, NextFork;
    Fetch(s, i, j);
  }

  lemma CpuOthers(s: State, i: nat, step: Step, j: nat)
    requires Inv(s) && Enabled(s, i, step) && j < |s.procs| && !Alone(step)
    ensures |Next(s, i, step).procs| == |s.procs| && CpuOk(Next(s, i, step), j)
  {
    hide Inv, ParentOk, RangeOk, ScanOk, SleeperOk, WokenOk;
    Fetch(s, i, j);
  }

  lemma RangeExit(s: State, i: nat, step: Step, j: nat)
    requires Inv(s) && Enabled(s, i, step) && j < |s.procs| && InExit(step)
    ensures |Next(s, i, step).procs| == |s.procs| && RangeOk(Next(s, i, step), j)
  {
    hide Inv, CpuOk, MakerOk, ParentOk, ScanOk, SleeperOk, WokenOk, CanFork, NextFork, CanWait, NextWait, CanOther,
        NextOther;
    Fetch(s, i, j);
  }

  lemma RangeInWait(s: State, i: nat, step: Step, j: nat)
    requires Inv(s) && Enabled(s, i, step) && j < |s.procs| && InWait(step)
    ensures |Next(s, i, step).procs| == |s.procs| && RangeOk(Next(s, i, step), j)
  {
    hide Inv, CpuOk, MakerOk, ParentOk, ScanOk, SleeperOk, WokenOk, CanFork, NextFork, CanExit, NextExit, CanOther,
        NextOther;
    Fetch(s, i, j);
  }

  lemma RangeElse(s: State, i: nat, step: Step, j: nat)
    requires Inv(s) && Enabled(s, i, step) && j < |s.procs| && Alone(step) && !InExit(step) && !InWait(step)
    ensures |Next(s, i, step).procs| == |s.procs| && RangeOk(Next(s, i, step), j)
  {
    hide Inv, CpuOk, MakerOk, ParentOk, ScanOk, SleeperOk, WokenOk, CanFork, NextFork, CanWait, NextWait;
    Fetch(s, i, j);
  }

  lemma RangeFork(s: State, i: nat, step: Step, j: nat)
    requires Inv(s) && Enabled(s, i, step) && j < |s.procs| && OfFork(step)
    ensures |Next(s, i, step).procs| == |s.procs| && RangeOk(Next(s, i, step), j)
  {
    hide Inv, CpuOk, ParentOk, ScanOk, SleeperOk, WokenOk, CanExit, NextExit, CanWait, NextWait, CanOther, NextOther;
    Fetch(s, i, j);
  }

  lemma RangeVisit(s: State, i: nat, step: Step, j: nat)
    requires Inv(s) && Enabled(s, i, step) && j < |s.procs| && !Alone(step) && !OfFork(step)
    ensures |Next(s, i, step).procs| == |s.procs| && RangeOk(Next(s, i, step), j)
  {
    hide Inv, CpuOk, MakerOk, ParentOk, ScanOk, SleeperOk, WokenOk, CanFork, NextFork;
    Fetch(s, i, j);
  }

  /** The steps of exit that change the exiting process only. */
  predicate InExit(step: Step) {
    OfExit(step) && !step.ReparentOne? && !step.WakeOne? && !step.ExitSwitch?
  }

  /** The steps of wait and of sleep in it that change the waiting process only. */
  predicate InWait(step: Step) {
    OfWait(step) && !step.Reap?
  }

  /** The step takes process i from p to q, and what that leaves alone. */
  ghost predicate Shape(s: State, i: nat, step: Step, s': State)
    requires i < |s.procs|
  {
    && |s'.procs| == |s.procs| && s'.procs == s.procs[i := s'.procs[i]]
    && var p, q := s.procs[i], s'.procs[i];
       && q.parent == p.parent && q.maker == p.maker
       && (p.pc.ForkParent? || p.pc.ForkRun? || q.pc.ForkParent? || q.pc.ForkRun? ==> q.pc == p.pc)
       && (!InExit(step) ==> (Live(p) ==> Live(q)) && Reparented(q.pc, |s.procs|) == 0)
  }

  lemma ShapeInExit(s: State, i: nat, step: Step)
    requires Inv(s) && Enabled(s, i, step) && InExit(step)
    ensures Shape(s, i, step, Next(s, i, step))
  {
    hide Inv, PairOk, RangeOk, CpuOk, CanFork, NextFork, CanWait, NextWait, CanOther, NextOther;
    Fetch(s, i, i);
  }

  lemma ShapeInWait(s: State, i: nat, step: Step)
    requires Inv(s) && Enabled(s, i, step) && InWait(step)
    ensures Shape(s, i, step, Next(s, i, step))
  {
    hide Inv, PairOk, RangeOk, CpuOk, CanFork, NextFork, CanExit, NextExit, CanOther, NextOther;
    Fetch(s, i, i);
  }

  lemma ShapeElse(s: State, i: nat, step: Step)
    requires Inv(s) && Enabled(s, i, step) && Alone(step) && !InExit(step) && !InWait(step)
    ensures Shape(s, i, step, Next(s, i, step))
  {
    hide Inv, PairOk, RangeOk, CpuOk, CanFork, NextFork, CanWait, NextWait;
    Fetch(s, i, i);
  }

  lemma AloneShape(s: State, i: nat, step: Step)
    requires Inv(s) && Enabled(s, i, step) && Alone(step)
    ensures i < |s.procs| && Shape(s, i, step, Next(s, i, step))
  {
    hide Inv, Next, Enabled, Shape;
    Runner(s, i, step);
    if InExit(step) {
      ShapeInExit(s, i, step);
    } else if InWait(step) {
      ShapeInWait(s, i, step);
    } else {
      ShapeElse(s, i, step);
    }
  }

  lemma MakerAlone(s: State, i: nat, step: Step, j: nat, k: nat)
    requires Inv(s) && Enabled(s, i, step) && j < |s.procs| && k < |s.procs| && Alone(step)
    ensures |Next(s, i, step).procs| == |s.procs| && MakerOk(Next(s, i, step), j, k)
  {
    hide Inv, CpuOk, ParentOk, RangeOk, ScanOk, SleeperOk, WokenOk, Next, Enabled, Local;
    AloneShape(s, i, step);
    Fetch(s, j, k);
  }

  lemma MakerFork(s: State, i: nat, step: Step, j: nat, k: nat)
    requires Inv(s) && Enabled(s, i, step) && j < |s.procs| && k < |s.procs| && OfFork(step)
    ensures |Next(s, i, step).procs| == |s.procs| && MakerOk(Next(s, i, step), j, k)
  {
    hide Inv, CpuOk, ParentOk, ScanOk, SleeperOk, WokenOk, CanExit, NextExit, CanWait, NextWait, CanOther, NextOther;
    Fetch(s, i, k);
    Fetch(s, j, k);
  }

  lemma MakerVisit(s: State, i: nat, step: Step, j: nat, k: nat)
    requires Inv(s) && Enabled(s, i, step) && j < |s.procs| && k < |s.procs| && !Alone(step) && !OfFork(step)
    ensures |Next(s, i, step).procs| == |s.procs| && MakerOk(Next(s, i, step), j, k)
  {
    hide Inv, CpuOk, ParentOk, RangeOk, ScanOk, SleeperOk, WokenOk, CanFork, NextFork;
    Fetch(s, i, k);
    Fetch(s, j, k);
  }

  lemma ParentAlone(s: State, i: nat, step: Step, j: nat, k: nat)
    requires Inv(s) && Enabled(s, i, step) && j < |s.procs| && k < |s.procs| && Alone(step)
    ensures |Next(s, i, step).procs| == |s.procs| && ParentOk(Next(s, i, step), j, k)
  {
    hide Inv, CpuOk, MakerOk, RangeOk, ScanOk, SleeperOk, WokenOk, Next, Enabled, Local;
    AloneShape(s, i, step);
    Fetch(s, j, k);
    if InExit(step) {
      ParentExit(s, i, step, j, k);
    }
  }

  lemma ParentExit(s: State, i: nat, step: Step, j: nat, k: nat)
    requires Inv(s) && Enabled(s, i, step) && j < |s.procs| && k < |s.procs| && InExit(step)
    ensures |Next(s, i, step).procs| == |s.procs| && ParentOk(Next(s, i, step), j, k)
  {
    hide Inv, CpuOk, MakerOk, ScanOk, SleeperOk, WokenOk, CanFork, NextFork, CanWait, NextWait, CanOther, NextOther;
    Fetch(s, i, k);
    Fetch(s, j, k);
  }

  lemma ParentFork(s: State, i: nat, step: Step, j: nat, k: nat)
    requires Inv(s) && Enabled(s, i, step) && j < |s.procs| && k < |s.procs| && OfFork(step)
    ensures |Next(s, i, step).procs| == |s.procs| && ParentOk(Next(s, i, step), j, k)
  {
    hide Inv, CpuOk, RangeOk, ScanOk, SleeperOk, WokenOk, CanExit, NextExit, CanWait, NextWait, CanOther, NextOther;
    Fetch(s, i, k);
    Fetch(s, j, k);
  }

  lemma ParentVisit(s: State, i: nat, step: Step, j: nat, k: nat)
    requires Inv(s) && Enabled(s, i, step) && j < |s.procs| && k < |s.procs| && !Alone(step) && !OfFork(step)
    ensures |Next(s, i, step).procs| == |s.procs| && ParentOk(Next(s, i, step), j, k)
  {
    hide Inv, CpuOk, MakerOk, ScanOk, SleeperOk, WokenOk, CanFork, NextFork;
    Fetch(s, i, k);
    Fetch(s, j, k);
  }

  lemma ScanInExit(s: State, i: nat, step: Step, j: nat, k: nat)
    requires Inv(s) && Enabled(s, i, step) && j < |s.procs| && k < |s.procs| && InExit(step)
    ensures |Next(s, i, step).procs| == |s.procs| && ScanOk(Next(s, i, step), j, k)
  {
    hide Inv, CpuOk, MakerOk, ParentOk, SleeperOk, WokenOk, CanFork, NextFork, CanWait, NextWait, CanOther, NextOther;
    Fetch(s, i, k);
    Fetch(s, j, k);
    Fetch(s, i, j);
  }

  /** What a step of wait does to the waiting process, and to nothing else but wait_lock. */
  lemma WaitEffect(s: State, i: nat, step: Step)
    requires Enabled(s, i, step) && InWait(step)
    ensures var s' := Next(s, i, step);
      |s'.procs| == |s.procs| && s'.procs == s.procs[i := s'.procs[i]]
    ensures var p, q := s.procs[i], Next(s, i, step).procs[i];
      && q.parent == p.parent && (q.state == ZOMBIE ==> p.state == ZOMBIE) && !p.pc.Waking? && !q.pc.Waking?
      && q.pc != ExitSpin && (Pending(q) ==> Pending(p) || p.pc.WaitResolved?)
    ensures Next(s, i, step).waitLock == s.waitLock || s.waitLock == None || HasWaitLock(s.procs[i].pc)
  {
    hide CanFork, NextFork, CanExit, NextExit, CanOther, NextOther;
  }

  lemma ScanEffect(s: State, i: nat, step: Step, k: nat)
    requires Enabled(s, i, step) && InWait(step) && k < |s.procs|
    ensures |Next(s, i, step).procs| == |s.procs|
    ensures var p, q, n := s.procs[i].pc, Next(s, i, step).procs[i].pc, |s.procs|;
      k < Scanned(q, n) && s.procs[k].parent == Some(i) ==>
        || (k < Scanned(p, n) && (FoundKids(p) ==> FoundKids(q)))
        || (s.procs[k].state != ZOMBIE && FoundKids(q))
  {
    hide CanFork, NextFork, CanExit, NextExit, CanOther, NextOther;
  }

  lemma ScanInWait(s: State, i: nat, step: Step, j: nat, k: nat)
    requires Inv(s) && Enabled(s, i, step) && j < |s.procs| && k < |s.procs| && InWait(step)
    ensures |Next(s, i, step).procs| == |s.procs| && ScanOk(Next(s, i, step), j, k)
  {
    hide Inv, CpuOk, MakerOk, ParentOk, SleeperOk, WokenOk, Next, Enabled, Local, Scanned, FoundKids;
    WaitEffect(s, i, step);
    ScanEffect(s, i, step, k);
    Fetch(s, j, k);
  }

  lemma ScanElse(s: State, i: nat, step: Step, j: nat, k: nat)
    requires Inv(s) && Enabled(s, i, step) && j < |s.procs| && k < |s.procs| && Alone(step) && !InExit(step)
    requires !InWait(step)
    ensures |Next(s, i, step).procs| == |s.procs| && ScanOk(Next(s, i, step), j, k)
  {
    hide Inv, CpuOk, MakerOk, ParentOk, SleeperOk, WokenOk, CanFork, NextFork, CanWait, NextWait;
    Fetch(s, i, k);
    Fetch(s, j, k);
    Fetch(s, i, j);
  }

  lemma ScanAlone(s: State, i: nat, step: Step, j: nat, k: nat)
    requires Inv(s) && Enabled(s, i, step) && j < |s.procs| && k < |s.procs| && Alone(step)
    ensures |Next(s, i, step).procs| == |s.procs| && ScanOk(Next(s, i, step), j, k)
  {
    hide Inv, Next, Enabled, ScanOk;
    if InExit(step) {
      ScanInExit(s, i, step, j, k);
    } else if InWait(step) {
      ScanInWait(s, i, step, j, k);
    } else {
      ScanElse(s, i, step, j, k);
    }
  }

  lemma ScanFork(s: State, i: nat, step: Step, j: nat, k: nat)
    requires Inv(s) && Enabled(s, i, step) && j < |s.procs| && k < |s.procs| && OfFork(step)
    ensures |Next(s, i, step).procs| == |s.procs| && ScanOk(Next(s, i, step), j, k)
  {
    hide Inv, CpuOk, ParentOk, RangeOk, SleeperOk, WokenOk, CanExit, NextExit, CanWait, NextWait, CanOther, NextOther;
    Fetch(s, i, k);
    Fetch(s, j, k);
  }

  lemma ScanVisit(s: State, i: nat, step: Step, j: nat, k: nat)
    requires Inv(s) && Enabled(s, i, step) && j < |s.procs| && k < |s.procs| && !Alone(step) && !OfFork(step)
    ensures |Next(s, i, step).procs| == |s.procs| && ScanOk(Next(s, i, step), j, k)
  {
    hide Inv, CpuOk, MakerOk, ParentOk, SleeperOk, WokenOk, CanFork, NextFork;
    Fetch(s, i, k);
    Fetch(s, j, k);
    Fetch(s, i, j);
  }

  lemma WokenInExit(s: State, i: nat, step: Step, j: nat, k: nat)
    requires Inv(s) && Enabled(s, i, step) && j < |s.procs| && k < |s.procs| && InExit(step)
    ensures |Next(s, i, step).procs| == |s.procs| && WokenOk(Next(s, i, step), j, k)
  {
    hide Inv, CpuOk, MakerOk, ParentOk, ScanOk, SleeperOk, CanFork, NextFork, CanWait, NextWait, CanOther, NextOther;
    Fetch(s, i, k);
    Fetch(s, j, k);
  }

  lemma WokenInWait(s: State, i: nat, step: Step, j: nat, k: nat)
    requires Inv(s) && Enabled(s, i, step) && j < |s.procs| && k < |s.procs| && InWait(step)
    ensures |Next(s, i, step).procs| == |s.procs| && WokenOk(Next(s, i, step), j, k)
  {
    hide Inv, CpuOk, MakerOk, ParentOk, ScanOk, SleeperOk, Next, Enabled, Local, Pending;
    Runner(s, i, step);
    WaitEffect(s, i, step);
    Fetch(s, j, k);
    Fetch(s, i, j);
  }

  lemma WokenElse(s: State, i: nat, step: Step, j: nat, k: nat)
    requires Inv(s) && Enabled(s, i, step) && j < |s.procs| && k < |s.procs| && Alone(step) && !InExit(step)
    requires !InWait(step)
    ensures |Next(s, i, step).procs| == |s.procs| && WokenOk(Next(s, i, step), j, k)
  {
    hide Inv, CpuOk, MakerOk, ParentOk, ScanOk, SleeperOk, CanFork, NextFork, CanWait, NextWait;
    Fetch(s, i, k);
    Fetch(s, j, k);
  }

  lemma WokenAlone(s: State, i: nat, step: Step, j: nat, k: nat)
    requires Inv(s) && Enabled(s, i, step) && j < |s.procs| && k < |s.procs| && Alone(step)
    ensures |Next(s, i, step).procs| == |s.procs| && WokenOk(Next(s, i, step), j, k)
  {
    hide Inv, Next, Enabled, WokenOk;
    if InExit(step) {
      WokenInExit(s, i, step, j, k);
    } else if InWait(step) {
      WokenInWait(s, i, step, j, k);
    } else {
      WokenElse(s, i, step, j, k);
    }
  }

  lemma WokenFork(s: State, i: nat, step: Step, j: nat, k: nat)
    requires Inv(s) && Enabled(s, i, step) && j < |s.procs| && k < |s.procs| && OfFork(step)
    ensures |Next(s, i, step).procs| == |s.procs| && WokenOk(Next(s, i, step), j, k)
  {
    hide Inv, CpuOk, ParentOk, RangeOk, ScanOk, SleeperOk, CanExit, NextExit, CanWait, NextWait, CanOther, NextOther;
    Fetch(s, i, k);
    Fetch(s, j, k);
  }

  lemma WokenVisit(s: State, i: nat, step: Step, j: nat, k: nat)
    requires Inv(s) && Enabled(s, i, step) && j < |s.procs| && k < |s.procs| && !Alone(step) && !OfFork(step)
    ensures |Next(s, i, step).procs| == |s.procs| && WokenOk(Next(s, i, step), j, k)
  {
    hide Inv, CpuOk, MakerOk, ParentOk, ScanOk, SleeperOk, CanFork, NextFork;
    Fetch(s, i, k);
    Fetch(s, j, k);
  }

  lemma SleeperExit(s: State, i: nat, step: Step, j: nat, k: nat)
    requires Inv(s) && Enabled(s, i, step) && j < |s.procs| && k < |s.procs| && InExit(step)
    ensures |Next(s, i, step).procs| == |s.procs| && SleeperOk(Next(s, i, step), j, k)
  {
    hide Inv, CpuOk, MakerOk, ParentOk, ScanOk, CanFork, NextFork, CanWait, NextWait, CanOther, NextOther;
    Fetch(s, i, k);
    Fetch(s, j, k);
    Fetch(s, i, j);
  }

  lemma SleeperInWait(s: State, i: nat, step: Step, j: nat, k: nat)
    requires Inv(s) && Enabled(s, i, step) && j < |s.procs| && k < |s.procs| && InWait(step)
    ensures |Next(s, i, step).procs| == |s.procs| && SleeperOk(Next(s, i, step), j, k)
  {
    hide Inv, CpuOk, MakerOk, ParentOk, WokenOk, Next, Enabled, Local, Pending;
    Runner(s, i, step);
    WaitEffect(s, i, step);
    Fetch(s, i, k);
    Fetch(s, j, k);
    if s.waitLock.Some? && s.waitLock.value < |s.procs| {
      Fetch(s, i, s.waitLock.value);
    }
  }

  lemma SleeperElse(s: State, i: nat, step: Step, j: nat, k: nat)
    requires Inv(s) && Enabled(s, i, step) && j < |s.procs| && k < |s.procs| && Alone(step) && !InExit(step)
    requires !InWait(step)
    ensures |Next(s, i, step).procs| == |s.procs| && SleeperOk(Next(s, i, step), j, k)
  {
    hide Inv, CpuOk, MakerOk, ParentOk, CanFork, NextFork, CanWait, NextWait;
    Fetch(s, i, k);
    Fetch(s, j, k);
    Fetch(s, i, j);
  }

  lemma SleeperAlone(s: State, i: nat, step: Step, j: nat, k: nat)
    requires Inv(s) && Enabled(s, i, step) && j < |s.procs| && k < |s.procs| && Alone(step) && !InExit(step)
    ensures |Next(s, i, step).procs| == |s.procs| && SleeperOk(Next(s, i, step), j, k)
  {
    hide Inv, Next, Enabled, SleeperOk;
    if InWait(step) {
      SleeperInWait(s, i, step, j, k);
    } else {
      SleeperElse(s, i, step, j, k);
    }
  }

  lemma SleeperFork(s: State, i: nat, step: Step, j: nat, k: nat)
    requires Inv(s) && Enabled(s, i, step) && j < |s.procs| && k < |s.procs| && OfFork(step)
    ensures |Next(s, i, step).procs| == |s.procs| && SleeperOk(Next(s, i, step), j, k)
  {
    hide Inv, CpuOk, ParentOk, ScanOk, WokenOk, CanExit, NextExit, CanWait, NextWait, CanOther, NextOther;
    Fetch(s, i, k);
    Fetch(s, j, k);
    if step.AllocProc? {
      Fetch(s, i, step.np);
    }
  }

  lemma SleeperMoved(s: State, i: nat, step: Step, j: nat, k: nat)
    requires Inv(s) && Enabled(s, i, step) && j < |s.procs| && k < |s.procs| && (step.ReparentOne? || step.WakeOne?)
    ensures |Next(s, i, step).procs| == |s.procs| && SleeperOk(Next(s, i, step), j, k)
  {
    hide Inv, CpuOk, MakerOk, ParentOk, ScanOk, WokenOk, CanFork, NextFork, CanWait, NextWait, CanOther, NextOther;
    Fetch(s, i, k);
    Fetch(s, j, k);
    Fetch(s, i, j);
  }

  lemma SleeperStruck(s: State, i: nat, step: Step, j: nat, k: nat)
    requires Inv(s) && Enabled(s, i, step) && j < |s.procs| && k < |s.procs| && (step.Reap? || step.Kill?)
    ensures |Next(s, i, step).procs| == |s.procs| && SleeperOk(Next(s, i, step), j, k)
  {
    hide Inv, CpuOk, MakerOk, ParentOk, ScanOk, WokenOk, CanFork, NextFork, CanExit, NextExit;
    Fetch(s, i, k);
    Fetch(s, j, k);
    Fetch(s, i, j);
  }

  lemma SleeperVisit(s: State, i: nat, step: Step, j: nat, k: nat)
    requires Inv(s) && Enabled(s, i, step) && j < |s.procs| && k < |s.procs| && !Alone(step) && !OfFork(step)
    ensures |Next(s, i, step).procs| == |s.procs| && SleeperOk(Next(s, i, step), j, k)
  {
    hide Inv, Next, Enabled, SleeperOk;
    if step.ReparentOne? || step.WakeOne? {
      SleeperMoved(s, i, step, j, k);
    } else {
      SleeperStruck(s, i, step, j, k);
    }
  }

  lemma StepProc(s: State, i: nat, step: Step, j: nat)
    requires Inv(s) && Enabled(s, i, step) && j < |s.procs|
    ensures |Next(s, i, step).procs| == |s.procs| && ProcOk(Next(s, i, step), j)
  {
    hide Inv, Local, CpuOk, RangeOk, Next, Enabled;
    if Alone(step) {
      LocalAlone(s, i, step, j);
      CpuAlone(s, i, step, j);
    } else {
      LocalOthers(s, i, step, j);
      CpuOthers(s, i, step, j);
    }
    RangeStep(s, i, step, j);
  }

  lemma RangeStep(s: State, i: nat, step: Step, j: nat)
    requires Inv(s) && Enabled(s, i, step) && j < |s.procs|
    ensures |Next(s, i, step).procs| == |s.procs| && RangeOk(Next(s, i, step), j)
  {
    hide Inv, RangeOk, Next, Enabled;
    if OfFork(step) {
      RangeFork(s, i, step, j);
    } else if InExit(step) {
      RangeExit(s, i, step, j);
    } else if InWait(step) {
      RangeInWait(s, i, step, j);
    } else if Alone(step) {
      RangeElse(s, i, step, j);
    } else {
      RangeVisit(s, i, step, j);
    }
  }

  lemma StepPair(s: State, i: nat, step: Step, j: nat, k: nat)
    requires Inv(s) && Enabled(s, i, step) && j < |s.procs| && k < |s.procs|
    ensures |Next(s, i, step).procs| == |s.procs| && PairOk(Next(s, i, step), j, k)
  {
    hide Inv, MakerOk, ParentOk, SleeperOk, ScanOk, WokenOk, Next, Enabled;
    if Alone(step) {
      MakerAlone(s, i, step, j, k);
      ParentAlone(s, i, step, j, k);
      ScanAlone(s, i, step, j, k);
      WokenAlone(s, i, step, j, k);
      if InExit(step) {
        SleeperExit(s, i, step, j, k);
      } else {
        SleeperAlone(s, i, step, j, k);
      }
    } else if OfFork(step) {
      MakerFork(s, i, step, j, k);
      ParentFork(s, i, step, j, k);
      ScanFork(s, i, step, j, k);
      WokenFork(s, i, step, j, k);
      SleeperFork(s, i, step, j, k);
    } else {
      MakerVisit(s, i, step, j, k);
      ParentVisit(s, i, step, j, k);
      ScanVisit(s, i, step, j, k);
      WokenVisit(s, i, step, j, k);
      SleeperVisit(s, i, step, j, k);
    }
  }

  /** Parent links change in these steps only. */
  lemma ParentAloneSame(s: State, i: nat, step: Step, k: nat)
    requires Enabled(s, i, step) && k < |s.procs| && Alone(step)
    ensures |Next(s, i, step).procs| == |s.procs| && Next(s, i, step).procs[k].parent == s.procs[k].parent
  {
    hide CanFork, NextFork;
  }

  lemma ParentForkSame(s: State, i: nat, step: Step, k: nat)
    requires Enabled(s, i, step) && k < |s.procs| && OfFork(step) && s.waitLock.Some? && Local(s.procs[k])
    ensures |Next(s, i, step).procs| == |s.procs| && Next(s, i, step).procs[k].parent == s.procs[k].parent
  {
    hide CanExit, NextExit, CanWait, NextWait, CanOther, NextOther;
  }

  lemma ParentVisitSame(s: State, i: nat, step: Step, k: nat)
    requires Enabled(s, i, step) && k < |s.procs| && !Alone(step) && !OfFork(step) && !step.Reap?
    requires s.waitLock != Some(i) && RangeOk(s, i)
    ensures |Next(s, i, step).procs| == |s.procs| && Next(s, i, step).procs[k].parent == s.procs[k].parent
  {
    hide CanFork, NextFork, CanWait, NextWait;
  }

  /** While a process is in wait, only it changes who has which parent, and only by reaping. */
  lemma ParentsStay(s: State, i: nat, step: Step, j: nat, k: nat)
    requires Inv(s) && Enabled(s, i, step) && j < |s.procs| && k < |s.procs| && Scanned(s.procs[j].pc, |s.procs|) > 0
    requires !(i == j && step.Reap?)
    ensures |Next(s, i, step).procs| == |s.procs| && Next(s, i, step).procs[k].parent == s.procs[k].parent
  {
    hide Inv, CpuOk, PairOk, Local, Next, NextFork, NextExit, NextWait, NextOther, CanFork;
    Runner(s, i, step);
    Fetch(s, i, j);
    Fetch(s, i, k);
    if Alone(step) {
      ParentAloneSame(s, i, step, k);
    } else if OfFork(step) {
      ParentForkSame(s, i, step, k);
    } else if i != j {
      NotReap(s, i, step);
      ParentVisitSame(s, i, step, k);
    } else {
      ScansOnly(s, i, step);
    }
  }

  lemma Runner(s: State, i: nat, step: Step)
    requires Enabled(s, i, step)
    ensures i < |s.procs|
  {
    hide CanFork, CanExit, CanWait, CanOther;
  }

  lemma NotReap(s: State, i: nat, step: Step)
    requires Enabled(s, i, step) && RangeOk(s, i) && s.waitLock != Some(i)
    ensures !step.Reap? && !step.ReparentOne? && !step.WakeOne?
  {
    hide CanFork, CanOther;
  }

  /** A process in the middle of wait's scan takes no step of exit. */
  lemma ScansOnly(s: State, i: nat, step: Step)
    requires Enabled(s, i, step) && Scanned(s.procs[i].pc, |s.procs|) > 0
    ensures !step.ReparentOne? && !step.WakeOne? && !step.Kill?
  {
    hide CanFork, CanWait;
  }

  lemma PcAlone(s: State, i: nat, step: Step, j: nat)
    requires Enabled(s, i, step) && Alone(step) && j < |s.procs| && j != i
    ensures |Next(s, i, step).procs| == |s.procs| && Next(s, i, step).procs[j] == s.procs[j]
  {
    hide CanFork, NextFork;
  }

  lemma PcOthers(s: State, i: nat, step: Step, j: nat)
    requires Enabled(s, i, step) && !Alone(step) && j < |s.procs| && j != i
    ensures |Next(s, i, step).procs| == |s.procs|
    ensures Next(s, i, step).procs[j].pc == s.procs[j].pc || Next(s, i, step).procs[j].pc == User
  {
  }

  lemma WaiterStays(s: State, i: nat, step: Step, j: nat)
    requires Enabled(s, i, step) && j < |s.procs| && j != i
    ensures |Next(s, i, step).procs| == |s.procs|
    ensures Next(s, i, step).procs[j].pc == s.procs[j].pc || Next(s, i, step).procs[j].pc == User
  {
    hide Enabled, Next;
    if Alone(step) {
      PcAlone(s, i, step, j);
    } else {
      PcOthers(s, i, step, j);
    }
  }

  /** A step that finds children, or keeps them found. */
  ghost predicate Finds(s: State, i: nat, step: Step)
    requires Enabled(s, i, step)
  {
    && |Next(s, i, step).procs| == |s.procs|
    && var p, q, n := s.procs[i].pc, Next(s, i, step).procs[i].pc, |s.procs|;
       FoundKids(q) && !step.WaitAlive? ==> !step.Reap? && FoundKids(p) && Scanned(p, n) <= Scanned(q, n)
  }

  lemma FindsInWait(s: State, i: nat, step: Step)
    requires Enabled(s, i, step) && InWait(step)
    ensures Finds(s, i, step)
  {
    hide CanFork, NextFork, CanExit, NextExit, CanOther, NextOther;
  }

  lemma FindsElse(s: State, i: nat, step: Step)
    requires Enabled(s, i, step) && Alone(step) && !InWait(step)
    ensures Finds(s, i, step)
  {
    hide CanFork, NextFork, CanWait, NextWait;
  }

  lemma FindsOthers(s: State, i: nat, step: Step)
    requires Enabled(s, i, step) && !Alone(step)
    ensures Finds(s, i, step)
  {
  }

  lemma ScanMoves(s: State, i: nat, step: Step)
    requires Enabled(s, i, step)
    ensures Finds(s, i, step)
  {
    hide Enabled, Next, Finds;
    if InWait(step) {
      FindsInWait(s, i, step);
    } else if Alone(step) {
      FindsElse(s, i, step);
    } else {
      FindsOthers(s, i, step);
    }
  }

  lemma StepKids(s: State, i: nat, step: Step, j: nat)
    requires Inv(s) && Enabled(s, i, step) && j < |s.procs|
    ensures |Next(s, i, step).procs| == |s.procs| && KidsOk(Next(s, i, step), j)
  {
    hide Inv, ProcOk, PairOk, Next, Enabled;
    ScanMoves(s, i, step);
    var s' := Next(s, i, step);
    FetchKids(s, j);
    if FoundKids(s'.procs[j].pc) {
      if j == i && step.WaitAlive? {
        AliveKid(s, i);
      } else {
        if j != i {
          WaiterStays(s, i, step, j);
        }
        var k: nat :| k < |s.procs| && k < Scanned(s.procs[j].pc, |s.procs|) && s.procs[k].parent == Some(j);
        ParentsStay(s, i, step, j, k);
      }
    }
  }

  lemma AliveKid(s: State, i: nat)
    requires Enabled(s, i, WaitAlive)
    ensures |Next(s, i, WaitAlive).procs| == |s.procs| && KidsOk(Next(s, i, WaitAlive), i)
  {
    var k := s.procs[i].pc.k;
    assert Next(s, i, WaitAlive).procs[k].parent == Some(i);
  }

  lemma CpusFork(s: State, i: nat, step: Step)
    requires Enabled(s, i, step) && OfFork(step)
    ensures var s' := Next(s, i, step);
      |s'.procs| == |s.procs| && s'.cpus == s.cpus && forall j | 0 <= j < |s.procs| :: s'.procs[j].cpu == s.procs[j].cpu
  {
    hide CanExit, NextExit, CanWait, NextWait, CanOther, NextOther;
  }

  lemma CpusExit(s: State, i: nat, step: Step)
    requires Enabled(s, i, step) && OfExit(step)
    ensures var s' := Next(s, i, step);
      |s'.procs| == |s.procs| && s'.cpus == s.cpus && forall j | 0 <= j < |s.procs| :: s'.procs[j].cpu == s.procs[j].cpu
  {
    hide CanFork, NextFork, CanWait, NextWait, CanOther, NextOther;
  }

  lemma CpusWait(s: State, i: nat, step: Step)
    requires Enabled(s, i, step) && OfWait(step)
    ensures var s' := Next(s, i, step);
      |s'.procs| == |s.procs| && s'.cpus == s.cpus && forall j | 0 <= j < |s.procs| :: s'.procs[j].cpu == s.procs[j].cpu
  {
    hide CanFork, NextFork, CanExit, NextExit, CanOther, NextOther;
  }

  lemma CpusOther(s: State, i: nat, step: Step)
    requires Enabled(s, i, step) && !OfFork(step) && !OfExit(step) && !OfWait(step) && !step.Pick? && !step.Release?
    ensures var s' := Next(s, i, step);
      |s'.procs| == |s.procs| && s'.cpus == s.cpus && forall j | 0 <= j < |s.procs| :: s'.procs[j].cpu == s.procs[j].cpu
  {
    hide CanFork, NextFork, CanExit, NextExit, CanWait, NextWait;
  }

  /** Only the scheduler changes what runs where. */
  lemma SameCpus(s: State, i: nat, step: Step)
    requires Enabled(s, i, step) && !step.Pick? && !step.Release?
    ensures var s' := Next(s, i, step);
      |s'.procs| == |s.procs| && s'.cpus == s.cpus && forall j | 0 <= j < |s.procs| :: s'.procs[j].cpu == s.procs[j].cpu
  {
    hide Enabled, Next;
    if OfFork(step) {
      CpusFork(s, i, step);
    } else if OfExit(step) {
      CpusExit(s, i, step);
    } else if OfWait(step) {
      CpusWait(s, i, step);
    } else {
      CpusOther(s, i, step);
    }
  }

  lemma SchedulerCpus(s: State, i: nat, step: Step)
    requires Inv(s) && Enabled(s, i, step) && (step.Pick? || step.Release?)
    ensures |Next(s, i, step).procs| == |s.procs| && CpusOk(Next(s, i, step))
  {
    hide Inv, PairOk, RangeOk;
    Fetch(s, i, i);
    FetchGlobal(s);
  }

  lemma LockHolder(s: State, i: nat, step: Step)
    requires Enabled(s, i, step)
    ensures var s' := Next(s, i, step); s'.waitLock == s.waitLock || s'.waitLock == None || s'.waitLock == Some(i)
  {
  }

  lemma StepWaitLock(s: State, i: nat, step: Step)
    requires Enabled(s, i, step) && (s.waitLock.Some? ==> s.waitLock.value < |s.procs|)
    ensures var s' := Next(s, i, step);
      |s'.procs| == |s.procs| && (s'.waitLock.Some? ==> s'.waitLock.value < |s'.procs|)
  {
    hide Enabled, Next;
    Runner(s, i, step);
    StepCount(s, i, step);
    LockHolder(s, i, step);
  }

  lemma StepGlobal(s: State, i: nat, step: Step)
    requires Inv(s) && Enabled(s, i, step)
    ensures var s' := Next(s, i, step);
      && |s'.procs| == |s.procs| && (s'.waitLock.Some? ==> s'.waitLock.value < |s'.procs|)
      && CpusOk(s')
  {
    hide Inv, Next, Enabled;
    FetchGlobal(s);
    StepWaitLock(s, i, step);
    if step.Pick? || step.Release? {
      SchedulerCpus(s, i, step);
    } else {
      SameCpus(s, i, step);
    }
  }

  /** Every step of every process and of every CPU's scheduler keeps the invariant. */
  lemma StepKeepsInv(s: State, i: nat, step: Step)
    requires Inv(s) && Enabled(s, i, step)
    ensures Inv(Next(s, i, step))
  {
    hide ProcOk, PairOk, KidsOk, Enabled, Next;
    var s' := Next(s, i, step);
    StepGlobal(s, i, step);
    forall j: nat | j < |s'.procs| ensures ProcOk(s', j) && KidsOk(s', j) {
      StepProc(s, i, step, j);
      StepKids(s, i, step, j);
    }
    forall j: nat, k: nat | j < |s'.procs| && k < |s'.procs| ensures PairOk(s', j, k) {
      StepPair(s, i, step, j, k);
    }
  }

  // Whole runs.

  ghost predicate Run(s: State, run: seq<(nat, Step)>)
    decreases |run|
  {
    run == [] || (Enabled(s, run[0].0, run[0].1) && Run(Next(s, run[0].0, run[0].1), run[1..]))
  }

  ghost function Final(s: State, run: seq<(nat, Step)>): State
    requires Run(s, run)
    decreases |run|
  {
    if run == [] then s else Final(Next(s, run[0].0, run[0].1), run[1..])
  }

  lemma {:induction false} RunKeepsInv(s: State, run: seq<(nat, Step)>)
    requires Inv(s) && Run(s, run)
    ensures Inv(Final(s, run))
    decreases |run|
  {
    if run != [] {
      StepKeepsInv(s, run[0].0, run[0].1);
      RunKeepsInv(Next(s, run[0].0, run[0].1), run[1..]);
    }
  }

  ghost predicate Reachable(s: State) {
    exists s0, run :: Initial(s0) && Run(s0, run) && Final(s0, run) == s
  }

  lemma ReachableInv(s: State)
    requires Reachable(s)
    ensures Inv(s)
  {
    var s0, run :| Initial(s0) && Run(s0, run) && Final(s0, run) == s;
    InitialInv(s0);
    RunKeepsInv(s0, run);
  }

  /** wait cannot sleep through an exit: when wait_lock is free, a process that sleeps in wait has no
      zombie child, its own or one that exit gave to it. */
  lemma NoZombieChildOfSleeper(s: State, p: nat, child: nat)
    requires Reachable(s) && p < |s.procs| && child < |s.procs| && s.waitLock == None
    ensures s.procs[p].state == SLEEPING && s.procs[p].pc == Asleep ==>
      !(s.procs[child].state == ZOMBIE && s.procs[child].parent == Some(p))
  {
    ReachableInv(s);
    Fetch(s, p, child);
  }

  /** When wait frees a child's slot, no CPU still runs the child or its kernel stack, and no process
      has the child as parent. */
  lemma ReapIsSafe(s: State, i: nat)
    requires Reachable(s) && Enabled(s, i, Reap)
    ensures var child := s.procs[i].pc.k;
      && (forall c | 0 <= c < |s.cpus| :: s.cpus[c] != Some(child))
      && (forall r | 0 <= r < |s.procs| :: s.procs[r].parent != Some(child))
  {
    ReachableInv(s);
    var child := s.procs[i].pc.k;
    Fetch(s, i, child);
    forall r: nat | r < |s.procs| ensures s.procs[r].parent != Some(child) {
      Fetch(s, child, r);
    }
  }

  /** Every process that has exited, or may still, has a live parent to collect it; init never exits. */
  lemma ParentIsLive(s: State, i: nat)
    requires Reachable(s) && i < |s.procs| && i != INIT && s.procs[i].state != UNUSED && s.procs[i].state != USED
    ensures s.procs[i].parent.Some? && s.procs[i].parent.value < |s.procs| && Live(s.procs[s.procs[i].parent.value])
    ensures Live(s.procs[INIT])
  {
    ReachableInv(s);
    Fetch(s, i, INIT);
    Fetch(s, s.procs[i].parent.value, i);
  }

  /** While a process's lock is free it is RUNNING exactly when one CPU runs it, and no two CPUs ever
      run the same process. */
  lemma RunningOnOneCpu(s: State, i: nat, c: nat, c': nat)
    requires Reachable(s) && i < |s.procs| && c < |s.cpus| && c' < |s.cpus|
    ensures s.cpus[c] == Some(i) && s.cpus[c'] == Some(i) ==> c == c'
    ensures s.procs[i].lock == None && s.cpus[c] == Some(i) ==> s.procs[i].state == RUNNING
    ensures s.procs[i].state == RUNNING ==> exists d: nat :: d < |s.cpus| && s.cpus[d] == Some(i)
  {
    ReachableInv(s);
    Fetch(s, i, i);
  }

  /** wait gives up, in a process that is not killed, only without children; a child that has exited and one
      that has not are both found. */
  lemma GivesUpWithoutChildren(s: State, i: nat)
    requires Reachable(s) && Enabled(s, i, WaitGiveUp)
    ensures s.procs[i].killed || forall k: nat | k < |s.procs| :: s.procs[k].parent != Some(i)
  {
    hide Reachable;
    ReachableInv(s);
    forall k: nat | k < |s.procs| && !s.procs[i].killed ensures s.procs[k].parent != Some(i) {
      Fetch(s, i, k);
    }
  }

  /** wait goes to sleep only for a child that has not exited, and without one that has. */
  lemma SleepsForAChild(s: State, i: nat)
    requires Reachable(s) && Enabled(s, i, WaitSleep)
    ensures exists k: nat :: k < |s.procs| && s.procs[k].parent == Some(i)
    ensures forall k: nat | k < |s.procs| && s.procs[k].parent == Some(i) :: s.procs[k].state != ZOMBIE
  {
    hide Reachable;
    ReachableInv(s);
    FetchKids(s, i);
    forall k: nat | k < |s.procs| && s.procs[k].parent == Some(i) ensures s.procs[k].state != ZOMBIE {
      Fetch(s, i, k);
    }
  }

  /** A process on a CPU can take its next step, or waits for wait_lock, or for the lock of the process that it is
      about to visit. */
  lemma RunnerMoves(s: State, i: nat)
    requires Reachable(s) && Runs(s, i)
    ensures var pc := s.procs[i].pc;
      || (exists step :: Enabled(s, i, step) && !step.Yield?)
      || ((pc.ForkParent? || pc.Reacquire?) && s.waitLock.Some? && s.waitLock != Some(i))
      || (pc.ForkRun? && !CanVisit(s, i, pc.np))
      || ((pc.Waking? || pc.WaitScan?) && pc.k < |s.procs| && pc.k != i && s.procs[pc.k].lock.Some?)
  {
    hide Reachable, Inv, CpuOk, ParentOk, SleeperOk, WokenOk;
    ReachableInv(s);
    Fetch(s, i, i);
    var pc := s.procs[i].pc;
    match pc
    case User => assert Enabled(s, i, SleepElsewhere);
    case ForkParent(np) => assert s.waitLock == None ==> Enabled(s, i, ForkSetParent);
    case ForkRun(np) => assert CanVisit(s, i, np) ==> Enabled(s, i, ForkMakeRunnable);
    case ExitReparent(k) => ExitMoves(s, i);
    case Waking(after, chan, k) =>
      assert if k == i then Enabled(s, i, WakeSkip) else if k == |s.procs| then Enabled(s, i, WakeDone)
        else s.procs[k].lock == None ==> Enabled(s, i, WakeOne);
    case ExitSpin => assert Enabled(s, i, SetZombie);
    case WaitScan(k, havekids) => WaitMoves(s, i);
    case WaitResolved => assert Enabled(s, i, WaitSleep);
    case Reacquire => assert s.waitLock == None ==> Enabled(s, i, CallWait);
  }

  lemma ExitMoves(s: State, i: nat)
    requires Runs(s, i) && s.procs[i].pc.ExitReparent? && ProcOk(s, i)
    ensures exists step :: Enabled(s, i, step) && !step.Yield?
  {
    var k := s.procs[i].pc.k;
    assert if k == |s.procs| then Enabled(s, i, ReparentDone) else if s.procs[k].parent == Some(i)
      then Enabled(s, i, ReparentOne) else Enabled(s, i, ReparentSkip);
  }

  lemma WaitMoves(s: State, i: nat)
    requires Runs(s, i) && s.procs[i].pc.WaitScan? && ProcOk(s, i)
    ensures var k := s.procs[i].pc.k;
      || (exists step :: Enabled(s, i, step) && !step.Yield?)
      || (k < |s.procs| && k != i && s.procs[k].lock.Some?)
  {
    var k := s.procs[i].pc.k;
    assert if k == |s.procs| then Enabled(s, i, WaitGiveUp) || Enabled(s, i, WaitResolve)
      else if s.procs[k].parent != Some(i) then Enabled(s, i, WaitNext)
      else if s.procs[k].state == ZOMBIE then s.procs[k].lock == None ==> Enabled(s, i, Reap)
      else s.procs[k].lock == None ==> Enabled(s, i, WaitAlive);
  }

  // kill.

  /** Whether kill has hit slot k since the slot was last freed; `was` is for the time before the run. */
  ghost predicate Struck(s: State, run: seq<(nat, Step)>, k: nat, was: bool)
    requires Run(s, run)
    decreases |run|
  {
    if run == [] then was
    else
      var (i, step) := run[0];
      Struck(Next(s, i, step), run[1..], k,
        step == Kill(k) || (was && !Reaped(s, i, step, k) && step != ForkFails(k)))
  }

  lemma KillAlone(s: State, i: nat, step: Step, k: nat)
    requires Enabled(s, i, step) && k < |s.procs| && Alone(step)
    ensures |Next(s, i, step).procs| == |s.procs| && Next(s, i, step).procs[k].killed == s.procs[k].killed
  {
    hide CanFork, NextFork;
  }

  lemma KillOthers(s: State, i: nat, step: Step, k: nat)
    requires Enabled(s, i, step) && k < |s.procs| && !Alone(step)
    ensures |Next(s, i, step).procs| == |s.procs|
    ensures Next(s, i, step).procs[k].killed <==>
      step == Kill(k) || (s.procs[k].killed && !Reaped(s, i, step, k) && step != ForkFails(k))
  {
  }

  lemma {:induction false} StruckFrom(s: State, run: seq<(nat, Step)>, k: nat)
    requires Run(s, run) && k < |s.procs|
    ensures |Final(s, run).procs| == |s.procs|
    ensures Final(s, run).procs[k].killed <==> Struck(s, run, k, s.procs[k].killed)
    decreases |run|
  {
    hide Enabled, Next;
    if run != [] {
      var (i, step) := run[0];
      if Alone(step) {
        KillAlone(s, i, step, k);
      } else {
        KillOthers(s, i, step, k);
      }
      StruckFrom(Next(s, i, step), run[1..], k);
    }
  }

  /** In every run a process is marked killed exactly if kill has hit its slot since that was last freed. */
  lemma KilledExactly(s: State, run: seq<(nat, Step)>, k: nat)
    requires Initial(s) && Run(s, run) && k < |s.procs|
    ensures k < |Final(s, run).procs|
    ensures Final(s, run).procs[k].killed <==> Struck(s, run, k, false)
  {
    StruckFrom(s, run, k);
  }

  /** kill wakes its victim, wherever that sleeps; a victim that comes to the end of wait's scan gives up, whatever
      children it has. */
  lemma KillWakes(s: State, i: nat, v: nat)
    requires Enabled(s, i, Kill(v))
    ensures var s' := Next(s, i, Kill(v));
      |s'.procs| == |s.procs| && s'.procs[v].killed && s'.procs[v].state != SLEEPING
    ensures s.procs[i].killed && s.procs[i].pc.WaitScan? ==> !Enabled(s, i, WaitResolve)
  {
  }

  /** A process that is killed before wait has decided to sleep does not sleep in it. */
  lemma KilledDecides(s: State, i: nat, step: Step, k: nat)
    requires Enabled(s, i, step) && k < |s.procs| && s.procs[k].killed
    requires !s.procs[k].pc.WaitResolved? && s.procs[k].pc != Going
    ensures |Next(s, i, step).procs| == |s.procs|
    ensures var pc := Next(s, i, step).procs[k].pc; !pc.WaitResolved? && pc != Going
  {
    hide Enabled, Next;
    if k != i {
      WaiterStays(s, i, step, k);
    } else if InWait(step) {
      DecidesInWait(s, i, step);
    } else {
      NotInWait(s, i, step);
    }
  }

  lemma DecidesInWait(s: State, i: nat, step: Step)
    requires Enabled(s, i, step) && InWait(step) && s.procs[i].killed && !s.procs[i].pc.WaitResolved?
    ensures |Next(s, i, step).procs| == |s.procs|
    ensures var pc := Next(s, i, step).procs[i].pc; !pc.WaitResolved? && pc != Going
  {
    hide CanFork, NextFork, CanExit, NextExit, CanOther, NextOther;
  }

  lemma NotInWait(s: State, i: nat, step: Step)
    requires Enabled(s, i, step) && !InWait(step) && !s.procs[i].pc.WaitResolved? && s.procs[i].pc != Going
    ensures |Next(s, i, step).procs| == |s.procs|
    ensures var pc := Next(s, i, step).procs[i].pc; !pc.WaitResolved? && pc != Going
  {
  }

  lemma {:induction false} Extend(s: State, run: seq<(nat, Step)>, i: nat, step: Step)
    requires Run(s, run) && Enabled(Final(s, run), i, step)
    ensures Run(s, run + [(i, step)]) && Final(s, run + [(i, step)]) == Next(Final(s, run), i, step)
    decreases |run|
  {
    hide Enabled, Next;
    var more := run + [(i, step)];
    if run == [] {
      assert more[1..] == [];
    } else {
      assert more[1..] == run[1..] + [(i, step)];
      Extend(Next(s, run[0].0, run[0].1), run[1..], i, step);
    }
  }

  lemma ReachTo(s: State, i: nat, step: Step, t: State)
    requires Reachable(s) && Enabled(s, i, step)
    requires Next(s, i, step).procs == t.procs && Next(s, i, step).cpus == t.cpus
    requires Next(s, i, step).waitLock == t.waitLock
    ensures Reachable(t)
  {
    hide Enabled, Next, Initial;
    var s0, run :| Initial(s0) && Run(s0, run) && Final(s0, run) == s;
    Extend(s0, run, i, step);
    assert Final(s0, run + [(i, step)]) == t;
  }

  // A kill that comes between the test of wait and its sleep.

  const IDLE: Proc := Proc(UNUSED, None, false, User, None, None, None, 0, 0)
  const ON0: Proc := Proc(RUNNING, None, false, User, None, None, Some(0), 0, 0)
  const ON1: Proc := Proc(RUNNING, Some(0), false, User, None, None, Some(1), 0, 0)
  const CHILD: Proc := Proc(USED, None, false, User, None, Some(0), None, 0, 0)

  function OneUp(p: Proc, q: Proc): State {
    State([p, q], [Some(0), None], None)
  }

  function TwoUp(p: Proc, waitLock: Option<nat>): State {
    State([p, ON1], [Some(0), Some(1)], waitLock)
  }

  lemma InitRuns()
    ensures Reachable(OneUp(ON0, IDLE))
  {
    hide Reachable;
    var s := State([IDLE.(state := RUNNABLE), IDLE], [None, None], None);
    assert Reachable(s) by {
      StartIsReachable(s);
    }
    ReachTo(s, 0, Pick(0), OneUp(ON0.(lock := Some(Own)), IDLE));
    ReachTo(OneUp(ON0.(lock := Some(Own)), IDLE), 0, YieldReturn, OneUp(ON0, IDLE));
  }

  lemma StartIsReachable(s: State)
    requires Initial(s)
    ensures Reachable(s)
  {
    assert Run(s, []) && Final(s, []) == s;
  }

  lemma ChildRuns()
    ensures Reachable(TwoUp(ON0, None))
  {
    hide Reachable;
    InitRuns();
    var t := OneUp(ON0.(pc := ForkParent(1)), CHILD);
    ReachTo(OneUp(ON0, IDLE), 0, AllocProc(1), t);
    var u := OneUp(ON0.(pc := ForkRun(1)), CHILD.(parent := Some(0)));
    ReachTo(t, 0, ForkSetParent, u);
    var v := OneUp(ON0, CHILD.(parent := Some(0), state := RUNNABLE, maker := None));
    ReachTo(u, 0, ForkMakeRunnable, v);
    var w := State([ON0, ON1.(lock := Some(Own))], [Some(0), Some(1)], None);
    ReachTo(v, 1, Pick(1), w);
    ReachTo(w, 1, YieldReturn, TwoUp(ON0, None));
  }

  lemma InitDecides()
    ensures Reachable(TwoUp(ON0.(pc := WaitResolved), Some(0)))
  {
    hide Reachable;
    ChildRuns();
    var t := TwoUp(ON0.(pc := WaitScan(0, false)), Some(0));
    ReachTo(TwoUp(ON0, None), 0, CallWait, t);
    var u := TwoUp(ON0.(pc := WaitScan(1, false)), Some(0));
    ReachTo(t, 0, WaitNext, u);
    var v := TwoUp(ON0.(pc := WaitScan(2, true)), Some(0));
    ReachTo(u, 0, WaitAlive, v);
    ReachTo(v, 0, WaitResolve, TwoUp(ON0.(pc := WaitResolved), Some(0)));
  }

  /** A killed process can sleep in wait beside a child that runs on: kill may come after the test and before the
      sleep, and then finds nobody to wake. */
  lemma KilledSleeper() returns (s: State)
    ensures Reachable(s) && |s.procs| == 2 && s.procs[1].state == RUNNING && s.procs[1].parent == Some(0)
    ensures s.procs[0].killed && s.procs[0].state == SLEEPING && s.procs[0].pc == Asleep
  {
    hide Reachable;
    InitDecides();
    var p := ON0.(killed := true);
    var t := TwoUp(p.(pc := WaitResolved), Some(0));
    ReachTo(TwoUp(ON0.(pc := WaitResolved), Some(0)), 1, Kill(0), t);
    var u := TwoUp(p.(pc := Going, lock := Some(Own)), None);
    ReachTo(t, 0, WaitSleep, u);
    s := TwoUp(p.(pc := Asleep, lock := Some(Scheduler), state := SLEEPING), None);
    ReachTo(u, 0, SwitchOut, s);
  }

  // Lives. A slot of the process table is used again and again; each use is one life.

  /** Slot k is taken for a new process in this step. */
  predicate Born(s: State, i: nat, step: Step, k: nat) {
    step == AllocProc(k)
  }

  /** The process in slot k becomes a zombie. */
  predicate Dies(s: State, i: nat, step: Step, k: nat) {
    step == SetZombie && i == k
  }

  /** wait collects the process in slot k and frees the slot. */
  predicate Reaped(s: State, i: nat, step: Step, k: nat)
    requires Enabled(s, i, step)
  {
    step == Reap && s.procs[i].pc.k == k
  }

  function One(b: bool): nat {
    if b then 1 else 0
  }

  ghost function Births(s: State, run: seq<(nat, Step)>, k: nat): nat
    requires Run(s, run)
    decreases |run|
  {
    if run == [] then 0
    else One(Born(s, run[0].0, run[0].1, k)) + Births(Next(s, run[0].0, run[0].1), run[1..], k)
  }

  ghost function Deaths(s: State, run: seq<(nat, Step)>, k: nat): nat
    requires Run(s, run)
    decreases |run|
  {
    if run == [] then 0
    else One(Dies(s, run[0].0, run[0].1, k)) + Deaths(Next(s, run[0].0, run[0].1), run[1..], k)
  }

  ghost function Reaps(s: State, run: seq<(nat, Step)>, k: nat): nat
    requires Run(s, run)
    decreases |run|
  {
    if run == [] then 0
    else One(Reaped(s, run[0].0, run[0].1, k)) + Reaps(Next(s, run[0].0, run[0].1), run[1..], k)
  }

  /** One step of the books. */
  ghost predicate Booked(s: State, i: nat, step: Step, k: nat)
    requires Enabled(s, i, step) && k < |s.procs|
  {
    |Next(s, i, step).procs| == |s.procs| &&
    var q, q' := s.procs[k], Next(s, i, step).procs[k];
    && One(q'.state != UNUSED) + One(Reaped(s, i, step, k)) == One(q.state != UNUSED) + One(Born(s, i, step, k))
    && One(q'.state == ZOMBIE) + One(Reaped(s, i, step, k)) == One(q.state == ZOMBIE) + One(Dies(s, i, step, k))
  }

  lemma LifeAlone(s: State, i: nat, step: Step, k: nat)
    requires Inv(s) && Enabled(s, i, step) && k < |s.procs| && Alone(step)
    ensures Booked(s, i, step, k)
  {
    hide Inv, CpuOk, PairOk, RangeOk, CanFork, NextFork;
    Fetch(s, i, k);
  }

  lemma LifeOthers(s: State, i: nat, step: Step, k: nat)
    requires Inv(s) && Enabled(s, i, step) && k < |s.procs| && !Alone(step)
    ensures Booked(s, i, step, k)
  {
    hide Inv, CpuOk, ParentOk, RangeOk, ScanOk, SleeperOk, WokenOk;
    Fetch(s, i, k);
  }

  lemma LifeStep(s: State, i: nat, step: Step, k: nat)
    requires Inv(s) && Enabled(s, i, step) && k < |s.procs|
    ensures Booked(s, i, step, k)
  {
    hide Inv, Next, Enabled, Booked;
    if Alone(step) {
      LifeAlone(s, i, step, k);
    } else {
      LifeOthers(s, i, step, k);
    }
  }

  lemma {:induction false} LivesFrom(s: State, run: seq<(nat, Step)>, k: nat)
    requires Inv(s) && Run(s, run) && k < |s.procs|
    ensures |Final(s, run).procs| == |s.procs|
    ensures var q, q' := s.procs[k], Final(s, run).procs[k];
      && One(q'.state != UNUSED) + Reaps(s, run, k) == One(q.state != UNUSED) + Births(s, run, k)
      && One(q'.state == ZOMBIE) + Reaps(s, run, k) == One(q.state == ZOMBIE) + Deaths(s, run, k)
    decreases |run|
  {
    hide Inv, Enabled, Next, Born, Dies, Reaped;
    if run != [] {
      StepKeepsInv(s, run[0].0, run[0].1);
      LifeStep(s, run[0].0, run[0].1, k);
      LivesFrom(Next(s, run[0].0, run[0].1), run[1..], k);
    }
  }

  /** In every run each process dies at most once and each zombie is reaped at most once: a slot is reaped
      as often as its processes died, but for a zombie still there, and they died as often as they were
      born, but for one still alive. */
  lemma Lives(s: State, run: seq<(nat, Step)>, k: nat)
    requires Initial(s) && Run(s, run) && k < |s.procs| && k != INIT
    ensures k < |Final(s, run).procs|
    ensures var q := Final(s, run).procs[k];
      && Births(s, run, k) == Reaps(s, run, k) + One(q.state != UNUSED)
      && Deaths(s, run, k) == Reaps(s, run, k) + One(q.state == ZOMBIE)
  {
    InitialInv(s);
    LivesFrom(s, run, k);
  }

  // Exit statuses.

  /** What the process in slot k last gave to exit; `was` is for the time before the run. */
  ghost function Said(s: State, run: seq<(nat, Step)>, k: nat, was: int): int
    requires Run(s, run)
    decreases |run|
  {
    if run == [] then was
    else
      var (i, step) := run[0];
      Said(Next(s, i, step), run[1..], k, if step.CallExit? && i == k then step.status else was)
  }

  lemma StatusAlone(s: State, i: nat, step: Step, k: nat)
    requires Enabled(s, i, step) && k < |s.procs| && Alone(step)
    ensures |Next(s, i, step).procs| == |s.procs|
    ensures Next(s, i, step).procs[k].status == if step.CallExit? && i == k then step.status else s.procs[k].status
  {
    hide CanFork, NextFork;
  }

  lemma StatusOthers(s: State, i: nat, step: Step, k: nat)
    requires Enabled(s, i, step) && k < |s.procs| && !Alone(step)
    ensures |Next(s, i, step).procs| == |s.procs| && Next(s, i, step).procs[k].status == s.procs[k].status
  {
  }

  lemma {:induction false} SaidFrom(s: State, run: seq<(nat, Step)>, k: nat)
    requires Run(s, run) && k < |s.procs|
    ensures |Final(s, run).procs| == |s.procs|
    ensures Final(s, run).procs[k].status == Said(s, run, k, s.procs[k].status)
    decreases |run|
  {
    hide Enabled, Next;
    if run != [] {
      var (i, step) := run[0];
      if Alone(step) {
        StatusAlone(s, i, step, k);
      } else {
        StatusOthers(s, i, step, k);
      }
      SaidFrom(Next(s, i, step), run[1..], k);
    }
  }

  /** The status that wait finds in the child that it reaps is the one that the child gave to exit. */
  lemma ReapDelivers(s: State, run: seq<(nat, Step)>, i: nat)
    requires Initial(s) && Run(s, run) && Enabled(Final(s, run), i, Reap)
    ensures var t := Final(s, run); var child := t.procs[i].pc.k;
      child < |t.procs| && child < |s.procs| && t.procs[child].xstate == Said(s, run, child, 0)
  {
    hide Reachable, Run, Inv, CpuOk, PairOk, RangeOk;
    var t := Final(s, run);
    var child := t.procs[i].pc.k;
    InitialInv(s);
    RunKeepsInv(s, run);
    Fetch(t, i, child);
    SameCount(s, run);
    SaidFrom(s, run, child);
    assert s.procs[child].status == 0;
  }

  lemma {:induction false} SameCount(s: State, run: seq<(nat, Step)>)
    requires Run(s, run)
    ensures |Final(s, run).procs| == |s.procs|
    decreases |run|
  {
    hide Enabled, Next;
    if run != [] {
      StepCount(s, run[0].0, run[0].1);
      SameCount(Next(s, run[0].0, run[0].1), run[1..]);
    }
  }

  lemma StepCount(s: State, i: nat, step: Step)
    requires Enabled(s, i, step)
    ensures |Next(s, i, step).procs| == |s.procs|
  {
    hide Enabled, Next;
    if step.Pick? || step.Release? {
      SchedulerCount(s, i, step);
    } else {
      SameCpus(s, i, step);
    }
  }

  lemma SchedulerCount(s: State, i: nat, step: Step)
    requires Enabled(s, i, step) && (step.Pick? || step.Release?)
    ensures |Next(s, i, step).procs| == |s.procs|
  {
    hide CanFork, NextFork, CanExit, NextExit, CanWait, NextWait;
  }

}
